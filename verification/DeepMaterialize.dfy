/** `forceMaterialize`: a depth-first walk over a possibly cyclic graph of schema nodes that overwrites, in
    place, every child slot holding a lazy wrapper with what the wrapper stands for. The heap is reasoned about
    through moments, values that hold the slots of every node and the objects entered so far. */
module DeepMaterialize {
  import opened Wrappers

  /** A child slot of a schema's definition. `Elsewhere` is any field the walk does not visit. */
  datatype Slot =
    | ShapeKey(key: string)
    | OptionAt(index: nat)
    | InnerType
    | Element
    | ValueType
    | KeyType
    | Left
    | Right
    | ItemAt(index: nat)
    | Elsewhere(name: string)

  datatype Value = Prim(text: string) | Ref(node: Node) | Lazy(cell: LazyCell)

  /** A real schema. `order` lists the slots the walk visits, in the order it visits them. */
  class Node {
    const order: seq<Slot>
    var slots: map<Slot, Value>

    constructor (order: seq<Slot>, slots: map<Slot, Value>)
      ensures this.order == order && this.slots == slots
    {
      this.order := order;
      this.slots := slots;
    }
  }

  /** A lazy wrapper. `product` is what its factory returns when it is run; `depth` bounds how many wrappers
      in a row have factories that return wrappers. */
  class LazyCell {
    const product: Value
    ghost const depth: nat
    var resolved: Option<Value>
    ghost var runs: nat

    constructor (product: Value, ghost depth: nat)
      ensures this.product == product && this.depth == depth && resolved == None && runs == 0
    {
      this.product := product;
      this.depth := depth;
      resolved := None;
      runs := 0;
    }

    method Materialize() returns (r: Value)
      requires resolved in {None, Some(product)}
      modifies this
      ensures r == product && resolved == Some(product)
      ensures runs == old(runs) + (if old(resolved).None? then 1 else 0)
    {
      if resolved.None? {
        resolved := Some(product);
        runs := runs + 1;
      }
      r := resolved.value;
    }
  }

  /** The set of objects already entered; `done` are the nodes whose slots have all been handled. */
  class Seen {
    var members: set<object>
    ghost var done: set<Node>

    constructor ()
      ensures members == {} && done == {}
    {
      members := {};
      done := {};
    }
  }

  type Graph = map<Node, map<Slot, Value>>

  /** The graph around a call, the slots its nodes had when the call began, and the value it was given. */
  datatype World = World(nodes: set<Node>, cells: set<LazyCell>, objects: set<object>, orig: Graph, root: Value)

  /** A moment of the walk. */
  datatype Moment = Moment(graph: Graph, members: set<object>, done: set<Node>)

  ghost function Now(w: World): Graph
    reads w.nodes
  {
    map n | n in w.nodes :: n.slots
  }

  ghost function At(w: World, seen: Seen): Moment
    reads w.nodes, seen
  {
    Moment(Now(w), seen.members, seen.done)
  }

  ghost predicate InWorld(w: World, v: Value) {
    match v
    case Prim(_) => true
    case Ref(n) => n in w.nodes
    case Lazy(c) => c in w.cells
  }

  /** One level of wrapping taken off. */
  function Unwrap(v: Value): Value {
    if v.Lazy? then v.cell.product else v
  }

  /** b is a with some levels of wrapping taken off. */
  ghost predicate UnwrapsTo(a: Value, b: Value)
    decreases if a.Lazy? then a.cell.depth + 1 else 0
  {
    || a == b
    || (a.Lazy? && (a.cell.product.Lazy? ==> a.cell.product.cell.depth < a.cell.depth) && UnwrapsTo(a.cell.product, b))
  }

  /** What is left when every level is taken off. */
  ghost function Bottom(v: Value): Value
    decreases if v.Lazy? then v.cell.depth + 1 else 0
  {
    if v.Lazy? && (v.cell.product.Lazy? ==> v.cell.product.cell.depth < v.cell.depth) then Bottom(v.cell.product) else v
  }

  // ---------------------------------------------------------------- which nodes the walk is about

  /** A node that visited slots lead to from the root, through the wrappers that stand on the way. */
  ghost predicate ReachedBy(w: World, path: seq<Slot>, n: Node)
    decreases |path|
  {
    if path == [] then Unwrap(w.root) == Ref(n)
    else
      var k := |path| - 1;
      exists m :: m in w.nodes && ReachedBy(w, path[..k], m) && Leads(w, m, path[k], n)
  }

  ghost predicate Leads(w: World, m: Node, s: Slot, n: Node) {
    s in m.order && m in w.orig && s in w.orig[m] && Unwrap(w.orig[m][s]) == Ref(n)
  }

  ghost predicate Reached(w: World, n: Node) {
    exists path :: ReachedBy(w, path, n)
  }

  /** No wrapper stands for another wrapper at the root, or in a visited slot of a node that is reached. */
  ghost predicate Shallow(w: World) {
    && !Unwrap(w.root).Lazy?
    && (forall n, s :: n in w.nodes && n in w.orig && s in w.orig[n] && s in n.order && Reached(w, n)
          ==> !Unwrap(w.orig[n][s]).Lazy?)
  }

  /** A node's slots with one level of wrapping taken off each visited one. */
  function Unwrapped(w: World, n: Node): map<Slot, Value>
    requires n in w.orig
  {
    map s | s in w.orig[n] :: if s in n.order then Unwrap(w.orig[n][s]) else w.orig[n][s]
  }

  /** A path along visited slots as they stand in a graph. */
  ghost predicate Follows(g: Graph, n: Node, path: seq<Slot>, m: Node)
    decreases |path|
  {
    if path == [] then n == m
    else
      && n in g && path[0] in n.order && path[0] in g[n] && g[n][path[0]].Ref?
      && Follows(g, g[n][path[0]].node, path[1..], m)
  }

  ghost predicate WrapperAt(g: Graph, m: Node, s: Slot) {
    m in g && s in m.order && s in g[m] && g[m][s].Lazy?
  }

  /** No wrapper is left in a value, or in a visited slot of a node that visited slots lead to from it. */
  ghost predicate Clean(g: Graph, v: Value) {
    && !v.Lazy?
    && (v.Ref? ==> forall path, m, s :: m in g && Follows(g, v.node, path, m) ==> !WrapperAt(g, m, s))
  }

  /** A node that visited slots lead to from a value as they stand in a graph, through any number of wrappers. */
  ghost predicate Under(g: Graph, v: Value, path: seq<Slot>, n: Node)
    decreases |path|
  {
    if path == [] then Bottom(v) == Ref(n)
    else
      var k := |path| - 1;
      exists m :: m in g && Under(g, v, path[..k], m) && path[k] in m.order && path[k] in g[m]
                  && Bottom(g[m][path[k]]) == Ref(n)
  }

  // ---------------------------------------------------------------- what every step keeps

  /** What does not change: the shape of the graph. A node lists each slot once. */
  ghost predicate Closed(w: World) {
    && (forall n :: n in w.nodes ==> n in w.objects)
    && (forall c :: c in w.cells ==> c in w.objects)
    && w.orig.Keys == w.nodes
    && (forall n :: n in w.nodes ==> forall s :: s in n.order ==> s in w.orig[n])
    && (forall n, i, j :: n in w.nodes && 0 <= i < j < |n.order| ==> n.order[i] != n.order[j])
    && (forall n, s :: n in w.nodes && s in w.orig[n] ==> InWorld(w, w.orig[n][s]))
    && (forall c :: c in w.cells ==> InWorld(w, c.product))
    && (forall c :: c in w.cells && c.product.Lazy? ==> c.product.cell.depth < c.depth)
  }

  /** Each factory runs at most once. */
  ghost predicate CellsOk(w: World)
    reads w.cells
  {
    forall c :: c in w.cells ==> c.resolved in {None, Some(c.product)} && c.runs == (if c.resolved.Some? then 1 else 0)
  }

  /** Slots only lose wrappers. */
  ghost predicate Advances(g: Graph, h: Graph) {
    && g.Keys == h.Keys
    && (forall n :: n in g ==> g[n].Keys == h[n].Keys)
    && (forall n, s :: n in g && s in g[n] ==> s in h[n] && UnwrapsTo(g[n][s], h[n][s]))
  }

  /** Whatever the factories return: slots have only lost wrappers, and those that are not visited stay. */
  ghost predicate Sane(w: World, g: Graph) {
    && Advances(w.orig, g)
    && (forall n, s :: n in g && s in g[n] ==> InWorld(w, g[n][s]))
    && (forall n, s :: n in g && n in w.orig && s in g[n] && s in w.orig[n] && s !in n.order ==> g[n][s] == w.orig[n][s])
  }

  /** No wrapper has been entered. */
  ghost predicate Quiet(w: World, k: Moment) {
    forall c :: c in w.cells ==> c !in k.members
  }

  /** No wrapper has been entered between two moments. */
  ghost predicate Still(w: World, a: Moment, b: Moment) {
    forall c :: c in w.cells && c in b.members ==> c in a.members
  }

  ghost function Gray(w: World, k: Moment): set<Node> {
    set n | n in w.nodes && n in k.members && n !in k.done
  }

  /** A handled slot: it holds what its wrapper stood for, and any schema there has been entered. */
  ghost predicate Handled(w: World, k: Moment, n: Node, s: Slot) {
    && n in k.graph && n in w.orig && s in k.graph[n] && s in w.orig[n]
    && k.graph[n][s] == Unwrap(w.orig[n][s]) && !k.graph[n][s].Lazy?
    && (k.graph[n][s].Ref? ==> k.graph[n][s].node in k.members)
  }

  /** While no wrapper is entered: done nodes are handled, nodes not entered are as they were, and only reached
      nodes are entered. */
  ghost predicate Tidy(w: World, k: Moment) {
    && (forall n :: n in k.done ==> n in w.nodes && n in k.members)
    && (forall n, s :: n in k.done && s in n.order ==> Handled(w, k, n, s))
    && (forall n :: n in w.nodes && n !in k.members ==> n in k.graph && n in w.orig && k.graph[n] == w.orig[n])
    && (forall n :: n in w.nodes && n in k.members ==> Reached(w, n))
  }

  ghost predicate Ready(w: World, k: Moment) {
    k.graph.Keys == w.nodes && Sane(w, k.graph) && k.members <= w.objects && (Quiet(w, k) ==> Tidy(w, k))
  }

  /** What a visit leaves: wrappers only come off, grey nodes stay grey while all is quiet, and a shallow graph
      stays quiet. */
  ghost predicate Visited(w: World, a: Moment, b: Moment) {
    && Ready(w, b) && a.members <= b.members && Advances(a.graph, b.graph)
    && (Quiet(w, b) ==> Gray(w, b) == Gray(w, a))
    && (Shallow(w) && Quiet(w, a) ==> Quiet(w, b))
  }

  ghost function Identity(r: Value): object
    requires !r.Prim?
  {
    if r.Ref? then r.node else r.cell
  }

  /** The value has been entered, if there is anything to enter. */
  ghost predicate Known(k: Moment, v: Value) {
    v.Prim? || Identity(v) in k.members
  }

  /** A slot has lost at least one level of wrapping, and what it holds has been entered. */
  ghost predicate Peeled(a: Moment, b: Moment, n: Node, s: Slot) {
    && n in a.graph && n in b.graph && s in a.graph[n] && s in b.graph[n]
    && UnwrapsTo(Unwrap(a.graph[n][s]), b.graph[n][s]) && Known(b, b.graph[n][s])
  }

  ghost predicate AllPeeled(a: Moment, b: Moment, n: Node) {
    forall s :: s in n.order ==> Peeled(a, b, n, s)
  }

  /** What was entered in between, a schema or a wrapper for one, had all its visited slots peeled, and slots that
      changed hold what was entered. */
  ghost predicate Progress(w: World, a: Moment, b: Moment) {
    && (forall n :: n in w.nodes && n in b.members && n !in a.members ==> AllPeeled(a, b, n))
    && (forall c :: c in w.cells && c in b.members && c !in a.members && Bottom(Lazy(c)).Ref?
          ==> AllPeeled(a, b, Bottom(Lazy(c)).node))
    && (forall n, s :: n in a.graph && n in b.graph && s in a.graph[n] && s in b.graph[n]
          ==> b.graph[n][s] == a.graph[n][s] || Known(b, b.graph[n][s]))
  }

  /** Without a wrapper entered in between, nodes entered before keep their slots, but for the given one. */
  ghost predicate Undisturbed(w: World, a: Moment, b: Moment, n: Option<Node>) {
    Still(w, a, b) ==>
      forall m :: m in a.graph && m in a.members && n != Some(m) ==> m in b.graph && b.graph[m] == a.graph[m]
  }

  /** Slots that walks in progress still have to write. */
  type Pending = set<(Node, Slot)>

  ghost predicate Entered(p: Pending, k: Moment) {
    forall q :: q in p ==> q.0 in k.members
  }

  /** A wrapper that visited slots lead to from n, in a slot of an entered node that is not to be written again. */
  ghost predicate Dirty(k: Moment, n: Node, p: Pending) {
    exists path, m, s ::
      Follows(k.graph, n, path, m) && WrapperAt(k.graph, m, s) && m in k.members && (m, s) !in p
  }

  // ---------------------------------------------------------------- wrappers coming off

  lemma {:induction false} UnwrapsTrans(a: Value, b: Value, c: Value)
    requires UnwrapsTo(a, b) && UnwrapsTo(b, c)
    ensures UnwrapsTo(a, c)
    decreases if a.Lazy? then a.cell.depth + 1 else 0
  {
    if a != b {
      UnwrapsTrans(a.cell.product, b, c);
    }
  }

  lemma AdvancesTrans(f: Graph, g: Graph, h: Graph)
    requires Advances(f, g) && Advances(g, h)
    ensures Advances(f, h)
  {
    forall n, s | n in f && s in f[n]
      ensures s in h[n] && UnwrapsTo(f[n][s], h[n][s])
    {
      UnwrapsTrans(f[n][s], g[n][s], h[n][s]);
    }
  }

  /** Paths stay paths. */
  lemma {:induction false} FollowsKept(g: Graph, h: Graph, n: Node, path: seq<Slot>, m: Node)
    requires Advances(g, h) && Follows(g, n, path, m)
    ensures Follows(h, n, path, m)
    decreases |path|
  {
    if path != [] {
      var s := path[0];
      assert UnwrapsTo(g[n][s], h[n][s]);
      FollowsKept(g, h, g[n][s].node, path[1..], m);
    }
  }

  lemma VisitedTrans(w: World, a: Moment, b: Moment, c: Moment)
    requires Visited(w, a, b) && Visited(w, b, c)
    ensures Visited(w, a, c)
  {
    hide Advances, Ready, Gray, Shallow;
    AdvancesTrans(a.graph, b.graph, c.graph);
  }

  lemma ReachesChild(w: World, n: Node, slot: Slot)
    requires n in w.nodes && Reached(w, n) && n in w.orig && slot in n.order && slot in w.orig[n]
    ensures Unwrap(w.orig[n][slot]).Ref? ==> Reached(w, Unwrap(w.orig[n][slot]).node)
  {
    if Unwrap(w.orig[n][slot]).Ref? {
      var child := Unwrap(w.orig[n][slot]).node;
      var path :| ReachedBy(w, path, n);
      assert (path + [slot])[..|path|] == path && (path + [slot])[|path|] == slot;
      assert Leads(w, n, slot, child);
      assert ReachedBy(w, path + [slot], child);
    }
  }

  // ---------------------------------------------------------------- single steps of the walk

  ghost function Enter(a: Moment, r: Value): Moment
    requires !r.Prim?
  {
    a.(members := a.members + {Identity(r)})
  }

  ghost function Write(b: Moment, n: Node, slot: Slot, child: Value): Moment
    requires n in b.graph
  {
    b.(graph := b.graph[n := b.graph[n][slot := child]])
  }

  lemma EnterKeeps(w: World, a: Moment, r: Value)
    requires Closed(w) && Ready(w, a) && InWorld(w, r) && !r.Prim? && Identity(r) !in a.members
    requires Quiet(w, a) && r.Ref? ==> Reached(w, r.node)
    ensures var b := Enter(a, r);
            && Ready(w, b)
            && (r.Lazy? ==> !Quiet(w, b) && !Still(w, a, b))
            && (r.Ref? ==> Still(w, a, b) && (Quiet(w, b) <==> Quiet(w, a)))
            && (r.Ref? && Quiet(w, b) ==>
                  && Gray(w, b) == Gray(w, a) + {r.node} && r.node !in Gray(w, a)
                  && r.node in b.graph && r.node in w.orig && b.graph[r.node] == w.orig[r.node])
  {
    hide Sane, Reached;
    var b := Enter(a, r);
    assert forall o :: o in b.members <==> o in a.members || o == Identity(r);
    if r.Lazy? {
      assert r.cell in w.cells && r.cell in b.members;
    } else {
      assert forall c: LazyCell :: c in b.members <==> c in a.members;
      assert Quiet(w, a) ==> Gray(w, b) == Gray(w, a) + {r.node};
    }
  }

  lemma LeaveKeeps(w: World, c: Moment, n: Node)
    requires Ready(w, c) && n in w.nodes
    requires Quiet(w, c) ==> n in c.members && forall s :: s in n.order ==> Handled(w, c, n, s)
    ensures var d := c.(done := c.done + {n});
            Ready(w, d) && (Quiet(w, d) <==> Quiet(w, c)) && Gray(w, d) == Gray(w, c) - {n}
  {
    hide Sane, Reached;
  }

  lemma UnwrapOnce(w: World, v: Value)
    requires Closed(w) && InWorld(w, v)
    ensures UnwrapsTo(v, Unwrap(v)) && InWorld(w, Unwrap(v))
  {
  }

  lemma PeeledLater(a: Moment, b: Moment, c: Moment, n: Node, s: Slot)
    requires Peeled(a, b, n, s) && Advances(b.graph, c.graph) && b.members <= c.members
    requires n in c.graph && s in c.graph[n] ==> c.graph[n][s] == b.graph[n][s] || Known(c, c.graph[n][s])
    ensures Peeled(a, c, n, s)
  {
    UnwrapsTrans(Unwrap(a.graph[n][s]), b.graph[n][s], c.graph[n][s]);
  }

  lemma PeeledEarlier(w: World, a: Moment, b: Moment, c: Moment, n: Node, s: Slot)
    requires Closed(w) && Sane(w, b.graph) && Peeled(b, c, n, s) && Advances(a.graph, b.graph)
    ensures Peeled(a, c, n, s)
  {
    var u, v := a.graph[n][s], b.graph[n][s];
    UnwrapOnce(w, v);
    hide Closed, Sane, InWorld;
    if u != v {
      UnwrapsTrans(Unwrap(u), v, Unwrap(v));
      UnwrapsTrans(Unwrap(u), Unwrap(v), c.graph[n][s]);
    }
  }

  lemma AllPeeledBetween(w: World, a: Moment, b: Moment, c: Moment, n: Node)
    requires Closed(w) && Sane(w, b.graph)
    requires Advances(a.graph, b.graph) && Advances(b.graph, c.graph) && b.members <= c.members
    requires forall s :: n in b.graph && n in c.graph && s in b.graph[n] && s in c.graph[n]
                         ==> c.graph[n][s] == b.graph[n][s] || Known(c, c.graph[n][s])
    ensures AllPeeled(a, b, n) || AllPeeled(b, c, n) ==> AllPeeled(a, c, n)
  {
    hide Peeled, Known, Advances, Sane, Closed;
    if AllPeeled(a, b, n) {
      forall s | s in n.order
        ensures Peeled(a, c, n, s)
      {
        assert n in b.graph && s in b.graph[n] by {
          PeeledIn(a, b, n, s);
        }
        PeeledLater(a, b, c, n, s);
      }
    } else if AllPeeled(b, c, n) {
      forall s | s in n.order
        ensures Peeled(a, c, n, s)
      {
        PeeledEarlier(w, a, b, c, n, s);
      }
    }
  }

  lemma PeeledIn(a: Moment, b: Moment, n: Node, s: Slot)
    requires Peeled(a, b, n, s)
    ensures n in b.graph && s in b.graph[n]
  {
  }

  lemma ProgressTrans(w: World, a: Moment, b: Moment, c: Moment)
    requires Closed(w) && Visited(w, a, b) && Visited(w, b, c) && Progress(w, a, b) && Progress(w, b, c)
    ensures Progress(w, a, c)
  {
    hide AllPeeled, Closed, Sane, Tidy, Shallow, Gray, Quiet, UnwrapsTo, Bottom;
    forall n | n in w.nodes && n in c.members && n !in a.members
      ensures AllPeeled(a, c, n)
    {
      AllPeeledBetween(w, a, b, c, n);
    }
    forall o | o in w.cells && o in c.members && o !in a.members && Bottom(Lazy(o)).Ref?
      ensures AllPeeled(a, c, Bottom(Lazy(o)).node)
    {
      AllPeeledBetween(w, a, b, c, Bottom(Lazy(o)).node);
    }
  }

  lemma WriteAdvances(a: Graph, b: Moment, n: Node, slot: Slot, child: Value)
    requires Advances(a, b.graph) && n in a && slot in a[n] && n in b.graph && UnwrapsTo(a[n][slot], child)
    ensures Advances(a, Write(b, n, slot, child).graph)
  {
    hide UnwrapsTo;
    var c := Write(b, n, slot, child).graph;
    forall m, s | m in a && s in a[m]
      ensures s in c[m] && UnwrapsTo(a[m][s], c[m][s])
    {
      assert s in b.graph[m] && UnwrapsTo(a[m][s], b.graph[m][s]);
    }
  }

  lemma WriteIsSane(w: World, b: Moment, n: Node, slot: Slot, child: Value)
    requires Sane(w, b.graph) && n in b.graph && slot in n.order && InWorld(w, child)
    requires Advances(w.orig, Write(b, n, slot, child).graph)
    ensures Sane(w, Write(b, n, slot, child).graph)
  {
    hide UnwrapsTo, InWorld, Advances;
  }

  lemma WriteIsTidy(w: World, b: Moment, n: Node, slot: Slot, child: Value)
    requires Tidy(w, b) && n in Gray(w, b) && n in b.graph
    ensures Tidy(w, Write(b, n, slot, child))
  {
    hide Reached;
  }

  /** Writing back what a visit answered. */
  lemma WriteKeeps(w: World, a: Moment, b: Moment, n: Node, slot: Slot)
    requires Closed(w) && Ready(w, a) && Visited(w, a, b)
    requires n in w.nodes && n in a.graph && n in b.graph && slot in n.order && slot in a.graph[n]
    requires Quiet(w, b) ==> n in Gray(w, a)
    ensures Visited(w, a, Write(b, n, slot, Unwrap(a.graph[n][slot])))
  {
    var child := Unwrap(a.graph[n][slot]);
    var c := Write(b, n, slot, child);
    UnwrapOnce(w, a.graph[n][slot]);
    hide Closed, Tidy, Reached, UnwrapsTo, Unwrap, Shallow, InWorld, Advances;
    WriteAdvances(a.graph, b, n, slot, child);
    AdvancesTrans(w.orig, a.graph, c.graph);
    WriteIsSane(w, b, n, slot, child);
    assert Quiet(w, c) <==> Quiet(w, b);
    assert Gray(w, c) == Gray(w, b);
    if Quiet(w, b) {
      WriteIsTidy(w, b, n, slot, child);
    }
    hide Sane;
  }

  // ---------------------------------------------------------------- where a wrapper is left behind

  /** A slot that was just written holds a wrapper, or a schema from which one is left to be found. */
  ghost predicate Soiled(c: Moment, n: Node, slot: Slot, p: Pending) {
    && n in c.graph && slot in c.graph[n]
    && (c.graph[n][slot].Lazy? || (c.graph[n][slot].Ref? && Dirty(c, c.graph[n][slot].node, p)))
  }

  /** A slot on the way to a schema goes there. */
  lemma OnTheWay(x: Value, y: Value)
    requires UnwrapsTo(x, y) && Unwrap(x).Ref?
    ensures UnwrapsTo(y, Unwrap(x))
  {
    if x != y {
      assert UnwrapsTo(x.cell.product, y);
    } else if x.Lazy? {
      assert UnwrapsTo(x.cell.product, Unwrap(x));
    }
  }

  /** What is left behind below a child is still there once the child is written. */
  lemma WriteKeepsDirty(w: World, a: Moment, b: Moment, n: Node, slot: Slot, p: Pending)
    requires n in a.graph && slot in a.graph[n] && Advances(a.graph, b.graph) && n in b.graph && slot in b.graph[n]
    requires var child := Unwrap(a.graph[n][slot]); child.Ref? && Dirty(b, child.node, p)
    requires (n, slot) in p
    ensures Soiled(Write(b, n, slot, Unwrap(a.graph[n][slot])), n, slot, p)
  {
    var child := Unwrap(a.graph[n][slot]);
    var c := Write(b, n, slot, child);
    assert UnwrapsTo(a.graph[n][slot], b.graph[n][slot]);
    OnTheWay(a.graph[n][slot], b.graph[n][slot]);
    AdvancesRefl(b.graph);
    WriteAdvances(b.graph, b, n, slot, child);
    var path, m, s :| Follows(b.graph, child.node, path, m) && WrapperAt(b.graph, m, s) && m in b.members && (m, s) !in p;
    FollowsKept(b.graph, c.graph, child.node, path, m);
    assert WrapperAt(c.graph, m, s);
    assert Dirty(c, child.node, p);
  }

  lemma AdvancesRefl(g: Graph)
    ensures Advances(g, g)
  {
  }

  /** A wrapper in a written slot is left behind for the owner, once the slot is no longer pending. */
  lemma SoiledOwner(c: Moment, n: Node, slot: Slot, p: Pending)
    requires Soiled(c, n, slot, p) && slot in n.order && n in c.members && (n, slot) in p
    ensures Dirty(c, n, p - {(n, slot)})
  {
    var rest := p - {(n, slot)};
    if c.graph[n][slot].Lazy? {
      assert Follows(c.graph, n, [], n) && WrapperAt(c.graph, n, slot) && (n, slot) !in rest;
    } else {
      var child := c.graph[n][slot].node;
      var path, m, s :| Follows(c.graph, child, path, m) && WrapperAt(c.graph, m, s) && m in c.members && (m, s) !in p;
      var longer := [slot] + path;
      assert longer[0] == slot && longer[1..] == path;
      assert Follows(c.graph, n, longer, m) && (m, s) !in rest;
    }
  }

  /** A visit that enters no wrapper leaves what was left behind. */
  lemma StillKeepsDirty(w: World, a: Moment, c: Moment, n: Node, slot: Slot, p: Pending)
    requires Advances(a.graph, c.graph) && a.members <= c.members && Still(w, a, c) && Undisturbed(w, a, c, Some(n))
    requires n in a.graph && n in c.graph && slot in a.graph[n]
    requires c.graph[n] == a.graph[n][slot := Unwrap(a.graph[n][slot])]
    requires Dirty(a, n, p) && (n, slot) in p
    ensures Dirty(c, n, p - {(n, slot)})
  {
    var path, m, s :| Follows(a.graph, n, path, m) && WrapperAt(a.graph, m, s) && m in a.members && (m, s) !in p;
    FollowsKept(a.graph, c.graph, n, path, m);
    assert (m, s) != (n, slot);
    assert WrapperAt(c.graph, m, s) && (m, s) !in p - {(n, slot)};
  }

  // ---------------------------------------------------------------- what a walk asks and promises

  /** What is asked of a visit: while all is quiet, the value leads to a reached node. */
  ghost predicate MayVisit(w: World, a: Moment, v: Value, p: Pending) {
    && InWorld(w, v) && Ready(w, a) && Entered(p, a)
    && (Quiet(w, a) ==> (Unwrap(v).Ref? ==> Reached(w, Unwrap(v).node)) && (Shallow(w) ==> !Unwrap(v).Lazy?))
  }

  /** What a visit that answers r promises. A value entered before is answered at once. A visit that enters a
      wrapper answers with one, or leaves one to be found below its answer. */
  ghost predicate VisitDone(w: World, a: Moment, b: Moment, r: Value, p: Pending) {
    && InWorld(w, r) && Visited(w, a, b) && Undisturbed(w, a, b, None)
    && (r.Prim? || Identity(r) in a.members ==> b == a)
    && (!r.Prim? ==> Identity(r) in b.members)
    && (!Still(w, a, b) ==> r.Lazy? || (r.Ref? && Dirty(b, r.node, p)))
    && Progress(w, a, b)
  }

  /** What is asked of the walk over a node's slots: it is an outer walk when the node itself was just entered,
      rather than a wrapper for it. */
  ghost predicate MayWalk(w: World, a: Moment, n: Node, outer: bool, p: Pending) {
    && n in w.nodes && Ready(w, a)
    && (outer ==> n in a.members && Entered(p, a) && forall s :: (n, s) !in p)
    && (Quiet(w, a) ==> outer && n in Gray(w, a) && n in a.graph && n in w.orig && a.graph[n] == w.orig[n])
  }

  ghost predicate WalkDone(w: World, a: Moment, c: Moment, n: Node, outer: bool, p: Pending) {
    && Visited(w, a, c) && Undisturbed(w, a, c, Some(n))
    && (Quiet(w, c) ==> forall s :: s in n.order ==> Handled(w, c, n, s))
    && (outer && !Still(w, a, c) ==> Dirty(c, n, p))
    && Progress(w, a, c) && AllPeeled(a, c, n)
  }

  ghost predicate MayWalkSlot(w: World, a: Moment, n: Node, slot: Slot, outer: bool, p: Pending) {
    && n in w.nodes && slot in n.order && Ready(w, a) && n in a.graph && slot in a.graph[n]
    && (outer ==> n in a.members && Entered(p, a) && (n, slot) in p)
    && (Quiet(w, a) ==>
          outer && n in Gray(w, a) && n in w.orig && slot in w.orig[n] && a.graph[n][slot] == w.orig[n][slot])
  }

  ghost predicate SlotDone(w: World, a: Moment, c: Moment, n: Node, slot: Slot, outer: bool, p: Pending) {
    && Visited(w, a, c) && Undisturbed(w, a, c, Some(n))
    && (outer && Still(w, a, c) ==>
          && n in a.graph && n in c.graph && slot in a.graph[n]
          && c.graph[n] == a.graph[n][slot := Unwrap(a.graph[n][slot])])
    && (Quiet(w, c) ==> Handled(w, c, n, slot))
    && (outer && !Still(w, a, c) ==> Soiled(c, n, slot, p))
    && Progress(w, a, c) && Peeled(a, c, n, slot)
  }

  lemma EnteredMayWalk(w: World, a: Moment, r: Value, n: Node, p: Pending)
    requires Closed(w) && Ready(w, a) && InWorld(w, r) && !r.Prim? && Identity(r) !in a.members && Entered(p, a)
    requires Quiet(w, a) && r.Ref? ==> Reached(w, r.node)
    requires n in w.nodes && Bottom(r) == Ref(n)
    ensures MayWalk(w, Enter(a, r), n, r.Ref?, p)
  {
    EnterKeeps(w, a, r);
    hide Ready, Reached, Quiet, Gray;
    assert r.Ref? ==> r == Ref(n);
  }

  /** Leaving a node keeps what was left behind, and what was entered. */
  lemma LeaveIsLocal(w: World, a: Moment, c: Moment, n: Node, p: Pending)
    ensures var d := c.(done := c.done + {n});
            && (Dirty(c, n, p) <==> Dirty(d, n, p))
            && (Still(w, a, c) <==> Still(w, a, d))
            && (forall m :: Undisturbed(w, a, c, m) <==> Undisturbed(w, a, d, m))
  {
    var d := c.(done := c.done + {n});
    assert Still(w, a, c) <==> Still(w, a, d);
    hide Follows, WrapperAt, Still;
  }

  /** What a walk promises from the moment its node was entered, it promises from just before. */
  lemma BeforeEntering(w: World, a: Moment, n: Node, c: Moment)
    requires n !in a.members && Undisturbed(w, Enter(a, Ref(n)), c, Some(n))
    ensures Undisturbed(w, a, c, None) && (Still(w, a, c) <==> Still(w, Enter(a, Ref(n)), c))
  {
    assert forall o: LazyCell :: o in Enter(a, Ref(n)).members <==> o in a.members;
  }

  /** What a walk peels from the moment its schema, or a wrapper for it, was entered, it peels from just before. */
  lemma EnteredProgress(w: World, a: Moment, r: Value, c: Moment, n: Node)
    requires !r.Prim? && Bottom(r) == Ref(n) && Progress(w, Enter(a, r), c) && AllPeeled(Enter(a, r), c, n)
    ensures Progress(w, a, c)
  {
    var b := Enter(a, r);
    hide UnwrapsTo, Bottom;
    assert forall m, s :: Peeled(b, c, m, s) <==> Peeled(a, c, m, s);
    assert forall m :: AllPeeled(b, c, m) <==> AllPeeled(a, c, m);
    hide AllPeeled, Peeled;
    assert r.Ref? ==> n == r.node by {
      RefBottom(r);
    }
    assert forall o :: o in b.members <==> o in a.members || o == Identity(r);
  }

  lemma RefBottom(r: Value)
    ensures r.Ref? ==> Bottom(r) == r
  {
  }

  lemma LeaveKeepsProgress(w: World, a: Moment, c: Moment, n: Node)
    requires Progress(w, a, c)
    ensures Progress(w, a, c.(done := c.done + {n}))
  {
    var d := c.(done := c.done + {n});
    hide UnwrapsTo, Bottom;
    assert forall m, s :: Peeled(a, c, m, s) <==> Peeled(a, d, m, s);
    assert forall m :: AllPeeled(a, c, m) <==> AllPeeled(a, d, m);
    hide AllPeeled;
  }

  /** A schema entered, walked and left. */
  lemma SchemaVisited(w: World, a: Moment, n: Node, c: Moment, p: Pending)
    requires Closed(w) && Ready(w, a) && n in w.nodes && n !in a.members && (Quiet(w, a) ==> Reached(w, n))
    requires WalkDone(w, Enter(a, Ref(n)), c, n, true, p)
    ensures VisitDone(w, a, c.(done := c.done + {n}), Ref(n), p)
  {
    var b := Enter(a, Ref(n));
    EnterKeeps(w, a, Ref(n));
    assert n in c.members;
    LeaveKeeps(w, c, n);
    EnteredProgress(w, a, Ref(n), c, n);
    LeaveKeepsProgress(w, a, c, n);
    hide Closed, Ready, Reached, Handled, Advances, Shallow, Dirty, Quiet, Still, Undisturbed, Gray, Progress, AllPeeled;
    BeforeEntering(w, a, n, c);
    LeaveIsLocal(w, a, c, n, p);
    assert Gray(w, a) + {n} - {n} == Gray(w, a) - {n};
  }

  /** A wrapper that stands for a wrapper, entered, and what it stands for walked. */
  lemma WrapperVisited(w: World, a: Moment, r: Value, c: Moment, p: Pending)
    requires Closed(w) && Ready(w, a) && InWorld(w, r) && r.Lazy? && r.cell !in a.members
    requires if Bottom(r).Ref? then WalkDone(w, Enter(a, r), c, Bottom(r).node, false, p) else c == Enter(a, r)
    requires Quiet(w, a) ==> !Shallow(w)
    ensures VisitDone(w, a, c, r, p)
  {
    EnterKeeps(w, a, r);
    AdvancesRefl(a.graph);
    if Bottom(r).Ref? {
      EnteredProgress(w, a, r, c, Bottom(r).node);
    }
    hide AllPeeled, Known;
    hide Closed, Ready, Reached, Handled, Advances, Shallow, Gray, Dirty;
    assert r.cell in w.cells && r.cell in c.members;
  }

  /** Once a value is known, the visit of it. */
  lemma NothingVisited(w: World, a: Moment, r: Value, p: Pending)
    requires Ready(w, a) && InWorld(w, r) && (r.Prim? || Identity(r) in a.members)
    ensures VisitDone(w, a, a, r, p)
  {
    AdvancesRefl(a.graph);
    hide Ready, Advances;
  }

  lemma SlotMayVisit(w: World, a: Moment, n: Node, slot: Slot, outer: bool, p: Pending)
    requires Closed(w) && MayWalkSlot(w, a, n, slot, outer, p)
    ensures MayVisit(w, a, a.graph[n][slot], if outer then p else {})
  {
    assert InWorld(w, a.graph[n][slot]);
    if Quiet(w, a) {
      assert Reached(w, n);
      ReachesChild(w, n, slot);
    }
    hide Sane, Advances, Closed, Reached, InWorld;
  }

  lemma SlotFrame(w: World, a: Moment, b: Moment, n: Node, slot: Slot, outer: bool, p: Pending)
    requires MayWalkSlot(w, a, n, slot, outer, p) && n in b.graph && Undisturbed(w, a, b, None)
    ensures var c := Write(b, n, slot, Unwrap(a.graph[n][slot]));
            && Undisturbed(w, a, c, Some(n))
            && (Still(w, a, c) <==> Still(w, a, b)) && (Quiet(w, b) <==> Quiet(w, c))
            && n in a.graph && n in c.graph && slot in a.graph[n]
            && (outer && Still(w, a, c) ==> c.graph[n] == a.graph[n][slot := Unwrap(a.graph[n][slot])])
  {
    hide Sane, Reached, Tidy, Unwrap, Gray, Ready, Entered;
  }

  lemma SlotSoiled(w: World, a: Moment, b: Moment, n: Node, slot: Slot, p: Pending)
    requires MayWalkSlot(w, a, n, slot, true, p) && n in b.graph
    requires VisitDone(w, a, b, Unwrap(a.graph[n][slot]), p) && !Still(w, a, b)
    ensures Soiled(Write(b, n, slot, Unwrap(a.graph[n][slot])), n, slot, p)
  {
    var child := Unwrap(a.graph[n][slot]);
    assert Advances(a.graph, b.graph) && slot in b.graph[n];
    hide Sane, Reached, Dirty, Tidy, Shallow, Unwrap, InWorld, UnwrapsTo, Advances, Gray, Ready, Quiet, Still;
    if child.Ref? {
      WriteKeepsDirty(w, a, b, n, slot, p);
    }
  }

  /** What was peeled before stays so. */
  lemma WriteKeepsPeeled(a: Moment, b: Moment, n: Node, slot: Slot, m: Node)
    requires n in a.graph && n in b.graph && slot in a.graph[n] && Known(b, Unwrap(a.graph[n][slot]))
    requires AllPeeled(a, b, m)
    ensures AllPeeled(a, Write(b, n, slot, Unwrap(a.graph[n][slot])), m)
  {
    var c := Write(b, n, slot, Unwrap(a.graph[n][slot]));
    hide Unwrap;
    forall s | s in m.order
      ensures Peeled(a, c, m, s)
    {
      assert Peeled(a, b, m, s);
    }
  }

  /** The written slot is peeled. */
  lemma WritePeels(w: World, a: Moment, b: Moment, n: Node, slot: Slot)
    requires Progress(w, a, b) && n in a.graph && n in b.graph && slot in a.graph[n]
    requires Known(b, Unwrap(a.graph[n][slot]))
    ensures var c := Write(b, n, slot, Unwrap(a.graph[n][slot])); Progress(w, a, c) && Peeled(a, c, n, slot)
  {
    hide Bottom, Unwrap, AllPeeled, UnwrapsTo;
    var c := Write(b, n, slot, Unwrap(a.graph[n][slot]));
    forall m | AllPeeled(a, b, m)
      ensures AllPeeled(a, c, m)
    {
      WriteKeepsPeeled(a, b, n, slot, m);
    }
    assert UnwrapsTo(c.graph[n][slot], c.graph[n][slot]) by {
      UnwrapsRefl(c.graph[n][slot]);
    }
  }

  lemma UnwrapsRefl(v: Value)
    ensures UnwrapsTo(v, v)
  {
  }

  /** A slot visited and written. */
  lemma SlotWritten(w: World, a: Moment, b: Moment, n: Node, slot: Slot, outer: bool, p: Pending)
    requires Closed(w) && MayWalkSlot(w, a, n, slot, outer, p) && n in b.graph
    requires VisitDone(w, a, b, Unwrap(a.graph[n][slot]), if outer then p else {})
    ensures SlotDone(w, a, Write(b, n, slot, Unwrap(a.graph[n][slot])), n, slot, outer, p)
  {
    assert Unwrap(a.graph[n][slot]).Prim? || Known(b, Unwrap(a.graph[n][slot]));
    hide Sane, Closed, Reached, Dirty, Tidy, Shallow, Unwrap, InWorld, UnwrapsTo, Soiled, Entered, Handled;
    hide Visited, Undisturbed, Advances, Gray, Ready, Quiet, Still, Write, Progress, Peeled, Known;
    WritePeels(w, a, b, n, slot);
    SlotFrame(w, a, b, n, slot, outer, p);
    if outer && !Still(w, a, b) {
      SlotSoiled(w, a, b, n, slot, p);
    }
    if Quiet(w, b) {
      QuietSlot(w, a, b, n, slot, outer, p);
    }
    QuietSlotIsGray(w, a, b, n, slot, outer, p);
    WriteKeeps(w, a, b, n, slot);
  }

  lemma QuietSlotIsGray(w: World, a: Moment, b: Moment, n: Node, slot: Slot, outer: bool, p: Pending)
    requires MayWalkSlot(w, a, n, slot, outer, p) && Visited(w, a, b)
    ensures Ready(w, a) && n in a.graph && slot in a.graph[n] && (Quiet(w, b) ==> n in Gray(w, a))
  {
    hide Ready, Advances, Shallow, Gray;
    if Quiet(w, b) {
      assert Quiet(w, a);
    }
  }

  lemma QuietSlot(w: World, a: Moment, b: Moment, n: Node, slot: Slot, outer: bool, p: Pending)
    requires MayWalkSlot(w, a, n, slot, outer, p) && n in b.graph && Quiet(w, b)
    requires VisitDone(w, a, b, Unwrap(a.graph[n][slot]), if outer then p else {})
    ensures Quiet(w, a) && Handled(w, Write(b, n, slot, Unwrap(a.graph[n][slot])), n, slot)
  {
    hide Sane, Reached, Dirty, Tidy, Shallow, Unwrap, Undisturbed, Gray, Ready, Advances;
  }

  /** The slots of a node from one on. */
  ghost function Rest(n: Node, i: nat): Pending {
    set j | i <= j < |n.order| :: (n, n.order[j])
  }

  /** A walk that has come to slot i. */
  ghost predicate WalkedTo(w: World, a: Moment, b: Moment, n: Node, i: nat, outer: bool, p: Pending) {
    && Visited(w, a, b) && Undisturbed(w, a, b, Some(n))
    && (Quiet(w, b) ==> forall j :: 0 <= j < i && j < |n.order| ==> Handled(w, b, n, n.order[j]))
    && (Quiet(w, b) ==> forall j :: i <= j < |n.order| ==> Unwritten(w, b, n, n.order[j]))
    && (outer && !Still(w, a, b) ==> Dirty(b, n, p + Rest(n, i)))
    && Progress(w, a, b) && (forall j :: 0 <= j < i && j < |n.order| ==> Peeled(a, b, n, n.order[j]))
  }

  ghost predicate Unwritten(w: World, b: Moment, n: Node, s: Slot) {
    n in b.graph && n in w.orig && s in b.graph[n] && s in w.orig[n] && b.graph[n][s] == w.orig[n][s]
  }

  lemma RestStep(w: World, n: Node, i: nat, p: Pending)
    requires Closed(w) && n in w.nodes && i < |n.order| && forall s :: (n, s) !in p
    ensures p + Rest(n, i + 1) == p + Rest(n, i) - {(n, n.order[i])} && (n, n.order[i]) in Rest(n, i)
  {
    assert forall q :: q in Rest(n, i) <==> q in Rest(n, i + 1) || q == (n, n.order[i]);
    assert (n, n.order[i]) !in Rest(n, i + 1);
  }

  lemma UndisturbedTrans(w: World, a: Moment, b: Moment, c: Moment, n: Node)
    requires Visited(w, a, b) && Visited(w, b, c) && Undisturbed(w, a, b, Some(n)) && Undisturbed(w, b, c, Some(n))
    ensures Undisturbed(w, a, c, Some(n)) && (Still(w, a, c) <==> Still(w, a, b) && Still(w, b, c))
  {
    hide Ready, Shallow, Gray, Quiet, UnwrapsTo;
  }

  lemma WalkBegins(w: World, a: Moment, n: Node, outer: bool, p: Pending)
    requires Closed(w) && MayWalk(w, a, n, outer, p)
    ensures WalkedTo(w, a, a, n, 0, outer, p)
  {
    AdvancesRefl(a.graph);
    hide Sane, Advances, Reached, Dirty, Tidy, Shallow;
  }

  lemma WalkedMayWalkSlot(w: World, a: Moment, b: Moment, n: Node, i: nat, outer: bool, p: Pending)
    requires Closed(w) && MayWalk(w, a, n, outer, p) && WalkedTo(w, a, b, n, i, outer, p) && i < |n.order|
    ensures MayWalkSlot(w, b, n, n.order[i], outer, p + Rest(n, i))
  {
    if outer {
      RestStep(w, n, i, p);
      assert forall q :: q in Rest(n, i) ==> q.0 == n;
    }
    assert n in b.graph && n.order[i] in b.graph[n];
    hide Reached, Dirty, Shallow, Tidy, UnwrapsTo;
  }

  /** While all is quiet, one more slot is handled and the later ones are as they were. */
  lemma WalkedOnQuietly(w: World, b: Moment, c: Moment, n: Node, i: nat)
    requires Closed(w) && n in w.nodes && i < |n.order| && b.members <= c.members
    requires n in b.graph && n in c.graph && n.order[i] in b.graph[n]
    requires c.graph[n] == b.graph[n][n.order[i] := Unwrap(b.graph[n][n.order[i]])] && Handled(w, c, n, n.order[i])
    requires forall j :: 0 <= j < i ==> Handled(w, b, n, n.order[j])
    requires forall j :: i <= j < |n.order| ==> Unwritten(w, b, n, n.order[j])
    ensures forall j :: 0 <= j <= i ==> Handled(w, c, n, n.order[j])
    ensures forall j :: i < j < |n.order| ==> Unwritten(w, c, n, n.order[j])
  {
    assert forall j :: 0 <= j < |n.order| && j != i ==> n.order[j] != n.order[i];
    hide Closed, Unwrap;
  }

  /** Once a wrapper has been entered, one is left behind. */
  lemma WalkedOnDirty(w: World, a: Moment, b: Moment, c: Moment, n: Node, i: nat, p: Pending)
    requires Closed(w) && MayWalk(w, a, n, true, p) && WalkedTo(w, a, b, n, i, true, p) && i < |n.order|
    requires SlotDone(w, b, c, n, n.order[i], true, p + Rest(n, i))
    requires !Still(w, a, b) || !Still(w, b, c)
    ensures Dirty(c, n, p + Rest(n, i + 1))
  {
    RestStep(w, n, i, p);
    hide Closed, Ready, Sane, UnwrapsTo, Reached, Handled, Tidy, Shallow, Rest, Gray, Quiet, Dirty, Unwrap;
    if !Still(w, b, c) {
      SoiledOwner(c, n, n.order[i], p + Rest(n, i));
    } else {
      StillKeepsDirty(w, b, c, n, n.order[i], p + Rest(n, i));
    }
  }

  /** The slots peeled so far stay so, and one more is. */
  lemma WalkedPeels(w: World, a: Moment, b: Moment, c: Moment, n: Node, i: nat)
    requires Closed(w) && i < |n.order|
    requires Visited(w, a, b) && Visited(w, b, c) && Progress(w, a, b) && Progress(w, b, c)
    requires Peeled(b, c, n, n.order[i]) && forall j :: 0 <= j < i ==> Peeled(a, b, n, n.order[j])
    ensures Progress(w, a, c) && forall j :: 0 <= j <= i ==> Peeled(a, c, n, n.order[j])
  {
    ProgressTrans(w, a, b, c);
    hide Sane, Tidy, Closed, Shallow, Gray, Quiet, UnwrapsTo, Bottom, AllPeeled;
    PeeledEarlier(w, a, b, c, n, n.order[i]);
    forall j | 0 <= j < i
      ensures Peeled(a, c, n, n.order[j])
    {
      PeeledIn(a, b, n, n.order[j]);
      PeeledLater(a, b, c, n, n.order[j]);
    }
  }

  lemma WalkedOn(w: World, a: Moment, b: Moment, c: Moment, n: Node, i: nat, outer: bool, p: Pending)
    requires Closed(w) && MayWalk(w, a, n, outer, p) && WalkedTo(w, a, b, n, i, outer, p) && i < |n.order|
    requires SlotDone(w, b, c, n, n.order[i], outer, p + Rest(n, i))
    ensures WalkedTo(w, a, c, n, i + 1, outer, p) && b.members <= c.members
  {
    VisitedTrans(w, a, b, c);
    UndisturbedTrans(w, a, b, c, n);
    WalkedPeels(w, a, b, c, n, i);
    hide Progress, Peeled;
    hide Sane, Advances, Reached, Dirty, Tidy, Shallow, Rest, Soiled;
    hide Closed, Ready, Handled, Unwritten, Undisturbed, Gray, Unwrap;
    if outer && !Still(w, a, c) {
      WalkedOnDirty(w, a, b, c, n, i, p);
    }
    if Quiet(w, c) {
      assert Quiet(w, b) && Still(w, b, c) && outer;
      WalkedOnQuietly(w, b, c, n, i);
    }
  }

  lemma WalkEnds(w: World, a: Moment, c: Moment, n: Node, outer: bool, p: Pending)
    requires WalkedTo(w, a, c, n, |n.order|, outer, p)
    ensures WalkDone(w, a, c, n, outer, p)
  {
    assert p + Rest(n, |n.order|) == p;
    hide Visited, Undisturbed, Dirty, Handled, Still, Quiet;
  }

  // ---------------------------------------------------------------- the walk

  /** Runs a wrapper's factory, or recalls what it returned. */
  method Resolve(v: Value, ghost w: World) returns (r: Value)
    requires Closed(w) && CellsOk(w) && InWorld(w, v)
    modifies w.cells
    ensures r == Unwrap(v) && InWorld(w, r) && CellsOk(w)
  {
    r := v;
    if v.Lazy? {
      r := v.cell.Materialize();
    }
  }

  /** `_def` of what was resolved: a wrapper in this position answers with the definition of the schema at the
      end of its chain. */
  method DefinitionOf(v: Value, ghost w: World) returns (n: Option<Node>)
    requires Closed(w) && CellsOk(w) && InWorld(w, v)
    modifies w.cells
    ensures CellsOk(w)
    ensures n == if Bottom(v).Ref? then Some(Bottom(v).node) else None
    ensures n.Some? ==> n.value in w.nodes
    decreases if v.Lazy? then v.cell.depth + 1 else 0
  {
    match v
    case Prim(_) => return None;
    case Ref(node) => return Some(node);
    case Lazy(cell) =>
      var product := cell.Materialize();
      n := DefinitionOf(product, w);
  }

  method Mark(r: Value, seen: Seen, ghost w: World)
    requires !r.Prim?
    modifies seen
    ensures At(w, seen) == Enter(old(At(w, seen)), r)
  {
    var identity: object := if r.Ref? then r.node else r.cell;
    seen.members := seen.members + {identity};
  }

  method Leave(n: Node, seen: Seen, ghost w: World)
    modifies seen
    ensures At(w, seen) == old(At(w, seen)).(done := old(At(w, seen)).done + {n})
  {
    seen.done := seen.done + {n};
  }

  method Store(n: Node, slot: Slot, child: Value, ghost seen: Seen, ghost w: World)
    requires n in w.nodes
    modifies n
    ensures n in old(At(w, seen)).graph && At(w, seen) == Write(old(At(w, seen)), n, slot, child)
  {
    n.slots := n.slots[slot := child];
  }

  /** One visit. `p` are the slots that enclosing walks, all of entered nodes, have still to write. */
  method DeepMaterialize(v: Value, seen: Seen, ghost p: Pending, ghost w: World) returns (r: Value)
    requires Closed(w) && CellsOk(w) && MayVisit(w, At(w, seen), v, p)
    modifies w.nodes, w.cells, seen
    ensures CellsOk(w) && r == Unwrap(v) && VisitDone(w, old(At(w, seen)), At(w, seen), r, p)
    decreases w.objects - At(w, seen).members, 1
  {
    ghost var a := At(w, seen);
    r := Resolve(v, w);
    assert a == At(w, seen);
    assert a.members == seen.members;
    hide Closed, CellsOk, Ready, Quiet, Reached, Shallow, VisitDone;
    if r.Prim? || (if r.Ref? then r.node else r.cell) in seen.members {
      NothingVisited(w, a, r, p);
      return;
    }
    Mark(r, seen, w);
    hide At;
    VisitEntered(r, seen, a, p, w);
  }

  lemma EntryDecreases(w: World, a: Moment, r: Value)
    requires Closed(w) && InWorld(w, r) && !r.Prim? && Identity(r) !in a.members
    ensures w.objects - Enter(a, r).members < w.objects - a.members
  {
    assert Identity(r) in w.objects && Identity(r) in Enter(a, r).members;
  }

  /** The part of a visit below a value that has just been entered. */
  method VisitEntered(r: Value, seen: Seen, ghost a: Moment, ghost p: Pending, ghost w: World)
    requires Closed(w) && CellsOk(w) && InWorld(w, r) && !r.Prim?
    requires Ready(w, a) && Identity(r) !in a.members && At(w, seen) == Enter(a, r) && Entered(p, a)
    requires Quiet(w, a) ==> (r.Ref? ==> Reached(w, r.node)) && (Shallow(w) ==> !r.Lazy?)
    modifies w.nodes, w.cells, seen
    ensures CellsOk(w) && VisitDone(w, a, At(w, seen), r, p)
    decreases w.objects - a.members, 0
  {
    ghost var b := At(w, seen);
    assert r.Ref? ==> Bottom(r) == r;
    EntryDecreases(w, a, r);
    hide *;
    var def := DefinitionOf(r, w);
    if def.Some? {
      EnteredMayWalk(w, a, r, def.value, p);
      WalkSlots(def.value, seen, r.Ref?, p, w);
    }
    ghost var c := At(w, seen);
    if r.Ref? {
      Leave(r.node, seen, w);
      SchemaVisited(w, a, r.node, c, p);
    } else {
      WrapperVisited(w, a, r, c, p);
    }
  }

  method WalkSlot(n: Node, slot: Slot, seen: Seen, ghost outer: bool, ghost p: Pending, ghost w: World)
    requires Closed(w) && CellsOk(w) && MayWalkSlot(w, At(w, seen), n, slot, outer, p)
    modifies w.nodes, w.cells, seen
    ensures CellsOk(w) && SlotDone(w, old(At(w, seen)), At(w, seen), n, slot, outer, p)
    decreases w.objects - At(w, seen).members, 2
  {
    ghost var a := At(w, seen);
    assert a.graph[n] == n.slots;
    SlotMayVisit(w, a, n, slot, outer, p);
    hide *;
    var child := DeepMaterialize(n.slots[slot], seen, if outer then p else {}, w);
    ghost var b := At(w, seen);
    Store(n, slot, child, seen, w);
    SlotWritten(w, a, b, n, slot, outer, p);
  }

  method WalkSlots(n: Node, seen: Seen, ghost outer: bool, ghost p: Pending, ghost w: World)
    requires Closed(w) && CellsOk(w) && MayWalk(w, At(w, seen), n, outer, p)
    modifies w.nodes, w.cells, seen
    ensures CellsOk(w) && WalkDone(w, old(At(w, seen)), At(w, seen), n, outer, p)
    decreases w.objects - At(w, seen).members, 3
  {
    ghost var a := At(w, seen);
    WalkBegins(w, a, n, outer, p);
    hide *;
    for i := 0 to |n.order|
      invariant CellsOk(w) && WalkedTo(w, a, At(w, seen), n, i, outer, p)
      invariant a.members <= At(w, seen).members
    {
      ghost var b := At(w, seen);
      WalkedMayWalkSlot(w, a, b, n, i, outer, p);
      WalkSlot(n, n.order[i], seen, outer, p + Rest(n, i), w);
      WalkedOn(w, a, b, At(w, seen), n, i, outer, p);
    }
    WalkEnds(w, a, At(w, seen), n, outer, p);
  }

  // ---------------------------------------------------------------- what a schema means

  /** What can be seen of a value to some depth, through whatever wrappers stand on the way. */
  datatype Unfolding = Cut | Atom(text: string) | Missing | Branch(children: map<Slot, Unfolding>)

  ghost function Unfold(g: Graph, v: Value, depth: nat): Unfolding
    decreases depth, 0
  {
    if depth == 0 then Cut
    else
      match Bottom(v)
      case Prim(text) => Atom(text)
      case Lazy(_) => Missing
      case Ref(n) => if n in g then Branch(Children(g, n, depth - 1)) else Missing
  }

  ghost function Children(g: Graph, n: Node, depth: nat): map<Slot, Unfolding>
    requires n in g
    decreases depth, 1
  {
    map s | s in g[n] :: Unfold(g, g[n][s], depth)
  }

  /** What can be seen tells two values apart as far as it goes: they look alike exactly when they are one text, or two
      schemas with the same slots whose contents look alike one level less deep. */
  lemma UnfoldTellsApart(g: Graph, u: Value, v: Value, depth: nat)
    requires !Bottom(u).Lazy? && !Bottom(v).Lazy?
    requires (Bottom(u).Ref? ==> Bottom(u).node in g) && (Bottom(v).Ref? ==> Bottom(v).node in g)
    ensures Unfold(g, u, depth + 1) == Unfold(g, v, depth + 1) <==>
              || (Bottom(u).Prim? && Bottom(v).Prim? && Bottom(u).text == Bottom(v).text)
              || (Bottom(u).Ref? && Bottom(v).Ref?
                  && var m, n := g[Bottom(u).node], g[Bottom(v).node];
                     m.Keys == n.Keys && forall s :: s in m ==> Unfold(g, m[s], depth) == Unfold(g, n[s], depth))
  {
    hide Bottom;
    if Bottom(u).Ref? && Bottom(v).Ref? {
      var a, b := Bottom(u).node, Bottom(v).node;
      SameChildren(g, a, b, depth);
      hide Children;
    }
  }

  lemma SameChildren(g: Graph, a: Node, b: Node, depth: nat)
    requires a in g && b in g
    ensures Children(g, a, depth) == Children(g, b, depth) <==>
              g[a].Keys == g[b].Keys && forall s :: s in g[a] ==> Unfold(g, g[a][s], depth) == Unfold(g, g[b][s], depth)
  {
    hide Bottom, Unfold;
    var x, y := Children(g, a, depth), Children(g, b, depth);
    assert x.Keys == g[a].Keys && y.Keys == g[b].Keys;
    if x == y {
      forall s | s in g[a]
        ensures Unfold(g, g[a][s], depth) == Unfold(g, g[b][s], depth)
      {
        assert x[s] == y[s];
      }
    }
  }

  lemma {:induction false} SameBottom(a: Value, b: Value)
    requires UnwrapsTo(a, b)
    ensures Bottom(a) == Bottom(b)
    decreases if a.Lazy? then a.cell.depth + 1 else 0
  {
    if a != b {
      SameBottom(a.cell.product, b);
    }
  }

  /** Taking wrappers off, anywhere and in any number, changes nothing that can be seen. */
  lemma {:induction false} MeaningKept(g: Graph, h: Graph, u: Value, v: Value, depth: nat)
    requires Advances(g, h) && Bottom(u) == Bottom(v)
    ensures Unfold(g, u, depth) == Unfold(h, v, depth)
    decreases depth, 0
  {
    assert g.Keys == h.Keys;
    hide Advances, Children;
    if depth > 0 && Bottom(u).Ref? && Bottom(u).node in g {
      ChildrenKept(g, h, Bottom(u).node, depth - 1);
    }
  }

  lemma {:induction false} ChildrenKept(g: Graph, h: Graph, n: Node, depth: nat)
    requires Advances(g, h) && n in g && n in h
    ensures Children(g, n, depth) == Children(h, n, depth)
    decreases depth, 1
  {
    hide UnwrapsTo, Bottom, Unfold;
    assert g[n].Keys == h[n].Keys;
    forall s | s in g[n]
      ensures Unfold(g, g[n][s], depth) == Unfold(h, h[n][s], depth)
    {
      SameBottom(g[n][s], h[n][s]);
      MeaningKept(g, h, g[n][s], h[n][s], depth);
    }
  }

  // ---------------------------------------------------------------- the whole call

  /** The graph as the call finds it. */
  ghost predicate Begins(w: World)
    reads w.nodes, w.cells
  {
    Closed(w) && CellsOk(w) && InWorld(w, w.root) && Now(w) == w.orig
  }

  /** Terminates on every graph, and answers with its argument unwrapped once. No wrapper is left to be found from
      the answer exactly when the graph was shallow; then every visited slot of exactly the nodes that visited slots
      lead to is unwrapped, and nothing else is touched. In any graph the answer means what the argument meant, slots
      only lose wrappers, every visited slot of a node below the answer loses one at least, through whatever wrappers are
      left on the way to it, slots that are not visited stay, and each factory runs at most once. */
  method ForceMaterialize(v: Value, ghost w: World) returns (r: Value)
    requires Begins(w) && w.root == v
    modifies w.nodes, w.cells
    ensures r == Unwrap(v) && CellsOk(w) && Sane(w, Now(w))
    ensures forall depth :: Unfold(Now(w), r, depth) == Unfold(w.orig, v, depth)
    ensures forall path, n, s :: n in w.nodes && Under(Now(w), r, path, n) && s in n.order ==>
              s in n.slots && UnwrapsTo(Unwrap(w.orig[n][s]), n.slots[s])
    ensures Clean(Now(w), r) <==> Shallow(w)
    ensures Shallow(w) ==> forall n :: n in w.nodes ==> n.slots == if Reached(w, n) then Unwrapped(w, n) else w.orig[n]
  {
    var seen := new Seen();
    ghost var a := At(w, seen);
    CallBegins(w, a);
    hide Closed, CellsOk, InWorld, Bottom, Reached, Shallow, Clean, Sane;
    hide MayVisit, VisitDone, Unwrapped, Unfold, Children;
    r := DeepMaterialize(v, seen, {}, w);
    CallEnds(w, a, At(w, seen), r);
    SeenTheSame(w, a, At(w, seen), r);
    BelowIsPeeled(w, a, At(w, seen), r);
  }

  /** Every visited slot below the answer has lost a level. */
  lemma BelowIsPeeled(w: World, a: Moment, b: Moment, r: Value)
    requires Closed(w) && a == Moment(w.orig, {}, {}) && VisitDone(w, a, b, r, {})
    ensures forall path, n, s :: n in w.nodes && Under(b.graph, r, path, n) && s in n.order ==>
              n in b.graph && s in b.graph[n] && UnwrapsTo(Unwrap(w.orig[n][s]), b.graph[n][s])
  {
    hide Closed, VisitDone, UnwrapsTo, Unwrap, Under;
    forall path, n, s | n in w.nodes && Under(b.graph, r, path, n) && s in n.order
      ensures Peeled(a, b, n, s)
    {
      UnderIsPeeled(w, a, b, r, path, n);
    }
  }

  lemma {:induction false} UnderIsPeeled(w: World, a: Moment, b: Moment, r: Value, path: seq<Slot>, n: Node)
    requires Closed(w) && a == Moment(w.orig, {}, {}) && VisitDone(w, a, b, r, {})
    requires n in w.nodes && Under(b.graph, r, path, n)
    ensures AllPeeled(a, b, n)
    decreases |path|
  {
    hide Closed, Advances, Tidy, Dirty, Undisturbed, UnwrapsTo, Gray, Shallow, Still, AllPeeled;
    if path == [] {
      EnteredIsPeeled(w, a, b, r, n);
    } else {
      var k := |path| - 1;
      var m :| m in b.graph && Under(b.graph, r, path[..k], m) && path[k] in m.order && path[k] in b.graph[m]
               && Bottom(b.graph[m][path[k]]) == Ref(n);
      UnderIsPeeled(w, a, b, r, path[..k], m);
      assert Peeled(a, b, m, path[k]) by {
        AllPeeledAt(a, b, m, path[k]);
      }
      EnteredIsPeeled(w, a, b, b.graph[m][path[k]], n);
    }
  }

  lemma AllPeeledAt(a: Moment, b: Moment, n: Node, s: Slot)
    requires AllPeeled(a, b, n) && s in n.order
    ensures Peeled(a, b, n, s)
  {
  }

  lemma EnteredIsPeeled(w: World, a: Moment, b: Moment, v: Value, n: Node)
    requires InWorld(w, v) && Known(b, v) && a.members == {} && Progress(w, a, b) && Bottom(v) == Ref(n)
    ensures AllPeeled(a, b, n)
  {
    hide AllPeeled;
    RefBottom(v);
    assert v.Lazy? ==> v == Lazy(v.cell);
  }

  lemma SeenTheSame(w: World, a: Moment, b: Moment, r: Value)
    requires Closed(w) && InWorld(w, w.root) && a.graph == w.orig && r == Unwrap(w.root) && VisitDone(w, a, b, r, {})
    ensures forall depth :: Unfold(b.graph, r, depth) == Unfold(w.orig, w.root, depth)
  {
    UnwrapOnce(w, w.root);
    SameBottom(w.root, r);
    forall depth
      ensures Unfold(b.graph, r, depth) == Unfold(w.orig, w.root, depth)
    {
      MeaningKept(w.orig, b.graph, w.root, r, depth);
    }
  }

  lemma CallBegins(w: World, a: Moment)
    requires Closed(w) && InWorld(w, w.root) && a == Moment(w.orig, {}, {})
    ensures MayVisit(w, a, w.root, {})
  {
    AdvancesRefl(a.graph);
    assert Unwrap(w.root).Ref? ==> ReachedBy(w, [], Unwrap(w.root).node);
    hide Advances, ReachedBy;
  }

  lemma CallEnds(w: World, a: Moment, b: Moment, r: Value)
    requires Closed(w) && a == Moment(w.orig, {}, {}) && r == Unwrap(w.root) && VisitDone(w, a, b, r, {})
    ensures Sane(w, b.graph) && b.graph.Keys == w.nodes
    ensures Clean(b.graph, r) <==> Shallow(w)
    ensures Shallow(w) ==> forall n :: n in w.nodes ==>
              n in b.graph && b.graph[n] == if Reached(w, n) then Unwrapped(w, n) else w.orig[n]
  {
    if Quiet(w, b) {
      assert Gray(w, b) == {};
      QuietCall(w, b, r);
    } else {
      assert !Still(w, a, b) && !Shallow(w) by {
        hide Shallow;
      }
      hide Shallow, Ready, Visited;
      if !r.Lazy? {
        var path, m, s :| Follows(b.graph, r.node, path, m) && WrapperAt(b.graph, m, s);
        assert !Clean(b.graph, r);
      }
    }
  }

  /** A call that enters no wrapper: it was on a shallow graph, and unwraps all there is to unwrap. */
  lemma QuietCall(w: World, b: Moment, r: Value)
    requires Closed(w) && Ready(w, b) && Quiet(w, b) && Gray(w, b) == {} && r == Unwrap(w.root)
    requires InWorld(w, r) && (!r.Prim? ==> Identity(r) in b.members)
    ensures Shallow(w) && Clean(b.graph, r)
    ensures forall n :: n in w.nodes ==>
              n in b.graph && b.graph[n] == if Reached(w, n) then Unwrapped(w, n) else w.orig[n]
  {
    assert !r.Lazy?;
    forall n | n in w.nodes && Reached(w, n)
      ensures n in b.done && n in w.orig && b.graph[n] == Unwrapped(w, n)
    {
      ReachedIsDone(w, b, r, n);
      DoneIsUnwrapped(w, b, n);
    }
    forall n, s | n in w.nodes && n in w.orig && s in w.orig[n] && s in n.order && Reached(w, n)
      ensures !Unwrap(w.orig[n][s]).Lazy?
    {
      ReachedIsDone(w, b, r, n);
      assert Handled(w, b, n, s);
    }
    if r.Ref? {
      assert ReachedBy(w, [], r.node);
      forall path, m, s | m in b.graph && Follows(b.graph, r.node, path, m)
        ensures !WrapperAt(b.graph, m, s)
      {
        FollowedIsReached(w, b, r, r.node, path, m);
        ReachedIsDone(w, b, r, m);
        if s in m.order {
          assert Handled(w, b, m, s);
        }
      }
    }
  }

  lemma DoneIsUnwrapped(w: World, b: Moment, n: Node)
    requires Closed(w) && Ready(w, b) && Quiet(w, b) && n in b.done
    ensures n in b.graph && n in w.orig && b.graph[n] == Unwrapped(w, n)
  {
    hide Reached, UnwrapsTo;
    forall s | s in w.orig[n]
      ensures s in b.graph[n] && b.graph[n][s] == Unwrapped(w, n)[s]
    {
      assert s in n.order ==> Handled(w, b, n, s);
    }
  }

  lemma ReachedIsDone(w: World, b: Moment, r: Value, n: Node)
    requires Closed(w) && Ready(w, b) && Quiet(w, b) && Gray(w, b) == {} && r == Unwrap(w.root)
    requires InWorld(w, r) && (!r.Prim? ==> Identity(r) in b.members)
    requires n in w.nodes && Reached(w, n)
    ensures n in b.done
  {
    var path :| ReachedBy(w, path, n);
    PathStaysDone(w, b, r, path, n);
  }

  lemma {:induction false} PathStaysDone(w: World, b: Moment, r: Value, path: seq<Slot>, n: Node)
    requires Closed(w) && Ready(w, b) && Quiet(w, b) && Gray(w, b) == {} && r == Unwrap(w.root)
    requires InWorld(w, r) && (!r.Prim? ==> Identity(r) in b.members)
    requires n in w.nodes && ReachedBy(w, path, n)
    ensures n in b.done
    decreases |path|
  {
    hide Reached, UnwrapsTo, Sane;
    if path == [] {
      assert n !in Gray(w, b);
    } else {
      var k := |path| - 1;
      var m :| m in w.nodes && ReachedBy(w, path[..k], m) && Leads(w, m, path[k], n);
      PathStaysDone(w, b, r, path[..k], m);
      assert Handled(w, b, m, path[k]);
      assert n !in Gray(w, b);
    }
  }

  /** What visited slots lead to after the call, they led to before it. */
  lemma {:induction false} FollowedIsReached(w: World, b: Moment, r: Value, n: Node, path: seq<Slot>, m: Node)
    requires Closed(w) && Ready(w, b) && Quiet(w, b) && Gray(w, b) == {} && r == Unwrap(w.root)
    requires InWorld(w, r) && (!r.Prim? ==> Identity(r) in b.members)
    requires n in w.nodes && Reached(w, n) && Follows(b.graph, n, path, m)
    ensures m in w.nodes && Reached(w, m)
    decreases |path|
  {
    if path != [] {
      ReachedIsDone(w, b, r, n);
      assert Handled(w, b, n, path[0]);
      ReachesChild(w, n, path[0]);
      assert InWorld(w, b.graph[n][path[0]]);
      hide Reached, Tidy, Sane;
      FollowedIsReached(w, b, r, b.graph[n][path[0]].node, path[1..], m);
    }
  }
}
