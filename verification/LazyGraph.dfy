/** `forceMaterialize` on schemas written with the lazy `z`: their graphs are shallow, so it leaves no wrapper, and
    what it leaves is the schema that the eager `z` would have built. */
module LazyGraph {
  import opened Wrappers
  import DM = DeepMaterialize
  import LS = LazySchema

  /** Which schema a node of the graph is, and which wrapper of the lazy `z` a wrapper is. */
  datatype Drawing = Drawing(schema: map<DM.Node, LS.Schema>, wrapper: map<DM.LazyCell, LS.LazyZodSchema>)

  const OP := DM.Elsewhere("op")

  /** A slot value shows an argument: a literal, a schema, or a wrapper. */
  ghost predicate DrawsArg(d: Drawing, v: DM.Value, a: LS.Arg) {
    match a
    case Data(text) => v == DM.Prim(text)
    case Direct(s) => v.Ref? && v.node in d.schema && d.schema[v.node] == s
    case Deferred(c) => v.Lazy? && v.cell in d.wrapper && d.wrapper[v.cell] == c
  }

  /** A node shows a schema: the operation in a field that is not visited, the receiver and the arguments in visited
      slots. */
  ghost predicate DrawsSchema(d: Drawing, n: DM.Node, slots: map<DM.Slot, DM.Value>, s: LS.Schema) {
    && OP in slots && OP !in n.order && slots[OP] == DM.Prim(s.op)
    && (DM.InnerType in slots <==> s.receiver.Some?) && (forall i: nat :: DM.ItemAt(i) in slots <==> i < |s.args|)
    && (s.receiver.Some? ==>
          && DM.InnerType in n.order && DM.InnerType in slots
          && DrawsArg(d, slots[DM.InnerType], LS.Direct(s.receiver.value)))
    && (forall i :: 0 <= i < |s.args| ==>
          DM.ItemAt(i) in n.order && DM.ItemAt(i) in slots && DrawsArg(d, slots[DM.ItemAt(i)], s.args[i]))
  }

  /** A graph of schemas built by factories and chain methods: every node shows a schema, and every wrapper's factory
      returns a node for what the wrapper stands for. */
  ghost predicate Drawn(w: DM.World, d: Drawing) {
    && DM.Closed(w)
    && (forall n :: n in w.nodes ==> n in d.schema && n in w.orig && DrawsSchema(d, n, w.orig[n], d.schema[n]))
    && (forall c :: c in w.cells ==>
          && c in d.wrapper && c.product.Ref? && c.product.node in d.schema
          && d.schema[c.product.node] == LS.Product(d.wrapper[c]))
  }

  /** Real schemas come out of every factory and every chain method, so no wrapper stands for another. */
  lemma DrawnIsShallow(w: DM.World, d: Drawing)
    requires Drawn(w, d) && DM.InWorld(w, w.root)
    ensures DM.Shallow(w)
  {
    hide DM.Reached, DrawsSchema;
    forall n, s | n in w.nodes && n in w.orig && s in w.orig[n] && s in n.order
      ensures !DM.Unwrap(w.orig[n][s]).Lazy?
    {
      assert DM.InWorld(w, w.orig[n][s]);
    }
  }

  // ---------------------------------------------------------------- reading a schema off a graph

  /** A graph without wrappers shows a tree at a value. */
  ghost predicate Shows(g: DM.Graph, v: DM.Value, t: LS.Tree)
    decreases t
  {
    && v.Ref? && v.node in g && OP in g[v.node] && g[v.node][OP] == DM.Prim(t.op)
    && (DM.InnerType in g[v.node] <==> t.receiver.Some?) && (forall i: nat :: DM.ItemAt(i) in g[v.node] <==> i < |t.args|)
    && (t.receiver.Some? ==> Shows(g, g[v.node][DM.InnerType], t.receiver.value))
    && (forall i :: 0 <= i < |t.args| ==>
          ShowsArg(g, g[v.node][DM.ItemAt(i)], t.args[i]))
  }

  ghost predicate ShowsArg(g: DM.Graph, v: DM.Value, a: LS.TreeArg)
    decreases a
  {
    match a
    case Text(text) => v == DM.Prim(text)
    case Sub(tree) => Shows(g, v, tree)
  }

  /** A graph shows one tree at a value, if it shows any. */
  lemma {:induction false} ShowsOneTree(g: DM.Graph, v: DM.Value, t: LS.Tree, u: LS.Tree)
    requires Shows(g, v, t) && Shows(g, v, u)
    ensures t == u
    decreases t
  {
    if t.receiver.Some? {
      ShowsOneTree(g, g[v.node][DM.InnerType], t.receiver.value, u.receiver.value);
    }
    assert |t.args| == |u.args| by {
      assert DM.ItemAt(|t.args|) !in g[v.node] && DM.ItemAt(|u.args|) !in g[v.node];
    }
    forall i | 0 <= i < |t.args|
      ensures t.args[i] == u.args[i]
    {
      ShowsOneArg(g, g[v.node][DM.ItemAt(i)], t.args[i], u.args[i]);
    }
  }

  lemma {:induction false} ShowsOneArg(g: DM.Graph, v: DM.Value, a: LS.TreeArg, b: LS.TreeArg)
    requires ShowsArg(g, v, a) && ShowsArg(g, v, b)
    ensures a == b
    decreases a
  {
    if a.Sub? {
      ShowsOneTree(g, v, a.tree, b.tree);
    }
  }

  lemma {:induction false} ForcedAt(args: seq<LS.Arg>, i: nat)
    requires i < |args|
    ensures |LS.ForcedArgs(args)| == |args| && LS.ForcedArgs(args)[i] == LS.ForcedArg(args[i])
    ensures LS.RankArg(args[i]) <= LS.RankArgs(args)
    decreases i
  {
    ForcedLength(args);
    if i > 0 {
      ForcedAt(args[1..], i - 1);
      assert args[1..][i - 1] == args[i];
    }
  }

  lemma {:induction false} ForcedLength(args: seq<LS.Arg>)
    ensures |LS.ForcedArgs(args)| == |args|
    decreases |args|
  {
    if args != [] {
      ForcedLength(args[1..]);
    }
  }

  /** The graph that `forceMaterialize` leaves where it has unwrapped all that is reached. */
  ghost predicate AllUnwrapped(w: DM.World, g: DM.Graph) {
    forall n :: n in w.nodes && n in w.orig && DM.Reached(w, n) ==> n in g && g[n] == DM.Unwrapped(w, n)
  }

  /** The wrappers drawn are among consistent ones. */
  ghost predicate Among(w: DM.World, d: Drawing, cells: set<LS.LazyZodSchema>) {
    forall c :: c in w.cells && c in d.wrapper ==> d.wrapper[c] in cells
  }

  /** A node that shows a schema shows, once unwrapped, the tree that the schema is with every wrapper forced. */
  lemma {:induction false} NodeShowsForced(w: DM.World, d: Drawing, g: DM.Graph, n: DM.Node, cells: set<LS.LazyZodSchema>)
    requires Drawn(w, d) && AllUnwrapped(w, g) && LS.Consistent(cells) && Among(w, d, cells)
    requires n in w.nodes && n in d.schema && DM.Reached(w, n)
    ensures Shows(g, DM.Ref(n), LS.Forced(d.schema[n]))
    decreases LS.Rank(d.schema[n]), d.schema[n], 1
  {
    hide DM.Reached, DM.Closed, LS.Consistent, LS.ForcedArgs, LS.RankArgs;
    var s, slots := d.schema[n], w.orig[n];
    assert DrawsSchema(d, n, slots, s);
    if s.receiver.Some? {
      SlotShowsForced(w, d, g, n, DM.InnerType, LS.Direct(s.receiver.value), cells);
    }
    forall i | 0 <= i < |s.args|
      ensures |LS.ForcedArgs(s.args)| == |s.args| && DM.ItemAt(i) in g[n]
      ensures ShowsArg(g, g[n][DM.ItemAt(i)], LS.ForcedArgs(s.args)[i])
    {
      ForcedAt(s.args, i);
      SlotShowsForced(w, d, g, n, DM.ItemAt(i), s.args[i], cells);
    }
    ForcedLength(s.args);
  }

  lemma {:induction false} SlotShowsForced(w: DM.World, d: Drawing, g: DM.Graph, n: DM.Node, slot: DM.Slot, a: LS.Arg,
                                           cells: set<LS.LazyZodSchema>)
    requires Drawn(w, d) && AllUnwrapped(w, g) && LS.Consistent(cells) && Among(w, d, cells)
    requires n in w.nodes && n in d.schema && DM.Reached(w, n) && n in w.orig
    requires slot in n.order && slot in w.orig[n] && DrawsArg(d, w.orig[n][slot], a)
    requires LS.RankArg(a) <= LS.Rank(d.schema[n])
    requires a.Direct? ==> a.schema < d.schema[n]
    ensures n in g && slot in g[n] && ShowsArg(g, g[n][slot], LS.ForcedArg(a))
    decreases LS.Rank(d.schema[n]), d.schema[n], 0
  {
    var v := w.orig[n][slot];
    assert DM.InWorld(w, v);
    DM.ReachesChild(w, n, slot);
    if a.Direct? {
      NodeShowsForced(w, d, g, v.node, cells);
    } else if a.Deferred? {
      var m := v.cell.product.node;
      assert DM.InWorld(w, v.cell.product);
      LS.ProductRank(cells, a.cell);
      NodeShowsForced(w, d, g, m, cells);
    }
  }

  /** The root shows what building an expression gave. */
  ghost predicate DrawsHandle(d: Drawing, v: DM.Value, h: LS.Handle) {
    match h
    case Real(s) => DrawsArg(d, v, LS.Direct(s))
    case Wrapped(c) => DrawsArg(d, v, LS.Deferred(c))
  }

  lemma RootShowsMeaning(w: DM.World, d: Drawing, g: DM.Graph, h: LS.Handle, cells: set<LS.LazyZodSchema>)
    requires Drawn(w, d) && AllUnwrapped(w, g) && LS.Consistent(cells) && Among(w, d, cells)
    requires DM.InWorld(w, w.root) && DrawsHandle(d, w.root, h)
    ensures Shows(g, DM.Unwrap(w.root), LS.Meaning(h))
  {
    var r := DM.Unwrap(w.root);
    assert w.root.Lazy? ==> DM.InWorld(w, w.root.cell.product);
    assert DM.ReachedBy(w, [], r.node);
    NodeShowsForced(w, d, g, r.node, cells);
  }

  /** `forceMaterialize` of what the lazy `z` built for an expression, in any state of its wrappers: no wrapper is left to
      be found, and the graph read as it stands is the schema that the eager `z` builds for that expression. */
  method ForceBuilt(e: LS.Expr, h: LS.Handle, v: DM.Value, ghost d: Drawing, ghost w: DM.World,
                    ghost cells: set<LS.LazyZodSchema>)
    returns (r: DM.Value)
    requires DM.Begins(w) && w.root == v && Drawn(w, d) && DrawsHandle(d, v, h)
    requires LS.Consistent(cells) && Among(w, d, cells) && LS.Meaning(h) == LS.Eager(e)
    modifies w.nodes, w.cells
    ensures DM.Clean(DM.Now(w), r) && Shows(DM.Now(w), r, LS.Eager(e))
  {
    hide *;
    BeginsWell(w, d);
    r := DM.ForceMaterialize(v, w);
    NowIsUnwrapped(w);
    RootShowsMeaning(w, d, DM.Now(w), h, cells);
  }

  lemma BeginsWell(w: DM.World, d: Drawing)
    requires DM.Begins(w) && Drawn(w, d)
    ensures DM.Shallow(w) && DM.InWorld(w, w.root) && forall n :: n in w.nodes ==> n in w.orig
  {
    DrawnIsShallow(w, d);
  }

  lemma NowIsUnwrapped(w: DM.World)
    requires forall n :: n in w.nodes ==> n in w.orig
    requires forall n :: n in w.nodes ==>
               n.slots == if DM.Reached(w, n) then DM.Unwrapped(w, n) else w.orig[n]
    ensures AllUnwrapped(w, DM.Now(w))
  {
    hide DM.Reached, DM.Unwrapped;
  }
}
