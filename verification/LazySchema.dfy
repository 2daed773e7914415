/** Lazy schemas: wrappers that put off building a schema, run their factory once, and patch hot methods onto
    themselves; and the proof that a lazily written schema means what it would have meant eagerly. */
module LazySchema {
  import opened Wrappers

  const HEAVY_FACTORIES: set<string> := {
    "object", "strictObject", "looseObject", "union", "discriminatedUnion", "intersection", "record", "tuple"
  }

  const CHAIN_METHODS: set<string> := {
    "optional", "nullable", "nullish", "default", "prefault", "describe", "refine", "superRefine", "transform",
    "pipe", "or", "and", "readonly", "brand", "catch", "array", "promise",
    "email", "url", "uuid", "cuid", "cuid2", "ulid", "regex", "startsWith", "endsWith", "trim", "toLowerCase",
    "toUpperCase", "datetime", "date", "time", "ip", "cidr", "base64", "base64url", "jwt", "nanoid", "emoji",
    "includes", "normalize",
    "min", "max", "length", "gt", "gte", "lt", "lte",
    "int", "positive", "negative", "nonnegative", "nonpositive", "finite", "safe", "multipleOf", "step",
    "extend", "merge", "pick", "omit", "partial", "deepPartial", "required", "passthrough", "strict", "strip",
    "catchall", "keyof", "nonempty", "element", "extract", "exclude"
  }

  const HOT_PATH_METHODS: set<string> := {"parse", "safeParse", "parseAsync", "safeParseAsync"}

  // ---------------------------------------------------------------- schemas with wrappers inside

  /** A real schema as the call that built it: a factory call, or a method call on another real schema. */
  datatype Schema = Built(op: string, receiver: Option<Schema>, args: seq<Arg>)

  datatype Arg = Data(text: string) | Direct(schema: Schema) | Deferred(cell: LazyZodSchema)

  datatype Factory =
    | FactoryCall(name: string, args: seq<Arg>)
    | ChainCall(parent: LazyZodSchema, method_: string, args: seq<Arg>)

  /** A hot method bound to a real schema. */
  datatype Bound = Bound(schema: Schema, method_: string)

  /** What a schema-building expression evaluates to. */
  datatype Handle = Real(schema: Schema) | Wrapped(cell: LazyZodSchema)

  ghost function Max(a: nat, b: nat): nat {
    if a < b then b else a
  }

  ghost function RankArgs(args: seq<Arg>): nat
    decreases args
  {
    if args == [] then 0 else Max(RankArg(args[0]), RankArgs(args[1..]))
  }

  ghost function RankArg(a: Arg): nat
    decreases a
  {
    match a
    case Data(_) => 0
    case Direct(s) => Rank(s)
    case Deferred(c) => c.depth + 1
  }

  /** One more than the depth of any wrapper inside. */
  ghost function Rank(s: Schema): nat
    decreases s
  {
    Max(if s.receiver.Some? then Rank(s.receiver.value) else 0, RankArgs(s.args))
  }

  class LazyZodSchema {
    const factory: Factory
    /** Above the depth of every wrapper its factory refers to. */
    ghost const depth: nat
    var resolved: Option<Schema>
    /** Own properties put there by the hot path. */
    var patched: map<string, Bound>
    /** How often the factory has run. */
    ghost var runs: nat

    constructor (factory: Factory)
      ensures this.factory == factory && resolved == None && patched == map[] && runs == 0
      ensures depth == FactoryRank(factory)
    {
      this.factory := factory;
      depth := FactoryRank(factory);
      resolved := None;
      patched := map[];
      runs := 0;
    }

    method Materialize(ghost cells: set<LazyZodSchema>) returns (r: Schema)
      requires Consistent(cells) && this in cells
      modifies cells
      ensures Consistent(cells) && r == Product(this) && resolved == Some(r)
      ensures forall c :: c in cells ==> c.patched == old(c.patched)
      ensures forall c :: c in cells && (c.depth > depth || old(c.resolved).Some?)
                          ==> c.resolved == old(c.resolved) && c.runs == old(c.runs)
      decreases depth
    {
      if resolved.Some? {
        return resolved.value;
      }
      match factory {
        case FactoryCall(name, args) =>
          r := Built(name, None, args);
        case ChainCall(parent, m, args) =>
          var receiver := parent.Materialize(cells);
          r := Built(m, Some(receiver), args);
      }
      runs := runs + 1;
      resolved := Some(r);
    }

    /** `wrapper.parse(...)` and its three siblings: the first call binds and patches, later ones find the patch.
        `zod` is what the real method does. */
    method CallHot<Out>(key: string, args: seq<string>, zod: (Schema, string, seq<string>) -> Out,
                        ghost cells: set<LazyZodSchema>) returns (out: Out)
      requires Consistent(cells) && this in cells && key in HOT_PATH_METHODS
      modifies cells
      ensures Consistent(cells) && out == zod(Product(this), key, args)
      ensures key in patched && patched[key] == Bound(Product(this), key)
    {
      if key in patched {
        var own := patched[key];
        return zod(own.schema, own.method_, args);
      }
      var schema := Materialize(cells);
      patched := patched[key := Bound(schema, key)];
      out := zod(schema, key, args);
    }
  }

  ghost function FactoryRank(f: Factory): nat {
    match f
    case FactoryCall(_, args) => RankArgs(args)
    case ChainCall(parent, _, args) => Max(parent.depth + 1, RankArgs(args))
  }

  /** What a wrapper's factory returns, whenever it is run. */
  ghost function Product(c: LazyZodSchema): Schema
    decreases c.depth
  {
    match c.factory
    case FactoryCall(name, args) => Built(name, None, args)
    case ChainCall(parent, m, args) =>
      Built(m, if parent.depth < c.depth then Some(Product(parent)) else None, args)
  }

  /** A wrapper's memo and patches only ever hold what its factory returns, and the factory has run once if
      there is a memo and never otherwise. */
  ghost predicate CellOk(c: LazyZodSchema)
    reads c
  {
    && c.depth == FactoryRank(c.factory)
    && c.resolved in {None, Some(Product(c))}
    && c.runs == (if c.resolved.Some? then 1 else 0)
    && (forall k :: k in c.patched ==> c.patched[k] == Bound(Product(c), k))
  }

  function ArgsCells(args: seq<Arg>): set<LazyZodSchema>
    decreases args
  {
    if args == [] then {} else ArgCells(args[0]) + ArgsCells(args[1..])
  }

  function ArgCells(a: Arg): set<LazyZodSchema>
    decreases a
  {
    match a
    case Data(_) => {}
    case Direct(s) => SchemaCells(s)
    case Deferred(c) => {c}
  }

  function SchemaCells(s: Schema): set<LazyZodSchema>
    decreases s
  {
    (if s.receiver.Some? then SchemaCells(s.receiver.value) else {}) + ArgsCells(s.args)
  }

  function FactoryCells(f: Factory): set<LazyZodSchema> {
    match f
    case FactoryCall(_, args) => ArgsCells(args)
    case ChainCall(parent, _, args) => {parent} + ArgsCells(args)
  }

  ghost predicate Consistent(cells: set<LazyZodSchema>)
    reads cells
  {
    && (forall c :: c in cells ==> CellOk(c))
    && (forall c, d :: c in cells && d in FactoryCells(c.factory) ==> d in cells)
  }

  // ---------------------------------------------------------------- what a schema means once forced

  /** A schema with no wrapper left in it. */
  datatype Tree = Node(op: string, receiver: Option<Tree>, args: seq<TreeArg>)

  datatype TreeArg = Text(text: string) | Sub(tree: Tree)

  /** Every wrapper replaced by what it stands for. */
  ghost function Forced(s: Schema): Tree
    decreases Rank(s), s
  {
    Node(s.op, if s.receiver.Some? then Some(Forced(s.receiver.value)) else None, ForcedArgs(s.args))
  }

  ghost function ForcedArgs(args: seq<Arg>): seq<TreeArg>
    decreases RankArgs(args), args
  {
    if args == [] then [] else [ForcedArg(args[0])] + ForcedArgs(args[1..])
  }

  ghost function ForcedArg(a: Arg): TreeArg
    decreases RankArg(a), a
  {
    match a
    case Data(text) => Text(text)
    case Direct(s) => Sub(Forced(s))
    case Deferred(c) => if Rank(Product(c)) <= c.depth then Sub(Forced(Product(c))) else Text("")
  }

  ghost function Meaning(h: Handle): Tree {
    match h
    case Real(s) => Forced(s)
    case Wrapped(c) => Forced(Product(c))
  }

  /** A consistent wrapper's product refers only to wrappers below it. */
  lemma {:induction false} ProductRank(cells: set<LazyZodSchema>, c: LazyZodSchema)
    requires Consistent(cells) && c in cells
    ensures Rank(Product(c)) <= c.depth
    decreases c.depth
  {
    assert CellOk(c);
    match c.factory
    case FactoryCall(_, _) =>
    case ChainCall(parent, _, _) => ProductRank(cells, parent);
  }

  // ---------------------------------------------------------------- forcing

  lemma {:induction false} ProductCells(cells: set<LazyZodSchema>, c: LazyZodSchema)
    requires Consistent(cells) && c in cells
    ensures SchemaCells(Product(c)) <= cells
    decreases c.depth
  {
    assert CellOk(c);
    match c.factory
    case FactoryCall(_, _) =>
    case ChainCall(parent, _, _) => ProductCells(cells, parent);
  }

  method ForceSchema(s: Schema, ghost cells: set<LazyZodSchema>) returns (t: Tree)
    requires Consistent(cells) && SchemaCells(s) <= cells
    modifies cells
    ensures Consistent(cells) && t == Forced(s)
    decreases Rank(s), s
  {
    var receiver := None;
    if s.receiver.Some? {
      var r := ForceSchema(s.receiver.value, cells);
      receiver := Some(r);
    }
    var args := ForceArgs(s.args, cells);
    t := Node(s.op, receiver, args);
  }

  method ForceArgs(args: seq<Arg>, ghost cells: set<LazyZodSchema>) returns (ts: seq<TreeArg>)
    requires Consistent(cells) && ArgsCells(args) <= cells
    modifies cells
    ensures Consistent(cells) && ts == ForcedArgs(args)
    decreases RankArgs(args), args
  {
    if args == [] {
      return [];
    }
    var first := ForceArg(args[0], cells);
    var rest := ForceArgs(args[1..], cells);
    ts := [first] + rest;
  }

  method ForceArg(a: Arg, ghost cells: set<LazyZodSchema>) returns (t: TreeArg)
    requires Consistent(cells) && ArgCells(a) <= cells
    modifies cells
    ensures Consistent(cells) && t == ForcedArg(a)
    decreases RankArg(a), a
  {
    match a {
      case Data(text) => t := Text(text);
      case Direct(s) =>
        var tree := ForceSchema(s, cells);
        t := Sub(tree);
      case Deferred(c) =>
        ProductRank(cells, c);
        ProductCells(cells, c);
        var s := c.Materialize(cells);
        var tree := ForceSchema(s, cells);
        t := Sub(tree);
    }
  }

  // ---------------------------------------------------------------- expressions, eager and lazy

  /** A schema-building expression: `z.name(...)`, or `e.name(...)`. */
  datatype Expr = Call(name: string, args: seq<ExprArg>) | Method(receiver: Expr, name: string, args: seq<ExprArg>)

  datatype ExprArg = Literal(text: string) | Schematic(e: Expr)

  /** What the expression builds with the eager `z`. */
  function Eager(e: Expr): Tree
    decreases e
  {
    match e
    case Call(name, args) => Node(name, None, EagerArgs(args))
    case Method(receiver, name, args) => Node(name, Some(Eager(receiver)), EagerArgs(args))
  }

  function EagerArgs(args: seq<ExprArg>): seq<TreeArg>
    decreases args
  {
    if args == [] then [] else [EagerArg(args[0])] + EagerArgs(args[1..])
  }

  function EagerArg(a: ExprArg): TreeArg
    decreases a
  {
    match a
    case Literal(text) => Text(text)
    case Schematic(e) => Sub(Eager(e))
  }

  /** No method outside the chainable ones is called: nothing forces. */
  predicate Chainable(e: Expr)
    decreases e
  {
    match e
    case Call(_, args) => ChainableArgs(args)
    case Method(receiver, name, args) => name in CHAIN_METHODS && Chainable(receiver) && ChainableArgs(args)
  }

  predicate ChainableArgs(args: seq<ExprArg>)
    decreases args
  {
    args != [] ==> ChainableArg(args[0]) && ChainableArgs(args[1..])
  }

  predicate ChainableArg(a: ExprArg)
    decreases a
  {
    a.Schematic? ==> Chainable(a.e)
  }

  ghost predicate Untouched(cells: set<LazyZodSchema>)
    reads cells
  {
    forall c :: c in cells ==> c.runs == 0
  }

  function HandleArg(h: Handle): Arg {
    match h
    case Real(s) => Direct(s)
    case Wrapped(c) => Deferred(c)
  }

  function HandleCells(h: Handle): set<LazyZodSchema> {
    match h
    case Real(s) => SchemaCells(s)
    case Wrapped(c) => {c}
  }

  lemma ConsistentUnion(a: set<LazyZodSchema>, b: set<LazyZodSchema>)
    requires Consistent(a) && Consistent(b)
    ensures Consistent(a + b)
  {
  }

  /** A value passed on as an argument keeps its meaning. */
  lemma HandleArgMeaning(h: Handle, cells: set<LazyZodSchema>)
    requires Consistent(cells) && HandleCells(h) <= cells
    ensures ForcedArg(HandleArg(h)) == Sub(Meaning(h)) && ArgCells(HandleArg(h)) <= cells
  {
    if h.Wrapped? {
      ProductRank(cells, h.cell);
    }
  }

  /** `z.name(...)` through the lazy proxy. */
  method CallFactory(name: string, values: seq<Arg>, ghost cells: set<LazyZodSchema>)
    returns (h: Handle, ghost all: set<LazyZodSchema>)
    requires Consistent(cells) && ArgsCells(values) <= cells
    ensures cells <= all && fresh(all - cells) && Consistent(all) && HandleCells(h) <= all
    ensures h.Wrapped? <==> name in HEAVY_FACTORIES
    ensures Meaning(h) == Node(name, None, ForcedArgs(values))
    ensures Untouched(all - cells)
  {
    all := cells;
    if name in HEAVY_FACTORIES {
      var c := new LazyZodSchema(FactoryCall(name, values));
      all := all + {c};
      h := Wrapped(c);
    } else {
      h := Real(Built(name, None, values));
    }
  }

  /** `target.name(...)`: a chainable method on a wrapper makes another wrapper; any other method forces it. */
  method CallMethod(target: Handle, name: string, values: seq<Arg>, ghost cells: set<LazyZodSchema>)
    returns (h: Handle, ghost all: set<LazyZodSchema>)
    requires Consistent(cells) && HandleCells(target) <= cells && ArgsCells(values) <= cells
    modifies cells
    ensures cells <= all && fresh(all - cells) && Consistent(all) && HandleCells(h) <= all
    ensures h.Wrapped? <==> target.Wrapped? && name in CHAIN_METHODS
    ensures Meaning(h) == Node(name, Some(Meaning(target)), ForcedArgs(values))
    ensures name in CHAIN_METHODS && old(Untouched(cells)) ==> Untouched(all)
  {
    all := cells;
    if target.Real? {
      h := Real(Built(name, Some(target.schema), values));
    } else if name in CHAIN_METHODS {
      var c := new LazyZodSchema(ChainCall(target.cell, name, values));
      all := all + {c};
      h := Wrapped(c);
    } else {
      ProductCells(cells, target.cell);
      var s := target.cell.Materialize(cells);
      h := Real(Built(name, Some(s), values));
    }
  }

  /** Evaluates an expression with the lazy `z`. It means what the eager one builds, and no factory runs while
      only chainable methods are called. */
  method Build(e: Expr) returns (h: Handle, ghost cells: set<LazyZodSchema>)
    ensures fresh(cells) && Consistent(cells) && HandleCells(h) <= cells
    ensures Meaning(h) == Eager(e)
    ensures Chainable(e) ==> Untouched(cells)
    decreases e
  {
    if e.Call? {
      var values, argCells := BuildArgs(e.args);
      h, cells := CallFactory(e.name, values, argCells);
    } else {
      var target, targetCells := Build(e.receiver);
      var values, argCells := BuildArgs(e.args);
      ConsistentUnion(targetCells, argCells);
      h, cells := CallMethod(target, e.name, values, targetCells + argCells);
    }
  }

  method BuildArgs(args: seq<ExprArg>) returns (values: seq<Arg>, ghost cells: set<LazyZodSchema>)
    ensures fresh(cells) && Consistent(cells) && ArgsCells(values) <= cells
    ensures ForcedArgs(values) == EagerArgs(args)
    ensures ChainableArgs(args) ==> Untouched(cells)
    decreases args
  {
    if args == [] {
      return [], {};
    }
    var first, firstCells := BuildArg(args[0]);
    var rest, more := BuildArgs(args[1..]);
    ConsistentUnion(firstCells, more);
    values, cells := [first] + rest, firstCells + more;
    assert values[1..] == rest;
  }

  method BuildArg(a: ExprArg) returns (value: Arg, ghost cells: set<LazyZodSchema>)
    ensures fresh(cells) && Consistent(cells) && ArgCells(value) <= cells
    ensures ForcedArg(value) == EagerArg(a)
    ensures ChainableArg(a) ==> Untouched(cells)
    decreases a
  {
    if a.Literal? {
      return Data(a.text), {};
    }
    var h, built := Build(a.e);
    HandleArgMeaning(h, built);
    return HandleArg(h), built;
  }

  // ---------------------------------------------------------------- lazy is eager

  /** Whatever has been forced before: in every consistent state of the wrappers, forcing gives the one meaning. */
  method ForceHandle(h: Handle, ghost cells: set<LazyZodSchema>) returns (t: Tree)
    requires Consistent(cells) && HandleCells(h) <= cells
    modifies cells
    ensures Consistent(cells) && t == Meaning(h)
  {
    var s: Schema;
    if h.Real? {
      s := h.schema;
    } else {
      ProductCells(cells, h.cell);
      s := h.cell.Materialize(cells);
    }
    t := ForceSchema(s, cells);
  }

  /** For every expression, building lazily and forcing the result gives the schema that eager construction gives, with
      every factory run at most once. */
  method LazyEqualsEager(e: Expr) returns (t: Tree, ghost cells: set<LazyZodSchema>)
    ensures t == Eager(e)
    ensures Consistent(cells) && forall c :: c in cells ==> c.runs <= 1
  {
    var h;
    h, cells := Build(e);
    t := ForceHandle(h, cells);
  }
}
