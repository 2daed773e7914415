/** The cache plugin's two hooks around a tool call, and what callers get over whole runs. */
module CachePlugin {
  import opened Wrappers
  import opened JsText
  import opened CacheKey

  /** A tool result: nothing, a text, a plain object with its `_meta` entries, or any other JSON value. */
  datatype Output =
    | Nullish
    | Text(text: string)
    | Record(json: string, meta: map<string, string>)
    | Other(json: string)

  /** `JSON.stringify` and `JSON.parse`; None is an exception. */
  datatype Codec = Codec(stringify: Output -> string, parse: string -> Option<Output>)

  /** JSON values read back, and no text is its own JSON form, which has quotes around it. */
  ghost predicate Lawful(codec: Codec) {
    && (forall o: Output :: !o.Text? ==> codec.parse(codec.stringify(o)) == Some(o))
    && (forall t :: codec.parse(t) != Some(Text(t)))
  }

  /** `cacheable` is the outcome of the metadata flag and the tool patterns, `bypass` of the request header, and `slide`
      whether a hit renews the entry. */
  datatype Request = Request(fullName: string, input: Value, cacheable: bool, bypass: bool, slide: bool)

  /** The providers keep texts. */
  type Store = map<string, string>

  predicate UsesCache(r: Request) {
    !r.bypass && r.cacheable && !r.input.Undefined?
  }

  /** hashObject({ tool: fullName, input }) */
  function CallKey(fullName: string, input: Value): string {
    HashObject(Obj([("tool", Str(fullName)), ("input", input)]))
  }

  /** `setValue` keeps a text as it is. */
  function Kept(codec: Codec, o: Output): string {
    if o.Text? then o.text else codec.stringify(o)
  }

  /** `getValue` parses what it can. */
  function Revived(codec: Codec, kept: string): Output {
    var parsed := codec.parse(kept);
    if parsed.Some? then parsed.value else Text(kept)
  }

  function WithHit(o: Output): Output {
    if o.Record? then o.(meta := o.meta["cache" := "hit"]) else o
  }

  function ReadCache(codec: Codec, store: Store, r: Request, accepts: Output -> bool): (Store, Option<Output>) {
    var key := CallKey(r.fullName, r.input);
    if !UsesCache(r) || key !in store || Revived(codec, store[key]).Nullish? then (store, None)
    else
      var cached := Revived(codec, store[key]);
      var renewed := if r.slide then store[key := Kept(codec, cached)] else store;
      if !accepts(cached) then (renewed - {key}, None) else (renewed, Some(WithHit(cached)))
  }

  function WriteCache(codec: Codec, store: Store, r: Request, output: Output): Store {
    if UsesCache(r) then store[CallKey(r.fullName, r.input) := Kept(codec, output)] else store
  }

  class CachePlugin {
    const codec: Codec
    var store: Store

    constructor (codec: Codec)
      ensures this.codec == codec && store == map[]
    {
      this.codec := codec;
      store := map[];
    }

    method WillReadCache(r: Request, accepts: Output -> bool) returns (hit: Option<Output>)
      modifies this`store
      ensures (store, hit) == ReadCache(codec, old(store), r, accepts)
    {
      if !UsesCache(r) {
        return None;
      }
      var key := CallKey(r.fullName, r.input);
      if key !in store {
        return None;
      }
      var cached := Revived(codec, store[key]);
      if cached.Nullish? {
        return None;
      }
      if r.slide {
        store := store[key := Kept(codec, cached)];
      }
      if !accepts(cached) {
        store := store - {key};
        return None;
      }
      return Some(WithHit(cached));
    }

    method WillWriteCache(r: Request, output: Output)
      modifies this`store
      ensures store == WriteCache(codec, old(store), r, output)
    {
      if !UsesCache(r) {
        return;
      }
      var key := CallKey(r.fullName, r.input);
      store := store[key := Kept(codec, output)];
    }
  }

  // ---------------------------------------------------------------- what a store gives back

  /** A result that a store gives back as it was, or as nothing, which is a miss. */
  ghost predicate Survives(codec: Codec, o: Output) {
    Revived(codec, Kept(codec, o)) in {o, Nullish}
  }

  /** Every result does but a text that is itself the JSON form of something. */
  lemma SurvivesIff(codec: Codec, o: Output)
    requires Lawful(codec)
    ensures Survives(codec, o) <==> (o.Text? ==> codec.parse(o.text) in {None, Some(Nullish)})
  {
  }

  // ---------------------------------------------------------------- the key of a call

  lemma CallKeyOrder(name: string, input: Value)
    ensures var v := Obj([("tool", Str(name)), ("input", input)]);
            SortKeys(KeysOf(v.fields)) == ["input", "tool"]
  {
    var fields := [("tool", Str(name)), ("input", input)];
    assert fields[1..] == [("input", input)] && fields[1..][1..] == [];
    assert KeysOf(fields[1..]) == ["input"];
    assert KeysOf(fields) == ["tool"] + ["input"];
    assert ["tool", "input"][1..] == ["input"] && ["input"][1..] == [];
    assert SortKeys(["input"]) == ["input"];
    assert CodeUnits("tool")[0] == 't' as int && CodeUnits("input")[0] == 'i' as int;
    assert !UnitLe("tool", "input");
    assert InsertKey("tool", []) == ["tool"];
  }

  lemma CallKeyValues(name: string, input: Value)
    ensures var v := Obj([("tool", Str(name)), ("input", input)]);
            && HasKey(v, "tool") && Get(v, "tool") == Str(name)
            && HasKey(v, "input") && Get(v, "input") == input
  {
    var v := Obj([("tool", Str(name)), ("input", input)]);
    assert Entries(v) == v.fields;
    assert Entries(v)[0].0 == "tool" && Entries(v)[1].0 == "input";
    assert |"tool"| != |"input"| && v.fields[1..][0].0 == "input" && Position(v.fields[1..], "input") == 0;
    assert Position(v.fields, "input") == 1 && Position(v.fields, "tool") == 0;
  }

  lemma CallKeyText(name: string, input: Value)
    ensures CallKey(name, input) == "input:" + (ValueText(input) + [';'] + ("tool:" + name + ";"))
  {
    hide HasKey, Get, ValueText, SortKeys, KeysOf, Position;
    var v := Obj([("tool", Str(name)), ("input", input)]);
    CallKeyOrder(name, input);
    CallKeyValues(name, input);
    assert ["input", "tool"][1..] == ["tool"] && ["tool"][1..] == [];
    HashKeysStep(v, ["tool"], "");
    HashKeysStep(v, ["input", "tool"], "");
    EmptyHashKeys(v);
    LeafValueText(name);
    HashIsKeys(v);
    hide HashKeys, HashObject;
  }

  lemma LeafValueText(name: string)
    ensures ValueText(Str(name)) == name
  {
  }

  lemma HashIsKeys(v: Value)
    requires v.Obj? && forall k :: k in SortKeys(KeysOf(v.fields)) ==> HasKey(v, k)
    ensures HashObject(v) == HashKeys(v, SortKeys(KeysOf(v.fields)))
  {
  }

  /** Two calls with clean inputs share a key exactly when they name the same tool, whatever characters its name
      has, and their inputs have one form: they differ at most in key order, in the types of leaves and in the kinds of
      objects. */
  lemma CallKeyIff(n1: string, u: Value, n2: string, v: Value)
    requires Clean(u) && Clean(v) && WellFormed(u) && WellFormed(v)
    ensures CallKey(n1, u) == CallKey(n2, v) <==> n1 == n2 && FormOf(u) == FormOf(v)
  {
    CallKeyText(n1, u);
    CallKeyText(n2, v);
    var x, y := "tool:" + n1 + ";", "tool:" + n2 + ";";
    var s, t := ValueText(u) + [';'] + x, ValueText(v) + [';'] + y;
    hide ValueText, CallKey, FormOf, Clean, WellFormed;
    if CallKey(n1, u) == CallKey(n2, v) {
      assert ("input:" + s)[6..] == s && ("input:" + t)[6..] == t;
      DecodeValue(u, x, v, y);
      assert x[5..|x| - 1] == n1 && y[5..|y| - 1] == n2;
    }
    if n1 == n2 && FormOf(u) == FormOf(v) {
      OrderIndependent(u, v);
    }
  }

  // ---------------------------------------------------------------- whole runs

  /** Calls, and entries leaving the store by lifetime or capacity at any moment. */
  datatype Event = Call(request: Request) | Evict(key: string)

  type Tool = (string, Value) -> Output

  /** One intercepted call: the read hook, the tool unless there was a hit, the write hook. */
  function Serve(codec: Codec, tool: Tool, accepts: Output -> bool, store: Store, r: Request): (Store, Output) {
    var (store', hit) := ReadCache(codec, store, r, accepts);
    if hit.Some? then (store', hit.value)
    else
      var output := tool(r.fullName, r.input);
      (WriteCache(codec, store', r, output), output)
  }

  function Do(codec: Codec, tool: Tool, accepts: Output -> bool, store: Store, e: Event): Store {
    match e
    case Call(r) => Serve(codec, tool, accepts, store, r).0
    case Evict(key) => store - {key}
  }

  /** The tool depends on the meaning of its input only. */
  ghost predicate Deterministic(tool: Tool) {
    forall name, u, v :: WellFormed(u) && WellFormed(v) && MeaningOf(u) == MeaningOf(v) ==> tool(name, u) == tool(name, v)
  }

  /** A call is answered with the tool's own result, at most marked as a hit. */
  ghost predicate Transparent(codec: Codec, tool: Tool, accepts: Output -> bool, store: Store, e: Event) {
    e.Call? ==>
      var result := tool(e.request.fullName, e.request.input);
      Serve(codec, tool, accepts, store, e.request).1 in {result, WithHit(result)}
  }

  ghost predicate AllTransparent(codec: Codec, tool: Tool, accepts: Output -> bool, store: Store, events: seq<Event>)
    decreases |events|
  {
    events != [] ==>
      && Transparent(codec, tool, accepts, store, events[0])
      && AllTransparent(codec, tool, accepts, Do(codec, tool, accepts, store, events[0]), events[1..])
  }

  ghost predicate MadeOf(events: seq<Event>, rs: seq<Request>) {
    forall i :: 0 <= i < |events| && events[i].Call? ==> events[i].request in rs
  }

  ghost predicate AllSurvive(codec: Codec, tool: Tool, rs: seq<Request>) {
    forall r :: r in rs ==> Survives(codec, tool(r.fullName, r.input))
  }

  /** Caching is invisible in every run made of the requests, whichever deterministic tool answers them with results
      that survive a store. */
  ghost predicate AlwaysTransparent(codec: Codec, rs: seq<Request>) {
    forall tool, accepts, events ::
      Deterministic(tool) && AllSurvive(codec, tool, rs) && MadeOf(events, rs)
      ==> AllTransparent(codec, tool, accepts, map[], events)
  }

  ghost predicate AllWellFormed(rs: seq<Request>) {
    forall r :: r in rs ==> WellFormed(r.input)
  }

  /** Requests that go through the cache under one key ask for the same thing. */
  ghost predicate Separates(rs: seq<Request>) {
    forall q, r :: q in rs && r in rs && UsesCache(q) && UsesCache(r) ==> Agree(q, r)
  }

  ghost predicate Agree(q: Request, r: Request) {
    CallKey(q.fullName, q.input) == CallKey(r.fullName, r.input)
    ==> q.fullName == r.fullName && MeaningOf(q.input) == MeaningOf(r.input)
  }

  /** What is stored under a request's key comes back as what the tool returns for it, or as nothing. */
  ghost predicate Faithful(codec: Codec, tool: Tool, store: Store, rs: seq<Request>) {
    forall r :: r in rs && UsesCache(r) && CallKey(r.fullName, r.input) in store
      ==> Revived(codec, store[CallKey(r.fullName, r.input)]) in {tool(r.fullName, r.input), Nullish}
  }

  lemma WriteKeepsFaithful(codec: Codec, tool: Tool, store: Store, r: Request, rs: seq<Request>)
    requires Deterministic(tool) && AllSurvive(codec, tool, rs) && Faithful(codec, tool, store, rs)
    requires Separates(rs) && AllWellFormed(rs) && r in rs
    ensures Faithful(codec, tool, WriteCache(codec, store, r, tool(r.fullName, r.input)), rs)
  {
    hide CallKey, MeaningOf, WellFormed, Kept, Revived;
    if UsesCache(r) {
      var key := CallKey(r.fullName, r.input);
      assert Survives(codec, tool(r.fullName, r.input));
      var after := store[key := Kept(codec, tool(r.fullName, r.input))];
      forall q | q in rs && UsesCache(q) && CallKey(q.fullName, q.input) in after
        ensures Revived(codec, after[CallKey(q.fullName, q.input)]) in {tool(q.fullName, q.input), Nullish}
      {
        assert Agree(q, r);
      }
    }
  }

  lemma ReadKeepsFaithful(codec: Codec, tool: Tool, accepts: Output -> bool, store: Store, r: Request, rs: seq<Request>)
    requires Deterministic(tool) && AllSurvive(codec, tool, rs) && Faithful(codec, tool, store, rs)
    requires Separates(rs) && AllWellFormed(rs) && r in rs
    ensures var (after, hit) := ReadCache(codec, store, r, accepts);
            Faithful(codec, tool, after, rs) && (hit.Some? ==> hit.value == WithHit(tool(r.fullName, r.input)))
  {
    var key := CallKey(r.fullName, r.input);
    if UsesCache(r) && key in store && !Revived(codec, store[key]).Nullish? {
      WriteKeepsFaithful(codec, tool, store, r, rs);
    }
    hide CallKey, MeaningOf, WellFormed, Kept, Revived, Separates, Deterministic;
  }

  lemma EventIsTransparent(codec: Codec, tool: Tool, accepts: Output -> bool, store: Store, e: Event, rs: seq<Request>)
    requires Deterministic(tool) && AllSurvive(codec, tool, rs) && Faithful(codec, tool, store, rs)
    requires Separates(rs) && AllWellFormed(rs) && (e.Call? ==> e.request in rs)
    ensures Transparent(codec, tool, accepts, store, e)
    ensures Faithful(codec, tool, Do(codec, tool, accepts, store, e), rs)
  {
    if e.Call? {
      hide Faithful, Separates, Deterministic, AllWellFormed, AllSurvive, ReadCache, WriteCache;
      var r := e.request;
      ReadKeepsFaithful(codec, tool, accepts, store, r, rs);
      WriteKeepsFaithful(codec, tool, ReadCache(codec, store, r, accepts).0, r, rs);
    }
  }

  lemma {:induction false} SeparatedRun(codec: Codec, tool: Tool, accepts: Output -> bool, store: Store,
                                        events: seq<Event>, rs: seq<Request>)
    requires Deterministic(tool) && AllSurvive(codec, tool, rs) && Faithful(codec, tool, store, rs)
    requires Separates(rs) && AllWellFormed(rs) && MadeOf(events, rs)
    ensures AllTransparent(codec, tool, accepts, store, events)
    decreases |events|
  {
    hide Deterministic, AllSurvive, Faithful, Separates, AllWellFormed, Transparent, Do;
    if events != [] {
      EventIsTransparent(codec, tool, accepts, store, events[0], rs);
      SeparatedRun(codec, tool, accepts, Do(codec, tool, accepts, store, events[0]), events[1..], rs);
    }
  }

  predicate AcceptsAll(o: Output) {
    true
  }

  lemma TwoCalls(codec: Codec, tool: Tool, q: Request, r: Request)
    ensures AllTransparent(codec, tool, AcceptsAll, map[], [Call(q), Call(r)]) <==>
              && Transparent(codec, tool, AcceptsAll, map[], Call(q))
              && Transparent(codec, tool, AcceptsAll, Do(codec, tool, AcceptsAll, map[], Call(q)), Call(r))
  {
    hide Transparent, Do;
    var store := Do(codec, tool, AcceptsAll, map[], Call(q));
    assert [Call(q), Call(r)][1..] == [Call(r)] && [Call(r)][1..] == [];
    assert AllTransparent(codec, tool, AcceptsAll, store, [Call(r)])
           <==> Transparent(codec, tool, AcceptsAll, store, Call(r));
  }

  lemma FirstCall(codec: Codec, tool: Tool, q: Request)
    requires UsesCache(q)
    ensures Transparent(codec, tool, AcceptsAll, map[], Call(q))
    ensures Do(codec, tool, AcceptsAll, map[], Call(q))
            == map[CallKey(q.fullName, q.input) := Kept(codec, tool(q.fullName, q.input))]
  {
    hide CallKey, Kept, Revived;
  }

  /** The guard on results: a call that is simply repeated is answered alike if and only if its result survives. */
  lemma RepeatedCallIff(codec: Codec, tool: Tool, r: Request)
    requires Lawful(codec) && UsesCache(r)
    ensures AllTransparent(codec, tool, AcceptsAll, map[], [Call(r), Call(r)])
            <==> Survives(codec, tool(r.fullName, r.input))
  {
    hide CallKey, AllTransparent;
    TwoCalls(codec, tool, r, r);
    FirstCall(codec, tool, r);
  }

  /** The second of two calls, made to a tool that has changed in between: it is answered from the store, a record being
      marked as a hit, exactly when the plugin applies to the call, which is not bypassed, is cacheable and has an
      input; otherwise the tool is asked, and the store is never touched. */
  lemma SecondCallHitsIff(codec: Codec, before: Tool, after: Tool, r: Request)
    requires Lawful(codec) && Survives(codec, before(r.fullName, r.input))
    requires !Revived(codec, Kept(codec, before(r.fullName, r.input))).Nullish?
    ensures var first := before(r.fullName, r.input);
            var store := Serve(codec, before, AcceptsAll, map[], r).0;
            var (store', answer) := Serve(codec, after, AcceptsAll, store, r);
            if !r.bypass && r.cacheable && r.input != Undefined then
              && store.Keys == {CallKey(r.fullName, r.input)} && store' == store
              && answer == if first.Record? then Record(first.json, first.meta["cache" := "hit"]) else first
            else store == store' == map[] && answer == after(r.fullName, r.input)
  {
    hide CallKey;
  }

  /** An entry that the tool's schema rejects goes, and only that one; the tool then answers. */
  lemma RejectedEntryGoes(codec: Codec, store: Store, r: Request, accepts: Output -> bool)
    requires !r.bypass && r.cacheable && r.input != Undefined && CallKey(r.fullName, r.input) in store
    requires var cached := Revived(codec, store[CallKey(r.fullName, r.input)]); !cached.Nullish? && !accepts(cached)
    ensures ReadCache(codec, store, r, accepts) == (store - {CallKey(r.fullName, r.input)}, None)
  {
    hide CallKey;
    var key := CallKey(r.fullName, r.input);
    var cached := Revived(codec, store[key]);
    assert store[key := Kept(codec, cached)] - {key} == store - {key};
  }

  /** Answers one thing to a request and all that mean the same, another to every other request. */
  function TellsApart(q: Request): Tool {
    (name: string, input: Value) =>
      if name == q.fullName && MeaningOf(input) == MeaningOf(q.input) then Other("first") else Other("second")
  }

  /** The second of two callers gets the first one's result, where the tool has another for it. */
  ghost predicate Misled(codec: Codec, q: Request, r: Request) {
    var tool := TellsApart(q);
    var store := Do(codec, tool, AcceptsAll, map[], Call(q));
    && Deterministic(tool)
    && Serve(codec, tool, AcceptsAll, store, r).1 == tool(q.fullName, q.input)
    && tool(q.fullName, q.input) != tool(r.fullName, r.input)
  }

  /** Two requests under one key that ask for different things: a tool that tells them apart is answered wrongly, the
      second caller getting the first one's result. */
  lemma SharedKeyLeaks(codec: Codec, q: Request, r: Request)
    requires Lawful(codec) && UsesCache(q) && UsesCache(r) && !Agree(q, r)
    ensures var tool := TellsApart(q);
            && Misled(codec, q, r) && (forall rs :: AllSurvive(codec, tool, rs))
            && !AllTransparent(codec, tool, AcceptsAll, map[], [Call(q), Call(r)])
  {
    hide CallKey, MeaningOf, AllTransparent;
    var tool := TellsApart(q);
    TwoCalls(codec, tool, q, r);
    FirstCall(codec, tool, q);
    SurvivesIff(codec, Other("first"));
    SurvivesIff(codec, Other("second"));
  }

  /** Caching is invisible in every run made of given requests, for every deterministic tool whose results survive, and
      with entries evicted at will, if and only if requests that share a key ask for the same thing. */
  lemma TransparentIff(codec: Codec, rs: seq<Request>)
    requires Lawful(codec) && AllWellFormed(rs)
    ensures AlwaysTransparent(codec, rs) <==> Separates(rs)
  {
    hide AllTransparent, Agree, Deterministic, TellsApart, AllSurvive, AllWellFormed, Lawful;
    if Separates(rs) {
      forall tool, accepts, events | Deterministic(tool) && AllSurvive(codec, tool, rs) && MadeOf(events, rs)
        ensures AllTransparent(codec, tool, accepts, map[], events)
      {
        SeparatedRun(codec, tool, accepts, map[], events, rs);
      }
    } else {
      var q, r :| q in rs && r in rs && UsesCache(q) && UsesCache(r) && !Agree(q, r);
      SharedKeyLeaks(codec, q, r);
      assert MadeOf([Call(q), Call(r)], rs);
    }
  }

  /** No tool is called with two inputs of one form that are not alike: that differ in the types of leaves, in an array
      against an object with its indices for keys, or in what an object without keys holds. */
  ghost predicate TypesAgree(rs: seq<Request>) {
    forall q, r :: q in rs && r in rs && UsesCache(q) && UsesCache(r) ==> SameTypes(q, r)
  }

  ghost predicate SameTypes(q: Request, r: Request) {
    q.fullName == r.fullName && FormOf(q.input) == FormOf(r.input) ==> Alike(q.input, r.input)
  }

  ghost predicate AllClean(rs: seq<Request>) {
    forall r :: r in rs ==> Clean(r.input)
  }

  lemma AgreeIsSameTypes(q: Request, r: Request)
    requires Clean(q.input) && Clean(r.input) && WellFormed(q.input) && WellFormed(r.input)
    ensures Agree(q, r) <==> SameTypes(q, r)
  {
    CallKeyIff(q.fullName, q.input, r.fullName, r.input);
    MeaningIff(q.input, r.input);
    hide CallKey, MeaningOf, FormOf, Alike;
  }

  lemma SeparatesIsTypesAgree(rs: seq<Request>)
    requires AllWellFormed(rs) && AllClean(rs)
    ensures Separates(rs) <==> TypesAgree(rs)
  {
    hide Agree, SameTypes, WellFormed, Clean;
    forall q, r | q in rs && r in rs
      ensures Agree(q, r) <==> SameTypes(q, r)
    {
      AgreeIsSameTypes(q, r);
    }
  }

  /** On clean inputs, with leaves of any type and objects of any kind, caching is invisible if and only if no tool is
      called with two inputs of one form that are not alike. */
  lemma CachingIsTransparentIff(codec: Codec, rs: seq<Request>)
    requires Lawful(codec) && AllWellFormed(rs) && AllClean(rs)
    ensures AlwaysTransparent(codec, rs) <==> TypesAgree(rs)
  {
    hide AlwaysTransparent, Separates, TypesAgree, Lawful;
    TransparentIff(codec, rs);
    SeparatesIsTypesAgree(rs);
  }

  /** So on clean inputs made of strings and plain objects alone it always is. */
  lemma StringCallsAreTransparent(codec: Codec, rs: seq<Request>)
    requires Lawful(codec) && AllWellFormed(rs) && AllClean(rs) && forall r :: r in rs ==> PlainStrings(r.input)
    ensures AlwaysTransparent(codec, rs)
  {
    hide AlwaysTransparent, Lawful, AllWellFormed, AllClean, PlainStrings, FormOf, MeaningOf, Alike;
    CachingIsTransparentIff(codec, rs);
    forall q, r | q in rs && r in rs && FormOf(q.input) == FormOf(r.input)
      ensures Alike(q.input, r.input)
    {
      StringFormIsMeaning(q.input, r.input);
      MeaningIff(q.input, r.input);
    }
  }

  lemma KeysShow(v: Value, k: string)
    requires IsObject(v)
    ensures MeaningOf(v).Object? && (k in MeaningOf(v).fields <==> HasKey(v, k))
  {
    FormKeys(v);
  }

  function Asked(input: Value): Request {
    Request("t", input, true, false, false)
  }

  /** Two inputs of one text that mean different things: one caller gets the answer to the other's call. */
  lemma SameTextShares(codec: Codec, q: Value, r: Value)
    requires Lawful(codec) && IsObject(q) && IsObject(r) && HashObject(q) == HashObject(r) && MeaningOf(q) != MeaningOf(r)
    ensures Misled(codec, Asked(q), Asked(r))
  {
    hide HashObject, MeaningOf, Deterministic, AllTransparent, Serve, Do, TellsApart, CallKey, AllSurvive;
    SameText("t", q, r);
    SharedKeyLeaks(codec, Asked(q), Asked(r));
  }

  /** So it is with a separator in the input. */
  lemma UncleanInputsShareAnswers(codec: Codec)
    requires Lawful(codec)
    ensures var q, r := Obj([("a", Str("1;b:2"))]), Obj([("a", Str("1")), ("b", Str("2"))]);
            Misled(codec, Asked(q), Asked(r))
  {
    var q, r := Obj([("a", Str("1;b:2"))]), Obj([("a", Str("1")), ("b", Str("2"))]);
    hide HashObject, MeaningOf, Deterministic, Serve, Do, TellsApart, HasKey;
    KeysCollideOutside();
    KeysShow(q, "b");
    KeysShow(r, "b");
    OnlyOneHasB();
    SameTextShares(codec, q, r);
  }

  /** And with any array against the object with its indices for keys, or two dates. */
  lemma KindsShareAnswers(codec: Codec, q: Value, r: Value)
    requires Lawful(codec) && IsObject(q) && IsObject(r) && Entries(q) == Entries(r) && q != r
    ensures Misled(codec, Asked(q), Asked(r))
  {
    hide HashObject, MeaningOf, FormOf, Deterministic, Serve, Do, TellsApart;
    KindsCollide(q, r);
    SameTextShares(codec, q, r);
  }

  lemma OnlyOneHasB()
    ensures !HasKey(Obj([("a", Str("1;b:2"))]), "b") && HasKey(Obj([("a", Str("1")), ("b", Str("2"))]), "b")
  {
    var v := Obj([("a", Str("1")), ("b", Str("2"))]);
    assert Entries(v)[1].0 == "b";
  }

  lemma SameText(name: string, u: Value, v: Value)
    requires IsObject(u) && IsObject(v) && HashObject(u) == HashObject(v)
    ensures CallKey(name, u) == CallKey(name, v)
  {
    CallKeyText(name, u);
    CallKeyText(name, v);
    hide HashObject;
  }
}
