/** The two passes of the OpenAPI adapter that take inputs out of a tool's schema, and its name check. */
module OpenApiInput {
  import opened Wrappers

  /** `required` is None when the schema has no such key; an absent `properties` counts as empty. */
  datatype Schema = Schema(properties: map<string, string>, required: Option<seq<string>>)

  datatype Mapper = Mapper(inputKey: string, scheme: Option<string>)

  /** An input injected at run time; `inject` stands for the function that makes its value. */
  datatype Transform = Transform(inputKey: string, inject: string)

  /** What the passes record in a tool's metadata, each key absent until it is written. */
  datatype Adapter = Adapter(
    inputTransforms: Option<seq<Transform>>,
    schemesInInput: Option<set<string>>,
    schemesFromContext: Option<set<string>>)

  datatype Tool = Tool(name: string, source: string, mappers: seq<Mapper>, inputSchema: Schema, adapter: Adapter)

  datatype Result<+T> = Ok(value: T) | ReservedKey(key: string) | NameCollision(name: string, sources: seq<string>)

  const RESERVED_KEYS := ["__proto__", "constructor", "prototype"]

  function Required(s: Schema): seq<string> {
    if s.required.Some? then s.required.value else []
  }

  function Without(required: seq<string>, keys: set<string>): seq<string> {
    if required == [] then []
    else (if required[0] in keys then [] else [required[0]]) + Without(required[1..], keys)
  }

  /** The rebuilt schema: an emptied `required` list is not written, so the spread keeps the old one. */
  function RemoveInputs(s: Schema, keys: set<string>): Schema {
    var newRequired := Without(Required(s), keys);
    Schema(s.properties - keys, if newRequired != [] then Some(newRequired) else s.required)
  }

  // ---------------------------------------------------------------- the passes

  /** The input stands for a security scheme that is resolved from the context. */
  predicate FromContext(m: Mapper, allowed: set<string>) {
    m.scheme.Some? && m.scheme.value != "" && m.scheme.value !in allowed
  }

  ghost function SecurityKeys(mappers: seq<Mapper>, allowed: set<string>): set<string> {
    set m | m in mappers && FromContext(m, allowed) :: m.inputKey
  }

  ghost function SecuritySchemes(mappers: seq<Mapper>, allowed: set<string>): set<string> {
    set m | m in mappers && FromContext(m, allowed) :: m.scheme.value
  }

  /** The keys the first pass takes out: none without an allow list. */
  ghost function FilteredKeys(tool: Tool, allowed: set<string>): set<string> {
    if allowed == {} then {} else SecurityKeys(tool.mappers, allowed)
  }

  lemma FilteredMeaning(tool: Tool, allowed: set<string>)
    ensures forall k :: k in FilteredKeys(tool, allowed)
                        <==> allowed != {} && exists m :: m in tool.mappers && m.inputKey == k && m.scheme.Some?
                                                          && m.scheme.value != "" && m.scheme.value !in allowed
    ensures forall s :: s in SecuritySchemes(tool.mappers, allowed)
                        <==> s != "" && s !in allowed && exists m :: m in tool.mappers && m.scheme == Some(s)
    ensures SecuritySchemes(tool.mappers, allowed) == {} <==> SecurityKeys(tool.mappers, allowed) == {}
  {
    forall s
      ensures s in SecuritySchemes(tool.mappers, allowed)
              <==> s != "" && s !in allowed && exists m :: m in tool.mappers && m.scheme == Some(s)
    {
      if m :| m in tool.mappers && m.scheme == Some(s) {
        assert FromContext(m, allowed) <==> s != "" && s !in allowed;
      }
    }
    if m :| m in tool.mappers && FromContext(m, allowed) {
      assert m.inputKey in SecurityKeys(tool.mappers, allowed);
      assert m.scheme.value in SecuritySchemes(tool.mappers, allowed);
    }
  }

  /** With an allow list, a property goes exactly when a mapper fills it from a scheme that is named and not allowed, and
      exactly those schemes are recorded as coming from the context; without such a scheme the tool stays as it is. */
  method FilterSecuritySchemes(tool: Tool, allowed: set<string>) returns (t: Tool)
    ensures forall k :: k in t.inputSchema.properties
                        <==> k in tool.inputSchema.properties
                             && (allowed == {} || !exists m :: m in tool.mappers && m.inputKey == k && m.scheme.Some?
                                                               && m.scheme.value != "" && m.scheme.value !in allowed)
    ensures if exists m :: m in tool.mappers && allowed != {} && m.scheme.Some? && m.scheme.value != ""
                           && m.scheme.value !in allowed then
              && t.adapter.schemesInInput == Some(allowed) && t.adapter.schemesFromContext.Some?
              && (forall s :: s in t.adapter.schemesFromContext.value
                              <==> s != "" && s !in allowed && exists m :: m in tool.mappers && m.scheme == Some(s))
            else t == tool
    ensures t == if FilteredKeys(tool, allowed) == {} then tool
                 else tool.(inputSchema := RemoveInputs(tool.inputSchema, FilteredKeys(tool, allowed)),
                            adapter := tool.adapter.(schemesInInput := Some(allowed),
                                                     schemesFromContext := Some(SecuritySchemes(tool.mappers, allowed))))
  {
    FilteredMeaning(tool, allowed);
    if allowed == {} {
      return tool;
    }
    var schemesToRemove: set<string>, inputKeysToRemove: set<string> := {}, {};
    for i := 0 to |tool.mappers|
      invariant schemesToRemove == SecuritySchemes(tool.mappers[..i], allowed)
      invariant inputKeysToRemove == SecurityKeys(tool.mappers[..i], allowed)
    {
      var mapper := tool.mappers[i];
      assert tool.mappers[..i + 1] == tool.mappers[..i] + [mapper];
      if FromContext(mapper, allowed) {
        schemesToRemove := schemesToRemove + {mapper.scheme.value};
        inputKeysToRemove := inputKeysToRemove + {mapper.inputKey};
      }
    }
    assert tool.mappers[..|tool.mappers|] == tool.mappers;
    assert inputKeysToRemove == FilteredKeys(tool, allowed);
    if m :| m in tool.mappers && FromContext(m, allowed) {
      assert m.inputKey in inputKeysToRemove;
    }
    if inputKeysToRemove == {} {
      return tool;
    }
    return tool.(inputSchema := RemoveInputs(tool.inputSchema, inputKeysToRemove),
                 adapter := tool.adapter.(schemesInInput := Some(allowed), schemesFromContext := Some(schemesToRemove)));
  }

  ghost function TransformedKeys(transforms: seq<Transform>): set<string> {
    set t | t in transforms :: t.inputKey
  }

  lemma ReservedAre()
    ensures forall k :: k in RESERVED_KEYS <==> k in {"__proto__", "constructor", "prototype"}
  {
    assert RESERVED_KEYS[0] == "__proto__" && RESERVED_KEYS[1] == "constructor" && RESERVED_KEYS[2] == "prototype";
  }

  method ApplyInputTransforms(tool: Tool, transforms: seq<Transform>) returns (r: Result<Tool>)
    ensures r.Ok? <==> forall t :: t in transforms ==> t.inputKey !in {"__proto__", "constructor", "prototype"}
    ensures r.Ok? ==> r.value == if transforms == [] then tool
                                 else tool.(inputSchema := RemoveInputs(tool.inputSchema, TransformedKeys(transforms)),
                                            adapter := tool.adapter.(inputTransforms := Some(transforms)))
    ensures !r.Ok? ==> r.ReservedKey? && r.key in TransformedKeys(transforms) && r.key in RESERVED_KEYS
  {
    if transforms == [] {
      return Ok(tool);
    }
    ReservedAre();
    for i := 0 to |transforms|
      invariant forall j :: 0 <= j < i ==> transforms[j].inputKey !in RESERVED_KEYS
    {
      if transforms[i].inputKey in RESERVED_KEYS {
        assert transforms[i] in transforms;
        return ReservedKey(transforms[i].inputKey);
      }
    }
    var transformed := set t | t in transforms :: t.inputKey;
    return Ok(tool.(inputSchema := RemoveInputs(tool.inputSchema, transformed),
                    adapter := tool.adapter.(inputTransforms := Some(transforms))));
  }

  /** A pass with no keys to remove hands the tool on as it is. */
  function Pass(s: Schema, keys: set<string>): Schema {
    if keys == {} then s else RemoveInputs(s, keys)
  }

  // ---------------------------------------------------------------- the composition

  /** Every required name is a property. */
  ghost predicate Within(s: Schema) {
    s.required.Some? ==> forall k :: k in s.required.value ==> k in s.properties
  }

  /** How often a name is required. */
  ghost function Times(s: Schema, k: string): nat {
    if s.required.Some? then multiset(s.required.value)[k] else 0
  }

  lemma {:induction false} WithoutCounts(required: seq<string>, keys: set<string>, k: string)
    ensures multiset(Without(required, keys))[k] == if k in keys then 0 else multiset(required)[k]
  {
    if required != [] {
      WithoutCounts(required[1..], keys, k);
      assert required == [required[0]] + required[1..];
    }
  }

  lemma {:induction false} NothingKeptIff(required: seq<string>, keys: set<string>)
    ensures Without(required, keys) == [] <==> forall q :: q in required ==> q in keys
  {
    if required != [] {
      NothingKeptIff(required[1..], keys);
      assert required == [required[0]] + required[1..];
    }
  }

  /** One pass removes exactly its keys. Of the required names it leaves those that survive, as often as they were there,
      or the whole old list when none does; and a schema without such a list gets none. */
  lemma PassEffect(s: Schema, keys: set<string>)
    ensures Pass(s, keys).properties == s.properties - keys
    ensures Pass(s, keys).required.Some? <==> s.required.Some?
    ensures if s.required.Some? && exists q :: q in s.required.value && q !in keys
            then forall k :: Times(Pass(s, keys), k) == if k in keys then 0 else Times(s, k)
            else Pass(s, keys).required == s.required
  {
    hide Without;
    NothingKeptIff(Required(s), keys);
    if s.required.Some? {
      forall k
        ensures multiset(Without(s.required.value, keys))[k] == if k in keys then 0 else multiset(s.required.value)[k]
      {
        WithoutCounts(s.required.value, keys, k);
      }
    }
  }

  lemma TimesMember(s: Schema, k: string)
    ensures Times(s, k) > 0 <==> s.required.Some? && k in s.required.value
  {
  }

  /** The names that a pass leaves required. */
  lemma PassMembers(s: Schema, keys: set<string>)
    ensures Pass(s, keys).required.Some? <==> s.required.Some?
    ensures s.required.Some? ==>
              forall k :: k in Pass(s, keys).required.value
                          <==> k in s.required.value && (k !in keys || forall q :: q in s.required.value ==> q in keys)
  {
    PassEffect(s, keys);
    hide Pass, Times;
    if s.required.Some? {
      forall k
        ensures k in Pass(s, keys).required.value
                <==> k in s.required.value && (k !in keys || forall q :: q in s.required.value ==> q in keys)
      {
        TimesMember(s, k);
        TimesMember(Pass(s, keys), k);
      }
    }
  }

  /** The two passes together remove exactly the union of their keys from the properties. Starting from a schema
      whose required names are all properties, it ends as one exactly when none was required or one survives both. */
  lemma PassesComposeIff(s: Schema, filtered: set<string>, transformed: set<string>)
    requires Within(s)
    ensures var end := Pass(Pass(s, filtered), transformed);
            && end.properties == s.properties - (filtered + transformed)
            && (Within(end) <==> s.required in {None, Some([])}
                                 || exists k :: k in s.required.value && k !in filtered + transformed)
  {
    var mid := Pass(s, filtered);
    var end := Pass(mid, transformed);
    PassEffect(s, filtered);
    PassEffect(mid, transformed);
    PassMembers(s, filtered);
    PassMembers(mid, transformed);
    hide Pass, Times;
    if s.required.Some? && s.required.value != [] {
      if k :| k in s.required.value && k !in filtered + transformed {
        assert k in mid.required.value;
        forall q | q in end.required.value
          ensures q in end.properties
        {
          assert q in mid.required.value && q !in transformed && q !in filtered;
        }
      } else {
        AllRemoved(s, filtered, transformed);
      }
    } else if s.required.Some? {
      assert forall k :: k !in mid.required.value;
    }
  }

  lemma AllRemoved(s: Schema, filtered: set<string>, transformed: set<string>)
    requires s.required.Some? && s.required.value != []
    requires forall k :: k in s.required.value ==> k in filtered + transformed
    ensures !Within(Pass(Pass(s, filtered), transformed))
  {
    var mid := Pass(s, filtered);
    var end := Pass(mid, transformed);
    PassEffect(s, filtered);
    PassEffect(mid, transformed);
    PassMembers(s, filtered);
    PassMembers(mid, transformed);
    hide Pass, Times;
    assert s.required.value[0] in s.required.value;
    var survivor :| survivor in s.required.value && survivor in mid.required.value;
    if q :| q in mid.required.value && q !in transformed {
      assert q in end.required.value && q !in end.properties;
    } else {
      assert survivor in end.required.value && survivor !in end.properties;
    }
  }

  // ---------------------------------------------------------------- name collisions

  /** The sources under a name, in order. */
  function Sources(tools: seq<Tool>, name: string): seq<string> {
    if tools == [] then []
    else Sources(tools[..|tools| - 1], name)
         + (if tools[|tools| - 1].name == name then [tools[|tools| - 1].source] else [])
  }

  lemma {:induction false} SourcesMembers(tools: seq<Tool>, name: string)
    ensures forall s :: s in Sources(tools, name) <==> exists t :: t in tools && t.name == name && t.source == s
  {
    if tools != [] {
      var n := |tools| - 1;
      SourcesMembers(tools[..n], name);
      assert tools == tools[..n] + [tools[n]];
      assert forall t :: t in tools <==> t in tools[..n] || t == tools[n];
    }
  }

  method CheckNames(tools: seq<Tool>) returns (r: Result<seq<Tool>>)
    ensures r.Ok? <==> forall i, j :: 0 <= i < j < |tools| ==> tools[i].name != tools[j].name
    ensures r.Ok? ==> r.value == tools
    ensures !r.Ok? ==> r.NameCollision? && |r.sources| > 1 && r.sources == Sources(tools, r.name)
    ensures !r.Ok? ==> forall s :: s in r.sources <==> exists t :: t in tools && t.name == r.name && t.source == s
  {
    var nameMap: map<string, seq<string>> := map[];
    for i := 0 to |tools|
      invariant forall name :: name in nameMap <==> Sources(tools[..i], name) != []
      invariant forall name :: name in nameMap ==> nameMap[name] == Sources(tools[..i], name)
    {
      var tool := tools[i];
      assert tools[..i + 1][..i] == tools[..i];
      if tool.name in nameMap {
        nameMap := nameMap[tool.name := nameMap[tool.name] + [tool.source]];
      } else {
        nameMap := nameMap[tool.name := [tool.source]];
      }
    }
    assert tools[..|tools|] == tools;
    var names := nameMap.Keys;
    while names != {}
      invariant names <= nameMap.Keys
      invariant forall name :: name in nameMap && name !in names ==> |nameMap[name]| <= 1
      decreases |names|
    {
      var name :| name in names;
      if |nameMap[name]| > 1 {
        DistinctIff(tools);
        SourcesMembers(tools, name);
        return NameCollision(name, nameMap[name]);
      }
      names := names - {name};
    }
    DistinctIff(tools);
    return Ok(tools);
  }

  lemma {:induction false} SourcesCount(tools: seq<Tool>, name: string)
    ensures Sources(tools, name) != [] <==> exists i :: 0 <= i < |tools| && tools[i].name == name
    ensures |Sources(tools, name)| > 1 <==>
              exists i, j :: 0 <= i < j < |tools| && tools[i].name == name && tools[j].name == name
  {
    if tools != [] {
      var n := |tools| - 1;
      var init := tools[..n];
      SourcesCount(init, name);
      if Sources(init, name) != [] {
        var i :| 0 <= i < |init| && init[i].name == name;
        assert tools[i].name == name;
      }
      if |Sources(init, name)| > 1 {
        var i, j :| 0 <= i < j < |init| && init[i].name == name && init[j].name == name;
        assert tools[i].name == name && tools[j].name == name;
      }
      if i :| 0 <= i < |tools| && tools[i].name == name {
        assert i < n ==> init[i].name == name;
      }
      if i, j :| 0 <= i < j < |tools| && tools[i].name == name && tools[j].name == name {
        assert init[i].name == name && (j < n ==> init[j].name == name);
      }
    }
  }

  lemma DistinctIff(tools: seq<Tool>)
    ensures (forall name :: |Sources(tools, name)| <= 1)
            <==> forall i, j :: 0 <= i < j < |tools| ==> tools[i].name != tools[j].name
  {
    forall name
      ensures |Sources(tools, name)| > 1 <==>
                exists i, j :: 0 <= i < j < |tools| && tools[i].name == name && tools[j].name == name
    {
      SourcesCount(tools, name);
    }
    if i, j :| 0 <= i < j < |tools| && tools[i].name == tools[j].name {
      assert |Sources(tools, tools[i].name)| > 1;
    }
  }
}
