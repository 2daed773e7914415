/** The cache key of the cache plugin: a text form of a call's input, with keys sorted at every level. */
module CacheKey {
  import opened Wrappers
  import opened JsText

  /** A JavaScript value. An object's properties are in insertion order; `Keyless` is an object without enumerable
      properties of its own, such as a date, a map or a set, and `content` is what it holds. */
  datatype Value =
    | Str(text: string)
    | Num(n: int)
    | Bool(b: bool)
    | Null
    | Undefined
    | Obj(fields: seq<(string, Value)>)
    | Arr(items: seq<Value>)
    | Keyless(content: string)

  /** `typeof value === 'object' && value !== null` */
  predicate IsObject(v: Value) {
    v.Obj? || v.Arr? || v.Keyless?
  }

  /** `String(value)` of a value that is not an object. */
  function LeafText(v: Value): string
    requires !IsObject(v)
  {
    if v.Str? then v.text
    else if v.Num? then IntText(v.n)
    else if v.Bool? then if v.b then "true" else "false"
    else if v.Null? then "null"
    else "undefined"
  }

  /** The enumerable properties of an object: those of an array are its items, under their indices. */
  function Entries(v: Value): (entries: seq<(string, Value)>)
    requires IsObject(v)
    ensures forall i :: 0 <= i < |entries| ==> entries[i].1 < v
  {
    if v.Obj? then v.fields
    else if v.Arr? then seq(|v.items|, i requires 0 <= i < |v.items| => (IntText(i), v.items[i]))
    else []
  }

  function KeysOf(fields: seq<(string, Value)>): seq<string> {
    if fields == [] then [] else [fields[0].0] + KeysOf(fields[1..])
  }

  function InsertKey(k: string, sorted: seq<string>): seq<string> {
    if sorted == [] || UnitLe(k, sorted[0]) then [k] + sorted else [sorted[0]] + InsertKey(k, sorted[1..])
  }

  /** `Object.keys(obj).sort()` */
  function SortKeys(keys: seq<string>): seq<string> {
    if keys == [] then [] else InsertKey(keys[0], SortKeys(keys[1..]))
  }

  predicate HasKey(v: Value, k: string)
    requires IsObject(v)
  {
    exists i :: 0 <= i < |Entries(v)| && Entries(v)[i].0 == k
  }

  function Position(fields: seq<(string, Value)>, k: string): (i: nat)
    requires exists i :: 0 <= i < |fields| && fields[i].0 == k
    ensures i < |fields| && fields[i].0 == k
  {
    if fields[0].0 == k then 0
    else
      assert forall i :: 1 <= i < |fields| ==> fields[i] == fields[1..][i - 1];
      1 + Position(fields[1..], k)
  }

  /** `obj[key]` */
  function Get(v: Value, k: string): (u: Value)
    requires IsObject(v) && HasKey(v, k)
    ensures u < v
  {
    Entries(v)[Position(Entries(v), k)].1
  }

  function ValueText(v: Value): string
    decreases v, 0, 1
  {
    if IsObject(v) then HashObject(v) else LeafText(v)
  }

  /** `hashObject` */
  function HashObject(v: Value): string
    requires IsObject(v)
    decreases v, 0, 0
  {
    KeysOfMembers(Entries(v));
    SortKeysMembers(KeysOf(Entries(v)));
    HashKeys(v, SortKeys(KeysOf(Entries(v))))
  }

  function HashKeys(v: Value, keys: seq<string>): string
    requires IsObject(v) && forall k :: k in keys ==> HasKey(v, k)
    decreases v, 0, 0, |keys|
  {
    if keys == [] then ""
    else keys[0] + ":" + ValueText(Get(v, keys[0])) + ";" + HashKeys(v, keys[1..])
  }

  lemma {:induction false} KeysOfMembers(fields: seq<(string, Value)>)
    ensures forall k :: k in KeysOf(fields) <==> exists i :: 0 <= i < |fields| && fields[i].0 == k
  {
    if fields != [] {
      KeysOfMembers(fields[1..]);
      forall k
        ensures k in KeysOf(fields) <==> exists i :: 0 <= i < |fields| && fields[i].0 == k
      {
        if k in KeysOf(fields[1..]) {
          var i :| 0 <= i < |fields[1..]| && fields[1..][i].0 == k;
          assert fields[i + 1].0 == k;
        }
        if i :| 0 <= i < |fields| && fields[i].0 == k {
          assert i == 0 || fields[1..][i - 1].0 == k;
        }
      }
    }
  }

  lemma {:induction false} InsertKeyMembers(k: string, sorted: seq<string>)
    ensures forall x :: x in InsertKey(k, sorted) <==> x == k || x in sorted
  {
    if sorted != [] && !UnitLe(k, sorted[0]) {
      InsertKeyMembers(k, sorted[1..]);
      assert sorted == [sorted[0]] + sorted[1..];
    }
  }

  lemma {:induction false} SortKeysMembers(keys: seq<string>)
    ensures forall x :: x in SortKeys(keys) <==> x in keys
  {
    if keys != [] {
      SortKeysMembers(keys[1..]);
      InsertKeyMembers(keys[0], SortKeys(keys[1..]));
      assert keys == [keys[0]] + keys[1..];
    }
  }

  // ---------------------------------------------------------------- what a value means, and what the key keeps of it

  /** What the key does not show of an object: whether it is a plain object, an array, or one whose content is not in
      enumerable properties. */
  datatype Kind = PlainObject | Array | Hidden(content: string)

  function KindOf(v: Value): Kind
    requires IsObject(v)
  {
    if v.Obj? then PlainObject else if v.Arr? then Array else Hidden(v.content)
  }

  /** A value without its key order. */
  datatype Meaning = Leaf(v: Value) | Object(kind: Kind, fields: map<string, Meaning>)

  function MeaningOf(v: Value): Meaning {
    if IsObject(v) then
      KeysOfMembers(Entries(v));
      Object(KindOf(v), map k | k in KeysOf(Entries(v)) :: MeaningOf(Get(v, k)))
    else Leaf(v)
  }

  /** A value without its key order, without the types of its leaves, of which only the text is left, and without the
      kinds of its objects. */
  datatype Form = Atom(text: string) | Fields(fields: map<string, Form>)

  function FormOf(v: Value): Form {
    if IsObject(v) then
      KeysOfMembers(Entries(v));
      Fields(map k | k in KeysOf(Entries(v)) :: FormOf(Get(v, k)))
    else Atom(LeafText(v))
  }

  lemma FormOfGet(v: Value, k: string)
    requires IsObject(v) && HasKey(v, k)
    ensures k in FormOf(v).fields && FormOf(v).fields[k] == FormOf(Get(v, k))
    ensures k in MeaningOf(v).fields && MeaningOf(v).fields[k] == MeaningOf(Get(v, k))
  {
    KeysOfMembers(Entries(v));
  }

  lemma FormKeys(v: Value)
    requires IsObject(v)
    ensures FormOf(v).Fields? && MeaningOf(v).Object? && MeaningOf(v).kind == KindOf(v)
    ensures forall k :: k in FormOf(v).fields <==> HasKey(v, k)
    ensures forall k :: k in MeaningOf(v).fields <==> HasKey(v, k)
  {
    KeysOfMembers(Entries(v));
  }

  /** The same type at every leaf, and the same kind at every object, of two values with the same keys. */
  ghost predicate Alike(u: Value, v: Value)
    decreases u
  {
    if IsObject(u) && IsObject(v) then
      && KindOf(u) == KindOf(v)
      && (forall k :: HasKey(u, k) && HasKey(v, k) ==> Alike(Get(u, k), Get(v, k)))
    else
      || (u.Str? && v.Str?) || (u.Num? && v.Num?) || (u.Bool? && v.Bool?)
      || (u.Null? && v.Null?) || (u.Undefined? && v.Undefined?)
  }

  lemma LeavesMeanTheSameIff(u: Value, v: Value)
    requires !IsObject(u) && !IsObject(v) && LeafText(u) == LeafText(v)
    ensures u == v <==> Alike(u, v)
  {
    if u.Num? && v.Num? {
      ParseIntOfText(u.n);
      ParseIntOfText(v.n);
    }
  }

  /** Values of one form mean the same exactly when they are alike; values that mean the same have one form. */
  lemma {:induction false} MeaningIff(u: Value, v: Value)
    ensures MeaningOf(u) == MeaningOf(v) <==> FormOf(u) == FormOf(v) && Alike(u, v)
    decreases u
  {
    if IsObject(u) && IsObject(v) {
      ObjectMeaningIff(u, v);
    } else if !IsObject(u) && !IsObject(v) {
      if LeafText(u) == LeafText(v) {
        LeavesMeanTheSameIff(u, v);
      }
    }
  }

  ghost predicate SameKeys(u: Value, v: Value)
    requires IsObject(u) && IsObject(v)
  {
    forall k :: HasKey(u, k) <==> HasKey(v, k)
  }

  lemma MapsEqualIff<T>(m: map<string, T>, n: map<string, T>)
    ensures m == n <==> (forall k :: k in m <==> k in n) && (forall k :: k in m && k in n ==> m[k] == n[k])
  {
    if (forall k :: k in m <==> k in n) && (forall k :: k in m && k in n ==> m[k] == n[k]) {
      assert m.Keys == n.Keys;
    }
  }

  lemma KeysAreSame(u: Value, v: Value)
    requires IsObject(u) && IsObject(v)
    ensures SameKeys(u, v) <==> forall k :: HasKey(u, k) <==> HasKey(v, k)
  {
    hide HasKey;
  }

  lemma MeaningFieldsIff(u: Value, v: Value)
    requires IsObject(u) && IsObject(v)
    ensures MeaningOf(u).fields == MeaningOf(v).fields <==>
              && SameKeys(u, v)
              && (forall k :: HasKey(u, k) && HasKey(v, k) ==> MeaningOf(Get(u, k)) == MeaningOf(Get(v, k)))
  {
    hide *;
    FormKeys(u);
    FormKeys(v);
    forall k | HasKey(u, k) && HasKey(v, k)
      ensures k in MeaningOf(u).fields && MeaningOf(u).fields[k] == MeaningOf(Get(u, k))
      ensures k in MeaningOf(v).fields && MeaningOf(v).fields[k] == MeaningOf(Get(v, k))
    {
      FormOfGet(u, k);
      FormOfGet(v, k);
    }
    KeysAreSame(u, v);
    MapsEqualIff(MeaningOf(u).fields, MeaningOf(v).fields);
  }

  lemma FormFieldsIff(u: Value, v: Value)
    requires IsObject(u) && IsObject(v)
    ensures FormOf(u).fields == FormOf(v).fields <==>
              && SameKeys(u, v)
              && (forall k :: HasKey(u, k) && HasKey(v, k) ==> FormOf(Get(u, k)) == FormOf(Get(v, k)))
  {
    hide *;
    FormKeys(u);
    FormKeys(v);
    forall k | HasKey(u, k) && HasKey(v, k)
      ensures k in FormOf(u).fields && FormOf(u).fields[k] == FormOf(Get(u, k))
      ensures k in FormOf(v).fields && FormOf(v).fields[k] == FormOf(Get(v, k))
    {
      FormOfGet(u, k);
      FormOfGet(v, k);
    }
    KeysAreSame(u, v);
    MapsEqualIff(FormOf(u).fields, FormOf(v).fields);
  }

  lemma ObjectsMeanTheSameIff(u: Value, v: Value)
    requires IsObject(u) && IsObject(v)
    ensures MeaningOf(u) == MeaningOf(v) <==>
              && KindOf(u) == KindOf(v) && SameKeys(u, v)
              && (forall k :: HasKey(u, k) && HasKey(v, k) ==> MeaningOf(Get(u, k)) == MeaningOf(Get(v, k)))
  {
    FormKeys(u);
    FormKeys(v);
    MeaningFieldsIff(u, v);
    hide FormOf, MeaningOf, HasKey, Get, Entries, KindOf, SameKeys;
  }

  lemma ObjectsHaveOneFormIff(u: Value, v: Value)
    requires IsObject(u) && IsObject(v)
    ensures FormOf(u) == FormOf(v) <==>
              && SameKeys(u, v)
              && (forall k :: HasKey(u, k) && HasKey(v, k) ==> FormOf(Get(u, k)) == FormOf(Get(v, k)))
  {
    FormKeys(u);
    FormKeys(v);
    FormFieldsIff(u, v);
    hide FormOf, MeaningOf, HasKey, Get, Entries, KindOf, SameKeys;
  }

  lemma {:induction false} ObjectMeaningIff(u: Value, v: Value)
    requires IsObject(u) && IsObject(v)
    ensures MeaningOf(u) == MeaningOf(v) <==> FormOf(u) == FormOf(v) && Alike(u, v)
    decreases u, 0
  {
    AlikeObjects(u, v);
    hide FormOf, MeaningOf, HasKey, Get, Alike, Entries, KindOf, SameKeys;
    ObjectsMeanTheSameIff(u, v);
    ObjectsHaveOneFormIff(u, v);
    forall k | HasKey(u, k) && HasKey(v, k)
      ensures MeaningOf(Get(u, k)) == MeaningOf(Get(v, k))
              <==> FormOf(Get(u, k)) == FormOf(Get(v, k)) && Alike(Get(u, k), Get(v, k))
    {
      MeaningIff(Get(u, k), Get(v, k));
    }
  }

  lemma AlikeObjects(u: Value, v: Value)
    requires IsObject(u) && IsObject(v)
    ensures Alike(u, v) <==>
              && KindOf(u) == KindOf(v)
              && (forall k :: HasKey(u, k) && HasKey(v, k) ==> Alike(Get(u, k), Get(v, k)))
  {
    hide Get, HasKey, Entries, KindOf;
  }

  /** An object's keys are distinct, as they are in JavaScript; those of an array are its indices. */
  ghost predicate WellFormed(v: Value) {
    && (v.Obj? ==> forall i, j :: 0 <= i < j < |v.fields| ==> v.fields[i].0 != v.fields[j].0)
    && (IsObject(v) ==> forall i :: 0 <= i < |Entries(v)| ==> WellFormed(Entries(v)[i].1))
  }

  lemma KeysAreDistinct(v: Value)
    requires IsObject(v) && WellFormed(v)
    ensures forall i, j :: 0 <= i < j < |Entries(v)| ==> Entries(v)[i].0 != Entries(v)[j].0
  {
    if v.Arr? {
      forall i, j | 0 <= i < j < |Entries(v)|
        ensures Entries(v)[i].0 != Entries(v)[j].0
      {
        ParseIntOfText(i);
        ParseIntOfText(j);
      }
    }
  }

  lemma ArrayKeys(a: seq<Value>, k: string)
    ensures HasKey(Arr(a), k) <==> exists i :: 0 <= i < |a| && IntText(i) == k
  {
    hide IntText;
    var entries := Entries(Arr(a));
    assert forall i :: 0 <= i < |a| ==> entries[i].0 == IntText(i);
  }

  lemma ArrayGet(a: seq<Value>, i: nat)
    requires i < |a|
    ensures HasKey(Arr(a), IntText(i)) && Get(Arr(a), IntText(i)) == a[i]
  {
    var entries := Entries(Arr(a));
    assert entries[i].0 == IntText(i);
    ParseIntOfText(i);
    ParseIntOfText(Position(entries, IntText(i)));
    hide IntText;
  }

  /** The items of an array are what it means. */
  lemma ArrayMeaningIff(a: seq<Value>, b: seq<Value>)
    ensures MeaningOf(Arr(a)) == MeaningOf(Arr(b))
            <==> |a| == |b| && forall i :: 0 <= i < |a| ==> MeaningOf(a[i]) == MeaningOf(b[i])
  {
    hide MeaningOf, FormOf, IntText, Entries, Get, HasKey;
    ObjectsMeanTheSameIff(Arr(a), Arr(b));
    if |a| == |b| {
      forall k
        ensures HasKey(Arr(a), k) <==> HasKey(Arr(b), k)
      {
        ArrayKeys(a, k);
        ArrayKeys(b, k);
      }
      forall i | 0 <= i < |a|
        ensures HasKey(Arr(a), IntText(i)) && HasKey(Arr(b), IntText(i))
        ensures Get(Arr(a), IntText(i)) == a[i] && Get(Arr(b), IntText(i)) == b[i]
      {
        ArrayGet(a, i);
        ArrayGet(b, i);
      }
      forall k | HasKey(Arr(a), k)
        ensures exists i :: 0 <= i < |a| && IntText(i) == k
      {
        ArrayKeys(a, k);
      }
    } else {
      DifferentLengths(a, b);
    }
  }

  lemma DifferentLengths(a: seq<Value>, b: seq<Value>)
    requires |a| != |b|
    ensures !SameKeys(Arr(a), Arr(b))
  {
    var i := if |a| < |b| then |a| else |b|;
    ArrayKeys(a, IntText(i));
    ArrayKeys(b, IntText(i));
    forall j | 0 <= j < |a| || 0 <= j < |b|
      ensures IntText(j) == IntText(i) ==> j == i
    {
      ParseIntOfText(i);
      ParseIntOfText(j);
    }
    hide IntText, HasKey;
    assert HasKey(Arr(a), IntText(i)) != HasKey(Arr(b), IntText(i));
  }

  // ---------------------------------------------------------------- sorted keys are canonical

  ghost predicate StrictlySorted(keys: seq<string>) {
    forall i, j :: 0 <= i < j < |keys| ==> UnitLe(keys[i], keys[j]) && keys[i] != keys[j]
  }

  lemma {:induction false} InsertKeySorted(k: string, sorted: seq<string>)
    requires StrictlySorted(sorted) && k !in sorted
    ensures StrictlySorted(InsertKey(k, sorted))
  {
    hide LexLe, CodeUnits;
    if sorted == [] {
    } else if UnitLe(k, sorted[0]) {
      forall j | 0 <= j < |sorted|
        ensures UnitLe(k, sorted[j])
      {
        if j > 0 {
          LexLeTransitive(CodeUnits(k), CodeUnits(sorted[0]), CodeUnits(sorted[j]));
        }
      }
    } else {
      LexLeTotal(CodeUnits(k), CodeUnits(sorted[0]));
      var rest := InsertKey(k, sorted[1..]);
      InsertKeySorted(k, sorted[1..]);
      InsertKeyMembers(k, sorted[1..]);
      forall j | 0 <= j < |rest|
        ensures UnitLe(sorted[0], rest[j]) && sorted[0] != rest[j]
      {
        assert rest[j] in rest;
      }
    }
  }

  lemma {:induction false} SortKeysSorted(fields: seq<(string, Value)>)
    requires forall i, j :: 0 <= i < j < |fields| ==> fields[i].0 != fields[j].0
    ensures StrictlySorted(SortKeys(KeysOf(fields)))
  {
    if fields != [] {
      SortKeysSorted(fields[1..]);
      KeysOfMembers(fields[1..]);
      SortKeysMembers(KeysOf(fields[1..]));
      InsertKeySorted(fields[0].0, SortKeys(KeysOf(fields[1..])));
    }
  }

  lemma {:induction false} SortedUnique(a: seq<string>, b: seq<string>)
    requires StrictlySorted(a) && StrictlySorted(b) && forall k :: k in a <==> k in b
    ensures a == b
  {
    hide LexLe, CodeUnits;
    assert (a != [] ==> a[0] in a) && (b != [] ==> b[0] in b);
    if a == [] {
      assert b == [];
    } else {
      assert a[0] in b && b != [];
      assert b[0] in a;
      var i :| 0 <= i < |b| && b[i] == a[0];
      var j :| 0 <= j < |a| && a[j] == b[0];
      if i != 0 {
        assert j != 0 && UnitLe(b[0], b[i]) && UnitLe(a[0], a[j]);
        LexLeAntisymmetric(CodeUnits(a[0]), CodeUnits(b[0]));
        CodeUnitsInjective(a[0], b[0]);
      }
      forall k
        ensures k in a[1..] <==> k in b[1..]
      {
        assert k in a[1..] <==> k in a && k != a[0];
        assert k in b[1..] <==> k in b && k != b[0];
      }
      SortedUnique(a[1..], b[1..]);
      assert a == [a[0]] + a[1..] && b == [b[0]] + b[1..];
    }
  }

  // ---------------------------------------------------------------- key order does not matter

  lemma SameKeysSorted(u: Value, v: Value)
    requires IsObject(u) && IsObject(v) && WellFormed(u) && WellFormed(v) && FormOf(u) == FormOf(v)
    ensures SortKeys(KeysOf(Entries(u))) == SortKeys(KeysOf(Entries(v)))
  {
    assert FormOf(u).fields.Keys == FormOf(v).fields.Keys;
    assert forall k :: k in KeysOf(Entries(u)) <==> k in FormOf(u).fields.Keys;
    assert forall k :: k in KeysOf(Entries(v)) <==> k in FormOf(v).fields.Keys;
    SortKeysMembers(KeysOf(Entries(u)));
    SortKeysMembers(KeysOf(Entries(v)));
    KeysAreDistinct(u);
    KeysAreDistinct(v);
    SortKeysSorted(Entries(u));
    SortKeysSorted(Entries(v));
    SortedUnique(SortKeys(KeysOf(Entries(u))), SortKeys(KeysOf(Entries(v))));
  }

  lemma GetWellFormed(v: Value, k: string)
    requires IsObject(v) && WellFormed(v) && HasKey(v, k)
    ensures WellFormed(Get(v, k))
  {
  }

  /** Values of one form, and so values that differ only in the order of their keys, have the same text. */
  lemma {:induction false} OrderIndependent(u: Value, v: Value)
    requires WellFormed(u) && WellFormed(v) && FormOf(u) == FormOf(v)
    ensures ValueText(u) == ValueText(v)
    decreases u, 1, 0
  {
    if IsObject(u) {
      SameKeysSorted(u, v);
      var keys := SortKeys(KeysOf(Entries(u)));
      SortKeysMembers(KeysOf(Entries(u)));
      SortKeysMembers(KeysOf(Entries(v)));
      KeysOfMembers(Entries(u));
      KeysOfMembers(Entries(v));
      OrderIndependentKeys(u, v, keys);
    }
  }

  lemma {:induction false} OrderIndependentKeys(u: Value, v: Value, keys: seq<string>)
    requires IsObject(u) && IsObject(v) && WellFormed(u) && WellFormed(v) && FormOf(u) == FormOf(v)
    requires forall k :: k in keys ==> HasKey(u, k) && HasKey(v, k)
    ensures HashKeys(u, keys) == HashKeys(v, keys)
    decreases u, 0, |keys|
  {
    if keys != [] {
      var k := keys[0];
      FormOfGet(u, k);
      FormOfGet(v, k);
      GetWellFormed(u, k);
      GetWellFormed(v, k);
      OrderIndependent(Get(u, k), Get(v, k));
      OrderIndependentKeys(u, v, keys[1..]);
    }
  }

  /** In particular key order never shows, at any depth. */
  lemma KeyOrderDoesNotShow(u: Value, v: Value)
    requires WellFormed(u) && WellFormed(v) && MeaningOf(u) == MeaningOf(v)
    ensures ValueText(u) == ValueText(v)
  {
    hide FormOf, MeaningOf, Alike, ValueText, WellFormed;
    MeaningIff(u, v);
    OrderIndependent(u, v);
  }

  // ---------------------------------------------------------------- different values, different texts

  predicate Plain(s: string) {
    s != "" && ':' !in s && ';' !in s
  }

  /** The domain of unique decoding: keys, and texts of leaves of any type, that are non-empty and free of ':' and
      ';'. Only a string leaf can fail. */
  ghost predicate Clean(v: Value) {
    && (!IsObject(v) ==> Plain(LeafText(v)))
    && (v.Obj? ==> forall i :: 0 <= i < |v.fields| ==> Plain(v.fields[i].0))
    && (IsObject(v) ==> forall i :: 0 <= i < |Entries(v)| ==> Clean(Entries(v)[i].1))
  }

  lemma SeparatorAt(a: string, c: char, x: string)
    requires ':' !in a && ';' !in a && c in {':', ';'}
    ensures var s := a + [c] + x;
            s[|a|] == c && s[..|a|] == a && s[|a| + 1..] == x
            && forall i :: 0 <= i < |a| ==> s[i] != ':' && s[i] != ';'
  {
  }

  /** A separator ends the plain text before it, in only one way. */
  lemma SplitAtSeparator(a: string, c: char, x: string, b: string, d: char, y: string)
    requires ':' !in a && ';' !in a && ':' !in b && ';' !in b
    requires c in {':', ';'} && d in {':', ';'}
    requires a + [c] + x == b + [d] + y
    ensures a == b && c == d && x == y
  {
    SeparatorAt(a, c, x);
    SeparatorAt(b, d, y);
    assert |a| == |b|;
  }

  /** What may follow the text of an object: the end, or the ';' that closes it. */
  predicate Closes(s: string) {
    s == "" || s[0] == ';'
  }

  lemma GetClean(v: Value, k: string)
    requires IsObject(v) && Clean(v) && HasKey(v, k)
    ensures Plain(k) && Clean(Get(v, k))
  {
  }

  lemma HashKeysStep(v: Value, keys: seq<string>, rest: string)
    requires IsObject(v) && keys != [] && forall k :: k in keys ==> HasKey(v, k)
    ensures HashKeys(v, keys) + rest
            == keys[0] + [':'] + (ValueText(Get(v, keys[0])) + [';'] + (HashKeys(v, keys[1..]) + rest))
  {
    hide ValueText, Get;
  }

  /** An object's text up to its end decides its keys, the form under each, and what follows. */
  lemma {:induction false} DecodeKeys(u: Value, ks: seq<string>, x: string, v: Value, ls: seq<string>, y: string)
    requires IsObject(u) && IsObject(v) && Clean(u) && Clean(v) && Closes(x) && Closes(y)
    requires (forall k :: k in ks ==> HasKey(u, k)) && (forall k :: k in ls ==> HasKey(v, k))
    requires HashKeys(u, ks) + x == HashKeys(v, ls) + y
    ensures ks == ls && x == y
    ensures forall k :: k in ks && HasKey(v, k) ==> FormOf(Get(u, k)) == FormOf(Get(v, k))
    decreases u, 0, |ks|
  {
    hide ValueText, FormOf, Get;
    if ks != [] {
      GetClean(u, ks[0]);
      HashKeysStep(u, ks, x);
    }
    if ls != [] {
      GetClean(v, ls[0]);
      HashKeysStep(v, ls, y);
    }
    if ks != [] && ls != [] {
      var ut, vt := ValueText(Get(u, ks[0])), ValueText(Get(v, ls[0]));
      var u', v' := HashKeys(u, ks[1..]) + x, HashKeys(v, ls[1..]) + y;
      SplitAtSeparator(ks[0], ':', ut + [';'] + u', ls[0], ':', vt + [';'] + v');
      DecodeValue(Get(u, ks[0]), u', Get(v, ls[0]), v');
      DecodeKeys(u, ks[1..], x, v, ls[1..], y);
      assert ks == [ks[0]] + ks[1..] && ls == [ls[0]] + ls[1..];
    } else {
      EmptyHashKeys(u);
      EmptyHashKeys(v);
      assert "" + x == x && "" + y == y;
      assert ks == ls;
    }
  }

  lemma EmptyHashKeys(v: Value)
    requires IsObject(v)
    ensures HashKeys(v, []) == ""
  {
  }

  lemma LeafFacts(v: Value)
    requires !IsObject(v) && Clean(v)
    ensures ValueText(v) == LeafText(v) && FormOf(v) == Atom(LeafText(v)) && Plain(LeafText(v))
  {
  }

  lemma ObjectTextIsHash(v: Value)
    requires IsObject(v)
    ensures ValueText(v) == HashObject(v)
  {
    hide HashObject;
  }

  /** The text of a value up to its closing ';' decides its form and what follows. */
  lemma {:induction false} DecodeValue(u: Value, x: string, v: Value, y: string)
    requires Clean(u) && Clean(v) && ValueText(u) + [';'] + x == ValueText(v) + [';'] + y
    ensures FormOf(u) == FormOf(v) && x == y
    decreases u, 1, 0
  {
    hide *;
    if IsObject(u) && IsObject(v) {
      ObjectTextIsHash(u);
      ObjectTextIsHash(v);
      assert ValueText(u) + [';'] + x == HashObject(u) + ([';'] + x);
      assert ValueText(v) + [';'] + y == HashObject(v) + ([';'] + y);
      Semicolon(x);
      Semicolon(y);
      DecodeObject(u, [';'] + x, v, [';'] + y);
    } else if IsObject(u) {
      LeafIsNotObject(v, y, u, x);
    } else if IsObject(v) {
      LeafIsNotObject(u, x, v, y);
    } else {
      LeafFacts(u);
      LeafFacts(v);
      PlainFacts(LeafText(u));
      PlainFacts(LeafText(v));
      SplitAtSeparator(LeafText(u), ';', x, LeafText(v), ';', y);
    }
  }

  lemma Semicolon(x: string)
    ensures Closes([';'] + x) && ([';'] + x)[1..] == x
  {
  }

  lemma PlainFacts(s: string)
    requires Plain(s)
    ensures s != "" && ':' !in s && ';' !in s
  {
  }

  /** The text of an object with keys starts with its first key and a ':', and that of an empty one is empty. */
  lemma ObjectText(v: Value, rest: string)
    requires Clean(v) && IsObject(v)
    ensures ValueText(v) == "" || exists k, tail :: Plain(k) && ValueText(v) + rest == k + [':'] + tail
  {
    hide HashKeys, HashObject, ValueText, Get, Clean, HasKey, Entries;
    var keys := SortedKeys(v);
    ObjectTextIsHash(v);
    if keys == [] {
      EmptyHashKeys(v);
    } else {
      assert keys[0] in keys;
      GetClean(v, keys[0]);
      HashKeysStep(v, keys, rest);
      var tail := ValueText(Get(v, keys[0])) + [';'] + (HashKeys(v, keys[1..]) + rest);
      assert Plain(keys[0]) && ValueText(v) + rest == keys[0] + [':'] + tail;
    }
  }

  lemma LeafIsNotObject(u: Value, x: string, v: Value, y: string)
    requires Clean(u) && Clean(v) && !IsObject(u) && IsObject(v)
    ensures ValueText(u) + [';'] + x != ValueText(v) + [';'] + y
  {
    LeafFacts(u);
    ObjectText(v, [';'] + y);
    var text := LeafText(u);
    hide ValueText, LeafText, Clean;
    SeparatorAt(text, ';', x);
    assert ValueText(v) + [';'] + y == ValueText(v) + ([';'] + y);
    if ValueText(v) == "" {
      assert (ValueText(v) + [';'] + y)[0] == ';';
      assert (text + [';'] + x)[0] == text[0];
    } else {
      var k, tail :| Plain(k) && ValueText(v) + ([';'] + y) == k + [':'] + tail;
      SeparatorAt(k, ':', tail);
    }
  }

  lemma SortedKeys(v: Value) returns (keys: seq<string>)
    requires IsObject(v)
    ensures keys == SortKeys(KeysOf(Entries(v))) && forall k :: k in keys <==> HasKey(v, k)
    ensures HashObject(v) == HashKeys(v, keys)
  {
    KeysOfMembers(Entries(v));
    SortKeysMembers(KeysOf(Entries(v)));
    keys := SortKeys(KeysOf(Entries(v)));
  }

  lemma {:induction false} DecodeObject(u: Value, x: string, v: Value, y: string)
    requires IsObject(u) && IsObject(v) && Clean(u) && Clean(v) && Closes(x) && Closes(y)
    requires HashObject(u) + x == HashObject(v) + y
    ensures FormOf(u) == FormOf(v) && x == y
    decreases u, 0
  {
    hide Clean, FormOf, Get, Entries, HasKey, HashObject, HashKeys;
    var ks := SortedKeys(u);
    var ls := SortedKeys(v);
    DecodeKeys(u, ks, x, v, ls, y);
    ObjectsHaveOneFormIff(u, v);
  }

  /** On clean inputs the key is exactly as fine as the form: equal keys for inputs that are equal up to key order,
      the types of leaves and the kinds of objects, and different keys otherwise. */
  lemma KeyDecidesForm(u: Value, v: Value)
    requires IsObject(u) && IsObject(v) && WellFormed(u) && WellFormed(v) && Clean(u) && Clean(v)
    ensures HashObject(u) == HashObject(v) <==> FormOf(u) == FormOf(v)
  {
    if FormOf(u) == FormOf(v) {
      OrderIndependent(u, v);
    }
    if HashObject(u) == HashObject(v) {
      assert HashObject(u) + "" == HashObject(u) && HashObject(v) + "" == HashObject(v);
      DecodeObject(u, "", v, "");
    }
  }

  /** Nothing but strings and plain objects, at any depth. */
  ghost predicate PlainStrings(v: Value) {
    (v.Str? || v.Obj?) && (v.Obj? ==> forall i :: 0 <= i < |v.fields| ==> PlainStrings(v.fields[i].1))
  }

  lemma GetPlainStrings(v: Value, k: string)
    requires IsObject(v) && PlainStrings(v) && HasKey(v, k)
    ensures PlainStrings(Get(v, k))
  {
  }

  /** Plain objects with string leaves throughout are alike where they have one form: there the form is the meaning. */
  lemma {:induction false} StringFormIsMeaning(u: Value, v: Value)
    requires PlainStrings(u) && PlainStrings(v) && FormOf(u) == FormOf(v)
    ensures MeaningOf(u) == MeaningOf(v)
  {
    if IsObject(u) {
      assert IsObject(v) && KindOf(u) == KindOf(v) == PlainObject;
      hide FormOf, MeaningOf, PlainStrings, HasKey, Get, LeafText;
      ObjectsHaveOneFormIff(u, v);
      ObjectsMeanTheSameIff(u, v);
      forall k | HasKey(u, k) && HasKey(v, k)
        ensures MeaningOf(Get(u, k)) == MeaningOf(Get(v, k))
      {
        GetPlainStrings(u, k);
        GetPlainStrings(v, k);
        StringFormIsMeaning(Get(u, k), Get(v, k));
      }
    }
  }

  lemma {:induction false} DecimalIsPlain(n: int)
    ensures Plain(IntText(n))
  {
    assert forall s :: AllDigits(s) ==> ':' !in s && ';' !in s;
  }

  /** Only string leaves, and keys of plain objects, can be unclean. */
  lemma OtherLeavesAreClean(v: Value)
    requires !v.Str? && !IsObject(v)
    ensures Clean(v)
  {
    if v.Num? {
      DecimalIsPlain(v.n);
    }
  }

  // ---------------------------------------------------------------- outside the domain

  lemma OneField(k: string, w: Value)
    ensures HashObject(Obj([(k, w)])) == k + ":" + ValueText(w) + ";"
  {
    var v := Obj([(k, w)]);
    assert KeysOf(Entries(v)) == [k] by {
      assert Entries(v)[1..] == [];
    }
    assert SortKeys([k]) == [k] by {
      assert [k][1..] == [];
    }
    assert Entries(v)[0].0 == k;
    assert Get(v, k) == w;
    assert [k][1..] == [];
    assert HashKeys(v, [k]) == k + ":" + ValueText(w) + ";" + HashKeys(v, []);
  }

  /** The text of a single property: its key, and the value as `String` writes it, or an object's own text. */
  lemma OneFieldTexts(k: string, text: string, n: int, inner: Value)
    requires IsObject(inner)
    ensures HashObject(Obj([(k, Str(text))])) == k + ":" + text + ";"
    ensures HashObject(Obj([(k, Num(n))])) == k + ":" + IntText(n) + ";"
    ensures HashObject(Obj([(k, Bool(true))])) == k + ":true;" && HashObject(Obj([(k, Bool(false))])) == k + ":false;"
    ensures HashObject(Obj([(k, Null)])) == k + ":null;" && HashObject(Obj([(k, Undefined)])) == k + ":undefined;"
    ensures HashObject(Obj([(k, inner)])) == k + ":" + HashObject(inner) + ";"
  {
    hide HashObject, IntText;
    OneField(k, Str(text));
    OneField(k, Num(n));
    OneField(k, Bool(true));
    OneField(k, Bool(false));
    OneField(k, Null);
    OneField(k, Undefined);
    OneField(k, inner);
  }

  lemma {:induction false} SameEntriesSameText(u: Value, v: Value, keys: seq<string>)
    requires IsObject(u) && IsObject(v) && Entries(u) == Entries(v) && forall k :: k in keys ==> HasKey(u, k)
    ensures HashKeys(u, keys) == HashKeys(v, keys)
    decreases |keys|
  {
    if keys != [] {
      assert Get(u, keys[0]) == Get(v, keys[0]);
      SameEntriesSameText(u, v, keys[1..]);
    }
  }

  /** The same kind around the same entries makes the same object. */
  lemma KindsDecide(u: Value, v: Value)
    requires IsObject(u) && IsObject(v) && Entries(u) == Entries(v)
    ensures KindOf(u) == KindOf(v) <==> u == v
  {
    if u.Arr? && v.Arr? {
      assert |u.items| == |Entries(u)| == |Entries(v)| == |v.items|;
      assert forall i :: 0 <= i < |u.items| ==> u.items[i] == Entries(u)[i].1 == Entries(v)[i].1 == v.items[i];
    }
  }

  /** The kind of an object never shows: an array has the text of the object with its indices for keys, and two objects
      without keys have one text whatever they hold. They mean the same only where they are the same object. */
  lemma KindsCollide(u: Value, v: Value)
    requires IsObject(u) && IsObject(v) && Entries(u) == Entries(v)
    ensures HashObject(u) == HashObject(v)
    ensures FormOf(u) == FormOf(v) && (MeaningOf(u) == MeaningOf(v) <==> u == v)
  {
    hide FormOf, MeaningOf, Get, Entries, HasKey, HashObject, HashKeys, KindOf, SortKeys, KeysOf;
    KindsDecide(u, v);
    var keys := SortedKeys(u);
    var same := SortedKeys(v);
    SameEntriesSameText(u, v, keys);
    forall k
      ensures HasKey(u, k) <==> HasKey(v, k)
      ensures HasKey(u, k) ==> Get(u, k) == Get(v, k)
    {
      SameEntriesSameGet(u, v, k);
    }
    ObjectsHaveOneFormIff(u, v);
    ObjectsMeanTheSameIff(u, v);
  }

  lemma SameEntriesSameGet(u: Value, v: Value, k: string)
    requires IsObject(u) && IsObject(v) && Entries(u) == Entries(v)
    ensures HasKey(u, k) <==> HasKey(v, k)
    ensures HasKey(u, k) ==> Get(u, k) == Get(v, k)
  {
    hide Entries;
  }

  /** Separators inside a leaf, empty leaves, leaves that differ in type alone, and objects that differ in kind alone
      each give two inputs one key. */
  lemma KeysCollideOutside()
    ensures HashObject(Obj([("a", Str("1;b:2"))])) == HashObject(Obj([("a", Str("1")), ("b", Str("2"))]))
    ensures HashObject(Obj([("a", Str(""))])) == HashObject(Obj([("a", Obj([]))]))
    ensures HashObject(Obj([("a", Num(1))])) == HashObject(Obj([("a", Str("1"))]))
    ensures HashObject(Obj([("a", Arr([Str("x")]))])) == HashObject(Obj([("a", Obj([("0", Str("x"))]))]))
    ensures HashObject(Obj([("a", Arr([]))])) == HashObject(Obj([("a", Obj([]))]))
    ensures forall c, d :: HashObject(Obj([("a", Keyless(c))])) == HashObject(Obj([("a", Keyless(d))]))
  {
    hide HashObject, ValueText;
    SeparatorsCollide();
    EmptyTexts();
    SameTextCollides("a", Str(""), Obj([]));
    OneTexts();
    SameTextCollides("a", Num(1), Str("1"));
    assert Entries(Arr([Str("x")])) == [("0", Str("x"))] by {
      assert IntText(0) == "0";
    }
    Inside("a", Arr([Str("x")]), Obj([("0", Str("x"))]));
    Inside("a", Arr([]), Obj([]));
    forall c, d
      ensures HashObject(Obj([("a", Keyless(c))])) == HashObject(Obj([("a", Keyless(d))]))
    {
      Inside("a", Keyless(c), Keyless(d));
    }
  }

  lemma Inside(k: string, u: Value, v: Value)
    requires IsObject(u) && IsObject(v) && Entries(u) == Entries(v)
    ensures HashObject(Obj([(k, u)])) == HashObject(Obj([(k, v)]))
  {
    KindsCollide(u, v);
    SameTextCollides(k, u, v);
  }

  lemma SeparatorsCollide()
    ensures HashObject(Obj([("a", Str("1;b:2"))])) == HashObject(Obj([("a", Str("1")), ("b", Str("2"))]))
  {
    OneField("a", Str("1;b:2"));
    assert ValueText(Str("1;b:2")) == "1;b:2";
    hide HashObject, ValueText;
    TwoFields();
    assert "a" + ":" + "1;b:2" + ";" == "a:1;b:2;";
  }

  /** Two values of one text share a key under any name. */
  lemma SameTextCollides(k: string, u: Value, v: Value)
    requires ValueText(u) == ValueText(v)
    ensures HashObject(Obj([(k, u)])) == HashObject(Obj([(k, v)]))
  {
    OneField(k, u);
    OneField(k, v);
  }

  lemma EmptyTexts()
    ensures ValueText(Str("")) == "" == ValueText(Obj([]))
  {
  }

  lemma OneTexts()
    ensures ValueText(Num(1)) == "1" == ValueText(Str("1"))
  {
    assert Decimal(1) == "1";
  }

  lemma TwoFields()
    ensures HashObject(Obj([("a", Str("1")), ("b", Str("2"))])) == "a:1;b:2;"
  {
    var v := Obj([("a", Str("1")), ("b", Str("2"))]);
    assert Entries(v)[1..] == [("b", Str("2"))] && Entries(v)[1..][1..] == [];
    assert KeysOf(Entries(v)) == ["a", "b"];
    assert ["a", "b"][1..] == ["b"] && ["b"][1..] == [];
    assert SortKeys(["b"]) == ["b"];
    assert CodeUnits("a") == [97] && CodeUnits("b") == [98];
    assert UnitLe("a", "b");
    assert SortKeys(["a", "b"]) == ["a", "b"];
    assert Entries(v)[0].0 == "a" && Entries(v)[1].0 == "b";
    assert Get(v, "a") == Str("1");
    assert Get(v, "b") == Str("2");
    assert HashKeys(v, ["b"]) == "b" + ":" + "2" + ";" + HashKeys(v, []);
    assert HashKeys(v, ["a", "b"]) == "a" + ":" + "1" + ";" + HashKeys(v, ["b"]);
  }
}
