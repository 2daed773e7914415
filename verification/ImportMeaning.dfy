/** Merging keeps what a file imports and everything else in it, and a second run finds nothing to do. */
module ImportMeaning {
  import opened JsText
  import opened ImportLine
  import opened MergeImports

  // ---------------------------------------------------------------- specifiers read from a line are well behaved

  /** No backtick and no line break. */
  ghost predicate Calm(s: string) {
    forall i :: 0 <= i < |s| ==> s[i] != '`' && !IsLineBreak(s[i])
  }

  lemma {:induction false} SkipSpaceIsSuffix(s: string)
    ensures SkipSpace(s) == s[|s| - |SkipSpace(s)|..]
    ensures SkipSpace(s) != "" ==> !IsSpace(SkipSpace(s)[0])
    ensures SpaceOnly(s[..|s| - |SkipSpace(s)|])
  {
    hide IsSpace;
    if s != "" && IsSpace(s[0]) {
      SkipSpaceIsSuffix(s[1..]);
      var n := |s| - |SkipSpace(s)|;
      assert s[..n] == [s[0]] + s[1..][..n - 1];
    }
  }

  lemma {:induction false} TrimEndIsPrefix(s: string)
    ensures |TrimEnd(s)| <= |s| && TrimEnd(s) == s[..|TrimEnd(s)|]
    ensures TrimEnd(s) != "" ==> !IsSpace(TrimEnd(s)[|TrimEnd(s)| - 1])
    ensures s != "" && !IsSpace(s[0]) ==> TrimEnd(s) != ""
  {
    hide IsSpace;
    if s != "" && IsSpace(s[|s| - 1]) {
      TrimEndIsPrefix(s[..|s| - 1]);
    }
  }

  lemma TrimFacts(s: string)
    ensures Trimmed(Trim(s))
    ensures exists a, b :: 0 <= a <= b <= |s| && Trim(s) == s[a..b]
  {
    hide IsSpace;
    SkipSpaceIsSuffix(s);
    var t := SkipSpace(s);
    TrimEndIsPrefix(t);
    var a := |s| - |t|;
    assert Trim(s) == s[a..a + |Trim(s)|];
  }

  lemma {:induction false} BeforeFacts(s: string, c: char)
    ensures |Before(s, c)| <= |s| && Before(s, c) == s[..|Before(s, c)|] && c !in Before(s, c)
  {
    if s != "" && s[0] != c {
      BeforeFacts(s[1..], c);
    }
  }

  lemma {:induction false} AfterFacts(s: string, c: char)
    ensures After(s, c).Some? ==> |After(s, c).value| < |s| && After(s, c).value == s[|s| - |After(s, c).value|..]
  {
    if s != "" && s[0] != c {
      AfterFacts(s[1..], c);
    }
  }

  /** Characters a text is free of, it stays free of in every part. */
  ghost predicate Free(s: string) {
    Calm(s) && '}' !in s
  }

  lemma FreePart(s: string, a: int, b: int)
    requires 0 <= a <= b <= |s|
    ensures Free(s) ==> Free(s[a..b])
    ensures Calm(s) ==> Calm(s[a..b])
  {
    forall i | 0 <= i < b - a
      ensures s[a..b][i] == s[a + i]
    {
    }
  }

  lemma ReadSpecOk(s: string, isTypeImport: bool)
    requires s != "" && Trimmed(s) && Free(s) && ',' !in s
    ensures SpecOk(ReadSpec(s, isTypeImport))
  {
    var t := TypeName(s);
    if t.Some? {
      var rest := s[4..];
      SkipSpaceIsSuffix(rest);
      var name := t.value;
      assert name == SkipSpace(rest);
      assert name == s[|s| - |name|..|s|];
      assert name[|name| - 1] == s[|s| - 1];
      EmptyIsSpace();
      TrimPadded("", name, "");
      assert "" + name + "" == name;
      FreePart(s, |s| - |name|, |s|);
    }
  }

  lemma {:induction false} ReadSpecsOk(body: string, isTypeImport: bool)
    requires Free(body)
    ensures forall i :: 0 <= i < |ReadSpecs(body, isTypeImport)| ==> SpecOk(ReadSpecs(body, isTypeImport)[i])
    decreases |body|
  {
    hide SpecOk, ReadSpec, Trimmed;
    var raw := Before(body, ',');
    BeforeFacts(body, ',');
    FreePart(body, 0, |raw|);
    var piece := Trim(raw);
    TrimFacts(raw);
    var a, b :| 0 <= a <= b <= |raw| && piece == raw[a..b];
    FreePart(raw, a, b);
    assert ',' !in piece;
    if piece != "" {
      ReadSpecOk(piece, isTypeImport);
    }
    AfterIsShorter(body, ',');
    AfterFacts(body, ',');
    var rest := After(body, ',');
    if rest.Some? {
      FreePart(body, |body| - |rest.value|, |body|);
      ReadSpecsOk(rest.value, isTypeImport);
    }
  }

  lemma {:induction false} BeforeQuoteFacts(s: string)
    ensures BeforeQuote(s) == s[..|BeforeQuote(s)|]
    ensures forall i :: 0 <= i < |BeforeQuote(s)| ==> !IsQuote(BeforeQuote(s)[i])
  {
    if s != "" && !IsQuote(s[0]) {
      BeforeQuoteFacts(s[1..]);
    }
  }

  lemma ReadSourceOk(q: string, specs: seq<Spec>)
    requires Calm(q) && ReadSource(q, specs).Some? && forall i :: 0 <= i < |specs| ==> SpecOk(specs[i])
    ensures ImportOk(ReadSource(q, specs).value)
  {
    hide SpecOk;
    BeforeQuoteFacts(q[1..]);
    var source := BeforeQuote(q[1..]);
    assert source == q[1..1 + |source|];
    FreePart(q, 1, 1 + |source|);
  }

  lemma SpacesCalm(s: string)
    requires Calm(s) && Spaces(s).Some?
    ensures Calm(Spaces(s).value)
  {
    SkipSpaceIsSuffix(s);
    FreePart(s, |s| - |SkipSpace(s)|, |s|);
  }

  lemma StripCalm(s: string, p: string)
    requires Calm(s) && StripPrefix(s, p).Some?
    ensures Calm(StripPrefix(s, p).value)
  {
    FreePart(s, |p|, |s|);
  }

  lemma ReadTailOk(s: string, isTypeImport: bool)
    requires Calm(s) && ReadTail(s, isTypeImport).Some?
    ensures ImportOk(ReadTail(s, isTypeImport).value)
  {
    hide Calm, Spaces, StripPrefix, ReadSource, SpecOk;
    BeforeFacts(s, '}');
    FreePart(s, 0, |Before(s, '}')|);
    assert Free(Before(s, '}'));
    ReadSpecsOk(Before(s, '}'), isTypeImport);
    AfterFacts(s, '}');
    var afterBrace := After(s, '}').value;
    FreePart(s, |s| - |afterBrace|, |s|);
    assert afterBrace == s[|s| - |afterBrace|..|s|];
    SpacesCalm(afterBrace);
    var t := Spaces(afterBrace).value;
    StripCalm(t, "from");
    var u := StripPrefix(t, "from").value;
    SpacesCalm(u);
    ReadSourceOk(Spaces(u).value, ReadSpecs(Before(s, '}'), isTypeImport));
  }

  lemma ParsedIsOk(line: string)
    requires Calm(line) && ParseImportLine(line).Some?
    ensures ImportOk(ParseImportLine(line).value)
  {
    hide Calm, Spaces, StripPrefix, ReadTail, ImportOk;
    StripCalm(line, "import");
    var r1 := StripPrefix(line, "import").value;
    SpacesCalm(r1);
    var r2 := Spaces(r1).value;
    if r2 != "" && r2[0] == '{' {
      FreePart(r2, 1, |r2|);
      assert r2[1..|r2|] == r2[1..];
      ReadTailOk(r2[1..], false);
    } else {
      StripCalm(r2, "type");
      var r3 := StripPrefix(r2, "type").value;
      SpacesCalm(r3);
      var r4 := Spaces(r3).value;
      FreePart(r4, 1, |r4|);
      assert r4[1..|r4|] == r4[1..];
      ReadTailOk(r4[1..], true);
    }
  }

  /** What is asked of the import lines: no backtick, and no line break inside. */
  ghost predicate CalmLine(raw: string) {
    '`' !in raw && Calm(Trim(raw))
  }

  lemma ImportOfIsOk(raw: string)
    requires CalmLine(raw) && ImportOf(raw).Some?
    ensures ImportOk(ImportOf(raw).value) && SpaceOnly(Indent(raw))
  {
    hide ParseImportLine, ImportOk, Calm, SpaceOnly;
    ParsedIsOk(Trim(raw));
    SkipSpaceIsSuffix(raw);
  }

  // ---------------------------------------------------------------- merging one module's specifiers

  ghost predicate HasName(specs: seq<Spec>, name: string) {
    exists s :: s in specs && s.name == name
  }

  ghost predicate HasValue(specs: seq<Spec>, name: string) {
    exists s :: s in specs && s.name == name && !s.isType
  }

  /** The same names, and the same of them imported as values. */
  ghost predicate SameMeaning(a: seq<Spec>, b: seq<Spec>) {
    forall name :: (HasName(a, name) <==> HasName(b, name)) && (HasValue(a, name) <==> HasValue(b, name))
  }

  ghost predicate AllOk(specs: seq<Spec>) {
    forall s :: s in specs ==> SpecOk(s)
  }

  ghost predicate NamesOnce(specs: seq<Spec>) {
    forall i, j :: 0 <= i < j < |specs| ==> specs[i].name != specs[j].name
  }

  lemma HasConcat(a: seq<Spec>, b: seq<Spec>, name: string)
    ensures HasName(a + b, name) <==> HasName(a, name) || HasName(b, name)
    ensures HasValue(a + b, name) <==> HasValue(a, name) || HasValue(b, name)
  {
    assert forall s :: s in a + b <==> s in a || s in b;
  }

  lemma HasOne(s: Spec, name: string)
    ensures HasName([s], name) <==> s.name == name
    ensures HasValue([s], name) <==> s.name == name && !s.isType
  {
    assert s in [s];
  }

  lemma {:induction false} AddSpecMeaning(merged: seq<Spec>, s: Spec, name: string)
    ensures HasName(AddSpec(merged, s), name) <==> HasName(merged, name) || s.name == name
    ensures HasValue(AddSpec(merged, s), name) <==> HasValue(merged, name) || (s.name == name && !s.isType)
  {
    hide HasName, HasValue;
    HasOne(s, name);
    if merged == [] {
      assert AddSpec(merged, s) == [s];
      HasConcat([], [], name);
      EmptyHasNothing(name);
    } else {
      var head, rest := merged[0], merged[1..];
      assert merged == [head] + rest;
      HasConcat([head], rest, name);
      HasOne(head, name);
      if head.name == s.name {
        var kept := if head.isType && !s.isType then s else head;
        HasConcat([kept], rest, name);
        HasOne(kept, name);
      } else {
        AddSpecMeaning(rest, s, name);
        HasConcat([head], AddSpec(rest, s), name);
      }
    }
  }

  lemma EmptyHasNothing(name: string)
    ensures !HasName([], name) && !HasValue([], name)
  {
  }

  lemma {:induction false} AddSpecKeeps(merged: seq<Spec>, s: Spec)
    ensures forall x :: x in AddSpec(merged, s) ==> x in merged || x == s
    ensures NamesOnce(merged) ==> NamesOnce(AddSpec(merged, s))
  {
    if merged != [] && merged[0].name != s.name {
      AddSpecKeeps(merged[1..], s);
      var rest := AddSpec(merged[1..], s);
      if NamesOnce(merged) {
        forall j | 0 <= j < |rest|
          ensures rest[j].name != merged[0].name
        {
          assert rest[j] in rest;
        }
      }
    }
  }

  lemma {:induction false} MergeSpecsMeaning(specs: seq<Spec>, name: string)
    ensures HasName(MergeSpecs(specs), name) <==> HasName(specs, name)
    ensures HasValue(MergeSpecs(specs), name) <==> HasValue(specs, name)
  {
    hide HasName, HasValue, AddSpec;
    if specs != [] {
      var init, last := specs[..|specs| - 1], specs[|specs| - 1];
      MergeSpecsMeaning(init, name);
      AddSpecMeaning(MergeSpecs(init), last, name);
      assert specs == init + [last];
      HasConcat(init, [last], name);
      HasOne(last, name);
    }
  }

  lemma {:induction false} MergeSpecsKeeps(specs: seq<Spec>)
    ensures forall x :: x in MergeSpecs(specs) ==> x in specs
    ensures NamesOnce(MergeSpecs(specs))
  {
    hide AddSpec;
    if specs != [] {
      var init, last := specs[..|specs| - 1], specs[|specs| - 1];
      MergeSpecsKeeps(init);
      AddSpecKeeps(MergeSpecs(init), last);
      assert specs == init + [last];
    }
  }

  lemma {:induction false} InsertSpecKeeps(le: Collation, s: Spec, sorted: seq<Spec>)
    ensures multiset(InsertSpec(le, s, sorted)) == multiset(sorted) + multiset{s}
  {
    if sorted != [] && !le(s.name, sorted[0].name) {
      InsertSpecKeeps(le, s, sorted[1..]);
      assert sorted == [sorted[0]] + sorted[1..];
    }
  }

  lemma {:induction false} SortSpecsKeeps(le: Collation, specs: seq<Spec>)
    ensures multiset(SortSpecs(le, specs)) == multiset(specs)
  {
    if specs != [] {
      SortSpecsKeeps(le, specs[1..]);
      InsertSpecKeeps(le, specs[0], SortSpecs(le, specs[1..]));
      assert specs == [specs[0]] + specs[1..];
    }
  }

  lemma PermutationMeaning(a: seq<Spec>, b: seq<Spec>)
    requires multiset(a) == multiset(b)
    ensures SameMeaning(a, b) && (AllOk(b) ==> AllOk(a))
  {
    assert forall s :: s in a <==> s in multiset(a);
    assert forall s :: s in b <==> s in multiset(b);
    assert forall s :: s in a <==> s in b;
  }

  /** The specifiers written for a module mean what its import lines meant, and read back as they are. */
  lemma MergedMeaning(le: Collation, specs: seq<Spec>)
    ensures SameMeaning(SortSpecs(le, MergeSpecs(specs)), specs)
    ensures AllOk(specs) ==> AllOk(SortSpecs(le, MergeSpecs(specs)))
  {
    hide HasName, HasValue, SortSpecs, MergeSpecs, SpecOk;
    SortSpecsKeeps(le, MergeSpecs(specs));
    PermutationMeaning(SortSpecs(le, MergeSpecs(specs)), MergeSpecs(specs));
    MergeSpecsKeeps(specs);
    forall name
      ensures HasName(MergeSpecs(specs), name) <==> HasName(specs, name)
      ensures HasValue(MergeSpecs(specs), name) <==> HasValue(specs, name)
    {
      MergeSpecsMeaning(specs, name);
    }
  }

  // ---------------------------------------------------------------- the items of the output

  lemma {:induction false} NoBacktickNoToggle(line: string, inTemplate: bool)
    requires '`' !in line
    ensures OpenAfter(line, inTemplate) == inTemplate
    decreases |line|
  {
    if line != "" {
      if line[0] == '\\' && |line| > 1 {
        NoBacktickNoToggle(line[2..], inTemplate);
      } else {
        NoBacktickNoToggle(line[1..], inTemplate);
      }
    }
  }

  /** Every import line that is handled, outside templates, is calm. */
  ghost predicate CalmImports(lines: seq<string>, inTemplate: bool) {
    lines != [] ==>
      && (ItemOf(lines[0], inTemplate).Imp? ==> CalmLine(lines[0]))
      && CalmImports(lines[1..], OpenAfter(lines[0], inTemplate))
  }

  ghost predicate ItemsOk(items: seq<Item>) {
    forall i :: 0 <= i < |items| && items[i].Imp? ==> ImportOk(items[i].imp) && SpaceOnly(items[i].indent)
  }

  lemma {:induction false} CalmItemsOk(lines: seq<string>, inTemplate: bool)
    requires CalmImports(lines, inTemplate)
    ensures ItemsOk(Items(lines, inTemplate))
  {
    hide CalmLine, ImportOf, ImportOk, SpaceOnly;
    if lines != [] {
      CalmItemsOk(lines[1..], OpenAfter(lines[0], inTemplate));
      if ItemOf(lines[0], inTemplate).Imp? {
        ImportOfIsOk(lines[0]);
      }
    }
  }

  lemma {:induction false} GroupOk(items: seq<Item>, source: string)
    requires ItemsOk(items)
    ensures forall k :: 0 <= k < |Group(items, source)| ==>
              ImportOk(Group(items, source)[k]) && Group(items, source)[k].source == source
  {
    hide ImportOk;
    if items != [] {
      var n := |items| - 1;
      assert forall i :: 0 <= i < n ==> items[..n][i] == items[i];
      GroupOk(items[..n], source);
    }
  }

  lemma {:induction false} AllSpecsOk(group: seq<Import>)
    requires forall k :: 0 <= k < |group| ==> ImportOk(group[k])
    ensures AllOk(AllSpecs(group))
  {
    hide SpecOk;
    if group != [] {
      AllSpecsOk(group[..|group| - 1]);
    }
  }

  /** The import written for a module that occurs in the file. */
  lemma MergedImportOk(le: Collation, items: seq<Item>, source: string)
    requires ItemsOk(items) && Group(items, source) != []
    ensures ImportOk(MergedImport(le, items, source))
  {
    GroupOk(items, source);
    AllSpecsOk(Group(items, source));
    MergedMeaning(le, SpecsFrom(items, source));
    assert ImportOk(Group(items, source)[0]);
    hide SpecOk, SortSpecs, MergeSpecs, Group, AllSpecs;
    var specs := MergedImport(le, items, source).specs;
    assert forall i :: 0 <= i < |specs| ==> specs[i] in specs;
  }

  lemma RenderIsCalm(indent: string, imp: Import)
    requires SpaceOnly(indent) && ImportOk(imp)
    ensures OpenAfter(Render(indent, imp), false) == false
    ensures ItemOf(Render(indent, imp), false) == Imp(indent, imp)
  {
    RenderRoundTrip(indent, imp);
    RenderIndented(indent, imp);
    assert '`' !in indent;
    hide Render, ImportOk, ImportOf, Indent;
    NoBacktickNoToggle(Render(indent, imp), false);
  }

  /** Reading the merged file gives the merged items: each kept line is masked or not as it was. */
  lemma {:induction false} ItemsOfMerged(le: Collation, lines: seq<string>, inTemplate: bool, all: seq<Item>,
                                         done: set<string>)
    requires CalmImports(lines, inTemplate) && ItemsOk(all)
    requires forall i :: 0 <= i < |lines| && Items(lines, inTemplate)[i].Imp?
                         ==> Group(all, Items(lines, inTemplate)[i].imp.source) != []
    ensures var merged := Merged(le, Items(lines, inTemplate), all, done);
            Items(Lines(merged), inTemplate) == merged
    decreases |lines|
  {
    hide Render, ImportOf, ImportOk, ItemsOk, MergedImport, Group, OpenAfter, CalmLine, SpaceOnly, Indent;
    if lines != [] {
      var line, rest, open := lines[0], lines[1..], OpenAfter(lines[0], inTemplate);
      var items, more := Items(lines, inTemplate), Items(rest, open);
      assert items[0] == ItemOf(line, inTemplate) && items[1..] == more;
      forall i | 0 <= i < |rest| && more[i].Imp?
        ensures Group(all, more[i].imp.source) != []
      {
        assert items[i + 1] == more[i];
      }
      if items[0].Other? {
        var tail := Merged(le, more, all, done);
        LinesCons(items[0], tail);
        ItemsOfMerged(le, rest, open, all, done);
        ItemsCons(line, Lines(tail), inTemplate);
      } else {
        ImportLineFacts(line);
        assert open == inTemplate == false;
        var source, indent := items[0].imp.source, items[0].indent;
        if source in done {
          ItemsOfMerged(le, rest, open, all, done);
        } else {
          assert Group(all, source) != [];
          var imp := MergedImport(le, all, source);
          MergedImportOk(le, all, source);
          RenderIsCalm(indent, imp);
          var tail := Merged(le, more, all, done + {source});
          LinesCons(Imp(indent, imp), tail);
          ItemsOfMerged(le, rest, open, all, done + {source});
          ItemsCons(Render(indent, imp), Lines(tail), false);
        }
      }
    }
  }

  lemma ImportLineFacts(line: string)
    requires CalmLine(line) && ImportOf(line).Some?
    ensures OpenAfter(line, false) == false && SpaceOnly(Indent(line))
  {
    NoBacktickNoToggle(line, false);
    ImportOfIsOk(line);
  }

  lemma ItemsCons(line: string, rest: seq<string>, inTemplate: bool)
    ensures Items([line] + rest, inTemplate) == [ItemOf(line, inTemplate)] + Items(rest, OpenAfter(line, inTemplate))
  {
    assert ([line] + rest)[1..] == rest;
  }

  // ---------------------------------------------------------------- the merged file

  /** The lines that are not merged, with their masks, in order. */
  function Others(items: seq<Item>): seq<Item> {
    if items == [] then [] else (if items[0].Other? then [items[0]] else []) + Others(items[1..])
  }

  lemma {:induction false} GroupCons(item: Item, rest: seq<Item>, source: string)
    ensures Group([item] + rest, source)
            == (if item.Imp? && item.imp.source == source then [item.imp] else []) + Group(rest, source)
  {
    var all := [item] + rest;
    if rest == [] {
      assert all[..0] == [];
      assert Group(all, source) == Group([], source) + (if item.Imp? && item.imp.source == source then [item.imp] else []);
    } else {
      var n := |rest| - 1;
      assert all[..|all| - 1] == [item] + rest[..n];
      GroupCons(item, rest[..n], source);
    }
  }

  lemma {:induction false} MergedGroups(le: Collation, items: seq<Item>, all: seq<Item>, done: set<string>, source: string)
    ensures Group(Merged(le, items, all, done), source)
            == if source in done || Group(items, source) == [] then [] else [MergedImport(le, all, source)]
  {
    hide Group, MergedImport;
    if items == [] {
      EmptyGroup(source);
    } else {
      var item, rest := items[0], items[1..];
      assert items == [item] + rest;
      GroupCons(item, rest, source);
      if item.Other? {
        MergedGroups(le, rest, all, done, source);
        GroupCons(item, Merged(le, rest, all, done), source);
      } else if item.imp.source in done {
        MergedGroups(le, rest, all, done, source);
      } else {
        var done' := done + {item.imp.source};
        MergedGroups(le, rest, all, done', source);
        GroupCons(Imp(item.indent, MergedImport(le, all, item.imp.source)), Merged(le, rest, all, done'), source);
        MergedSource(le, all, item.imp.source);
      }
    }
  }

  lemma EmptyGroup(source: string)
    ensures Group([], source) == []
  {
  }

  lemma MergedSource(le: Collation, all: seq<Item>, source: string)
    ensures MergedImport(le, all, source).source == source
  {
  }

  lemma {:induction false} MergedOthers(le: Collation, items: seq<Item>, all: seq<Item>, done: set<string>)
    ensures Others(Merged(le, items, all, done)) == Others(items)
  {
    hide MergedImport;
    if items != [] {
      var item, rest := items[0], items[1..];
      if item.Other? {
        MergedOthers(le, rest, all, done);
        OthersCons(item, Merged(le, rest, all, done));
      } else if item.imp.source in done {
        MergedOthers(le, rest, all, done);
      } else {
        var done' := done + {item.imp.source};
        MergedOthers(le, rest, all, done');
        OthersCons(Imp(item.indent, MergedImport(le, all, item.imp.source)), Merged(le, rest, all, done'));
      }
    }
  }

  lemma OthersCons(item: Item, rest: seq<Item>)
    ensures Others([item] + rest) == (if item.Other? then [item] else []) + Others(rest)
  {
    assert ([item] + rest)[1..] == rest;
  }

  lemma SpecsOfOne(items: seq<Item>, source: string, imp: Import)
    requires Group(items, source) == [imp]
    ensures SpecsFrom(items, source) == imp.specs
  {
    assert [imp][..0] == [];
    assert AllSpecs([imp]) == AllSpecs([imp][..0]) + imp.specs;
  }

  lemma SpecsOfNone(items: seq<Item>, source: string)
    requires Group(items, source) == []
    ensures SpecsFrom(items, source) == []
  {
  }

  lemma SameMeaningRefl(a: seq<Spec>)
    ensures SameMeaning(a, a)
  {
  }

  /** What a run leaves, read back. */
  lemma OutputItems(le: Collation, lines: seq<string>)
    requires CalmImports(lines, false)
    ensures var items := Items(lines, false);
            NeedsMerge(items) ==> Items(Process(le, lines), false) == Merged(le, items, items, {})
  {
    var items := Items(lines, false);
    CalmItemsOk(lines, false);
    forall i | 0 <= i < |lines| && items[i].Imp?
      ensures Group(items, items[i].imp.source) != []
    {
      GroupHas(items, i);
    }
    hide Group, Items, Merged, Lines, CalmImports, ItemsOk;
    ItemsOfMerged(le, lines, false, items, {});
  }

  /** The output imports the same names from each module, as values exactly those that were, keeps every other
      line and every masked line in order, has at most one import line a module, and is left alone by a second run. */
  lemma MergePreservesMeaning(le: Collation, lines: seq<string>)
    requires NeedsMerge(Items(lines, false)) ==> CalmImports(lines, false)
    ensures var out := Process(le, lines);
            var before, after := Items(lines, false), Items(out, false);
            && (forall source :: SameMeaning(SpecsFrom(after, source), SpecsFrom(before, source)))
            && Others(after) == Others(before)
            && (forall source :: |Group(after, source)| <= 1)
            && Process(le, out) == out
  {
    var out := Process(le, lines);
    var before, after := Items(lines, false), Items(out, false);
    if NeedsMerge(before) {
      OutputItems(le, lines);
    }
    hide Items, SpecsFrom, Group, SameMeaning, Others, Merged, CalmImports, Lines;
    if NeedsMerge(before) {
      MergedOthers(le, before, before, {});
      forall source
        ensures |Group(after, source)| <= 1 && SameMeaning(SpecsFrom(after, source), SpecsFrom(before, source))
      {
        MergedGroups(le, before, before, {}, source);
        if Group(before, source) == [] {
          SpecsOfNone(before, source);
          SpecsOfNone(after, source);
          SameMeaningRefl([]);
        } else {
          SpecsOfOne(after, source, MergedImport(le, before, source));
          MergedMeaning(le, SpecsFrom(before, source));
        }
      }
    } else {
      forall source
        ensures SameMeaning(SpecsFrom(after, source), SpecsFrom(before, source))
      {
        SameMeaningRefl(SpecsFrom(before, source));
      }
    }
  }

  // ---------------------------------------------------------------- the order inside a merged line

  ghost predicate Orders(le: Collation) {
    && (forall a, b :: le(a, b) || le(b, a))
    && (forall a, b, c :: le(a, b) && le(b, c) ==> le(a, c))
  }

  ghost predicate SortedByName(le: Collation, specs: seq<Spec>) {
    forall i, j :: 0 <= i < j < |specs| ==> le(specs[i].name, specs[j].name) && specs[i].name != specs[j].name
  }

  lemma {:induction false} InsertSpecSorted(le: Collation, s: Spec, sorted: seq<Spec>)
    requires Orders(le) && SortedByName(le, sorted) && forall x :: x in sorted ==> x.name != s.name
    ensures SortedByName(le, InsertSpec(le, s, sorted))
  {
    if sorted != [] && !le(s.name, sorted[0].name) {
      InsertSpecSorted(le, s, sorted[1..]);
      InsertSpecKeeps(le, s, sorted[1..]);
      var rest := InsertSpec(le, s, sorted[1..]);
      forall j | 0 <= j < |rest|
        ensures le(sorted[0].name, rest[j].name) && sorted[0].name != rest[j].name
      {
        assert rest[j] in multiset(rest);
        assert rest[j] == s || rest[j] in sorted[1..];
      }
    }
  }

  lemma {:induction false} SortSpecsSorted(le: Collation, specs: seq<Spec>)
    requires Orders(le) && NamesOnce(specs)
    ensures SortedByName(le, SortSpecs(le, specs))
  {
    if specs != [] {
      SortSpecsSorted(le, specs[1..]);
      SortSpecsKeeps(le, specs[1..]);
      var sorted := SortSpecs(le, specs[1..]);
      forall x | x in sorted
        ensures x.name != specs[0].name
      {
        assert x in multiset(sorted);
        assert x in specs[1..];
      }
      InsertSpecSorted(le, specs[0], sorted);
    }
  }

  /** A merged line names each import once, in collation order. */
  lemma MergedLineIsSorted(le: Collation, items: seq<Item>, source: string)
    requires Orders(le)
    ensures SortedByName(le, MergedImport(le, items, source).specs)
  {
    MergeSpecsKeeps(SpecsFrom(items, source));
    SortSpecsSorted(le, MergeSpecs(SpecsFrom(items, source)));
  }
}
