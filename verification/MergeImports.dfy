/** The import merger: lines inside template literals are masked, the rest of the named imports are merged
    a module at a time, and every other line stays where it was. */
module MergeImports {
  import opened ImportLine

  // ---------------------------------------------------------------- the template mask

  /** Whether a template literal is open after a line; a backslash hides the character after it. */
  function OpenAfter(line: string, inTemplate: bool): bool
    decreases |line|
  {
    if line == "" then inTemplate
    else if line[0] == '\\' && |line| > 1 then OpenAfter(line[2..], inTemplate)
    else OpenAfter(line[1..], if line[0] == '`' then !inTemplate else inTemplate)
  }

  /** How many backslashes in a row stand just before a character. */
  function Slashes(line: string, k: nat): nat
    requires k <= |line|
  {
    if k == 0 || line[k - 1] != '\\' then 0 else 1 + Slashes(line, k - 1)
  }

  /** A backtick that is not escaped: the backslashes before it escape one another. */
  predicate Toggles(line: string, k: nat)
    requires k < |line|
  {
    line[k] == '`' && Slashes(line, k) % 2 == 0
  }

  /** The number of such backticks among the first n characters. */
  function Backticks(line: string, n: nat): nat
    requires n <= |line|
  {
    if n == 0 then 0 else Backticks(line, n - 1) + (if Toggles(line, n - 1) then 1 else 0)
  }

  /** Dropping one character that is no backslash, or a backslash and what it hides, changes no later parity. */
  lemma {:induction false} SlashesAfter(line: string, m: nat, k: nat)
    requires m <= k <= |line| && ((m == 1 && line[0] != '\\') || (m == 2 && line[0] == '\\'))
    ensures Slashes(line, k) % 2 == Slashes(line[m..], k - m) % 2
  {
    if k > m {
      SlashesAfter(line, m, k - 1);
    } else if m == 2 {
      assert Slashes(line, 1) == 1 + Slashes(line, 0) == 1;
      assert Slashes(line, 2) == if line[1] == '\\' then 2 else 0;
    }
  }

  lemma {:induction false} BackticksAfter(line: string, m: nat, n: nat)
    requires m <= n <= |line| && ((m == 1 && line[0] != '\\') || (m == 2 && line[0] == '\\'))
    ensures Backticks(line, n) == Backticks(line, m) + Backticks(line[m..], n - m)
  {
    if n > m {
      BackticksAfter(line, m, n - 1);
      SlashesAfter(line, m, n - 1);
    }
  }

  /** A line opens or closes a template exactly when it holds an odd number of backticks that are not escaped. */
  lemma {:induction false} OpenAfterCounts(line: string, inTemplate: bool)
    ensures OpenAfter(line, inTemplate) == (inTemplate != (Backticks(line, |line|) % 2 == 1))
    decreases |line|
  {
    if line != "" {
      if line[0] == '\\' && |line| > 1 {
        OpenAfterCounts(line[2..], inTemplate);
        BackticksAfter(line, 2, |line|);
        assert Slashes(line, 1) == 1 + Slashes(line, 0);
        assert Backticks(line, 2) == Backticks(line, 1) == 0;
      } else if line[0] != '\\' {
        OpenAfterCounts(line[1..], if line[0] == '`' then !inTemplate else inTemplate);
        BackticksAfter(line, 1, |line|);
        assert Backticks(line, 1) == if line[0] == '`' then 1 else 0;
      } else {
        assert line[1..] == "";
      }
    }
  }

  /** For each line, whether it starts inside a template literal. */
  function Mask(lines: seq<string>, inTemplate: bool): (mask: seq<bool>)
    ensures |mask| == |lines|
  {
    if lines == [] then [] else [inTemplate] + Mask(lines[1..], OpenAfter(lines[0], inTemplate))
  }

  method ScanLine(line: string, inTemplate: bool) returns (open: bool)
    ensures open == OpenAfter(line, inTemplate)
  {
    open := inTemplate;
    var j := 0;
    while j < |line|
      invariant 0 <= j <= |line|
      invariant OpenAfter(line[j..], open) == OpenAfter(line, inTemplate)
    {
      if line[j] == '\\' && j + 1 < |line| {
        assert line[j..][2..] == line[j + 2..];
        j := j + 2;
      } else {
        assert line[j..][1..] == line[j + 1..];
        if line[j] == '`' {
          open := !open;
        }
        j := j + 1;
      }
    }
  }

  method ComputeTemplateLineMask(lines: seq<string>) returns (mask: seq<bool>)
    ensures mask == Mask(lines, false)
  {
    mask := [];
    var inTemplate := false;
    for i := 0 to |lines|
      invariant mask + Mask(lines[i..], inTemplate) == Mask(lines, false)
    {
      assert lines[i..][1..] == lines[i + 1..];
      mask := mask + [inTemplate];
      inTemplate := ScanLine(lines[i], inTemplate);
    }
    assert lines[|lines|..] == [];
    assert mask + [] == mask;
  }

  // ---------------------------------------------------------------- items

  /** A line as the merger sees it: an import it handles, with its indentation, or any other line. */
  datatype Item = Other(line: string, masked: bool) | Imp(indent: string, imp: Import)

  function ItemOf(line: string, masked: bool): Item {
    if masked || ImportOf(line).None? then Other(line, masked) else Imp(Indent(line), ImportOf(line).value)
  }

  function Items(lines: seq<string>, inTemplate: bool): (items: seq<Item>)
    ensures |items| == |lines|
  {
    if lines == [] then []
    else [ItemOf(lines[0], inTemplate)] + Items(lines[1..], OpenAfter(lines[0], inTemplate))
  }

  /** The imports of one module, in order. */
  function Group(items: seq<Item>, source: string): seq<Import> {
    if items == [] then []
    else
      var last := items[|items| - 1];
      Group(items[..|items| - 1], source) + (if last.Imp? && last.imp.source == source then [last.imp] else [])
  }

  function AllSpecs(group: seq<Import>): seq<Spec> {
    if group == [] then [] else AllSpecs(group[..|group| - 1]) + group[|group| - 1].specs
  }

  /** Every specifier imported from a module, in order. */
  function SpecsFrom(items: seq<Item>, source: string): seq<Spec> {
    AllSpecs(Group(items, source))
  }

  /** One more specifier: a new name goes last, and a value import displaces a type import of its name. */
  function AddSpec(merged: seq<Spec>, s: Spec): seq<Spec> {
    if merged == [] then [s]
    else if merged[0].name == s.name
    then [if merged[0].isType && !s.isType then s else merged[0]] + merged[1..]
    else [merged[0]] + AddSpec(merged[1..], s)
  }

  function MergeSpecs(specs: seq<Spec>): seq<Spec> {
    if specs == [] then [] else AddSpec(MergeSpecs(specs[..|specs| - 1]), specs[|specs| - 1])
  }

  /** `localeCompare(a, b) <= 0` */
  type Collation = (string, string) -> bool

  function InsertSpec(le: Collation, s: Spec, sorted: seq<Spec>): seq<Spec> {
    if sorted == [] || le(s.name, sorted[0].name) then [s] + sorted
    else [sorted[0]] + InsertSpec(le, s, sorted[1..])
  }

  /** The stable sort by name. */
  function SortSpecs(le: Collation, specs: seq<Spec>): seq<Spec> {
    if specs == [] then [] else InsertSpec(le, specs[0], SortSpecs(le, specs[1..]))
  }

  function MergedImport(le: Collation, items: seq<Item>, source: string): Import {
    Import(source, SortSpecs(le, MergeSpecs(SpecsFrom(items, source))))
  }

  /** The items that are written: the first import of each module stands for all of them. */
  function Merged(le: Collation, items: seq<Item>, all: seq<Item>, done: set<string>): seq<Item> {
    if items == [] then []
    else match items[0]
      case Other(_, _) => [items[0]] + Merged(le, items[1..], all, done)
      case Imp(indent, imp) =>
        if imp.source in done then Merged(le, items[1..], all, done)
        else [Imp(indent, MergedImport(le, all, imp.source))] + Merged(le, items[1..], all, done + {imp.source})
  }

  function LineOf(item: Item): string {
    match item
    case Other(line, _) => line
    case Imp(indent, imp) => Render(indent, imp)
  }

  function Lines(items: seq<Item>): seq<string> {
    if items == [] then [] else [LineOf(items[0])] + Lines(items[1..])
  }

  /** Some module is imported twice. */
  ghost predicate NeedsMerge(items: seq<Item>) {
    exists source :: |Group(items, source)| > 1
  }

  /** What `processFile` leaves in the file. */
  ghost function Process(le: Collation, lines: seq<string>): seq<string> {
    var items := Items(lines, false);
    if NeedsMerge(items) then Lines(Merged(le, items, items, {})) else lines
  }

  // ---------------------------------------------------------------- the loops

  lemma {:induction false} ItemAt(lines: seq<string>, inTemplate: bool, i: nat)
    requires i < |lines|
    ensures Items(lines, inTemplate)[i] == ItemOf(lines[i], Mask(lines, inTemplate)[i])
  {
    if i > 0 {
      ItemAt(lines[1..], OpenAfter(lines[0], inTemplate), i - 1);
    }
  }

  method CollectItems(lines: seq<string>) returns (items: seq<Item>)
    ensures items == Items(lines, false)
  {
    hide ItemOf, Items, Mask;
    var inTemplateAtStart := ComputeTemplateLineMask(lines);
    items := [];
    for i := 0 to |lines|
      invariant items == Items(lines, false)[..i]
    {
      ItemAt(lines, false, i);
      items := items + [ItemOf(lines[i], inTemplateAtStart[i])];
    }
    assert items == Items(lines, false);
  }

  method GroupByModule(items: seq<Item>) returns (byModule: map<string, seq<Import>>)
    ensures forall m :: m in byModule <==> Group(items, m) != []
    ensures forall m :: m in byModule ==> byModule[m] == Group(items, m)
  {
    byModule := map[];
    for i := 0 to |items|
      invariant forall m :: m in byModule <==> Group(items[..i], m) != []
      invariant forall m :: m in byModule ==> byModule[m] == Group(items[..i], m)
    {
      assert items[..i + 1][..i] == items[..i];
      if items[i].Imp? {
        var imp := items[i].imp;
        var group := if imp.source in byModule then byModule[imp.source] else [];
        byModule := byModule[imp.source := group + [imp]];
      }
    }
    assert items[..|items|] == items;
  }

  method AnyGroupRepeats(byModule: map<string, seq<Import>>) returns (needsMerge: bool)
    ensures needsMerge <==> exists m :: m in byModule && |byModule[m]| > 1
  {
    var modules := byModule.Keys;
    while modules != {}
      invariant modules <= byModule.Keys
      invariant forall m :: m in byModule && m !in modules ==> |byModule[m]| <= 1
      decreases |modules|
    {
      var m :| m in modules;
      if |byModule[m]| > 1 {
        return true;
      }
      modules := modules - {m};
    }
    return false;
  }

  lemma MergeSnoc(specs: seq<Spec>, s: Spec)
    ensures MergeSpecs(specs + [s]) == AddSpec(MergeSpecs(specs), s)
  {
    hide AddSpec;
    assert (specs + [s])[..|specs + [s]| - 1] == specs;
  }

  lemma AllSpecsTo(group: seq<Import>, i: nat)
    requires i < |group|
    ensures AllSpecs(group[..i + 1]) == AllSpecs(group[..i]) + group[i].specs
  {
    assert group[..i + 1][..i] == group[..i];
  }

  method MergeInto(merged: seq<Spec>, specs: seq<Spec>, ghost seen: seq<Spec>) returns (all: seq<Spec>)
    requires merged == MergeSpecs(seen)
    ensures all == MergeSpecs(seen + specs)
  {
    hide AddSpec, MergeSpecs;
    all := merged;
    assert seen + specs[..0] == seen;
    for j := 0 to |specs|
      invariant all == MergeSpecs(seen + specs[..j])
    {
      assert seen + specs[..j + 1] == (seen + specs[..j]) + [specs[j]];
      MergeSnoc(seen + specs[..j], specs[j]);
      all := AddSpec(all, specs[j]);
    }
    assert specs[..|specs|] == specs;
  }

  method MergeGroup(group: seq<Import>) returns (specs: seq<Spec>)
    ensures specs == MergeSpecs(AllSpecs(group))
  {
    specs := [];
    for i := 0 to |group|
      invariant specs == MergeSpecs(AllSpecs(group[..i]))
    {
      specs := MergeInto(specs, group[i].specs, AllSpecs(group[..i]));
      AllSpecsTo(group, i);
    }
    assert group[..|group|] == group;
  }

  lemma GroupHas(items: seq<Item>, i: nat)
    requires i < |items| && items[i].Imp?
    ensures Group(items, items[i].imp.source) != []
  {
    if i < |items| - 1 {
      GroupHas(items[..|items| - 1], i);
    }
  }

  lemma LinesStep(le: Collation, items: seq<Item>, all: seq<Item>, done: set<string>, i: nat)
    requires i < |items|
    ensures var item := items[i];
            Lines(Merged(le, items[i..], all, done)) ==
              if item.Other? then [item.line] + Lines(Merged(le, items[i + 1..], all, done))
              else if item.imp.source in done then Lines(Merged(le, items[i + 1..], all, done))
              else [Render(item.indent, MergedImport(le, all, item.imp.source))]
                   + Lines(Merged(le, items[i + 1..], all, done + {item.imp.source}))
  {
    hide MergedImport, Render;
    assert items[i..][1..] == items[i + 1..];
    LinesCons(items[i], Merged(le, items[i + 1..], all, done));
    if items[i].Imp? {
      var imp := items[i].imp;
      LinesCons(Imp(items[i].indent, MergedImport(le, all, imp.source)),
                Merged(le, items[i + 1..], all, done + {imp.source}));
    }
  }

  lemma LinesCons(item: Item, rest: seq<Item>)
    ensures Lines([item] + rest) == [LineOf(item)] + Lines(rest)
  {
    assert ([item] + rest)[1..] == rest;
  }

  method ProcessFile(le: Collation, lines: seq<string>) returns (out: seq<string>)
    ensures out == Process(le, lines)
  {
    var items := CollectItems(lines);
    var byModule := GroupByModule(items);
    var needsMerge := AnyGroupRepeats(byModule);
    assert needsMerge <==> NeedsMerge(items);
    if !needsMerge {
      return lines;
    }
    out := WriteMerged(le, items, byModule);
  }

  method WriteMerged(le: Collation, items: seq<Item>, byModule: map<string, seq<Import>>) returns (out: seq<string>)
    requires forall m :: m in byModule <==> Group(items, m) != []
    requires forall m :: m in byModule ==> byModule[m] == Group(items, m)
    ensures out == Lines(Merged(le, items, items, {}))
  {
    hide Group, MergeSpecs, AllSpecs, SortSpecs, Render, Merged, Lines;
    out := [];
    var done: set<string> := {};
    assert items[0..] == items;
    for i := 0 to |items|
      invariant out + Lines(Merged(le, items[i..], items, done)) == Lines(Merged(le, items, items, {}))
    {
      LinesStep(le, items, items, done, i);
      var item := items[i];
      if item.Other? {
        out := out + [item.line];
      } else if item.imp.source !in done {
        GroupHas(items, i);
        done := done + {item.imp.source};
        var specs := MergeGroup(byModule[item.imp.source]);
        out := out + [Render(item.indent, Import(item.imp.source, SortSpecs(le, specs)))];
      }
    }
    NothingLeft(le, items, done);
    assert items[|items|..] == [] && out + [] == out;
  }

  lemma NothingLeft(le: Collation, all: seq<Item>, done: set<string>)
    ensures Lines(Merged(le, [], all, done)) == []
  {
  }
}
