/** What a backtick in a handled import line does to the import merger: an input on which merging changes what a file
    imports. */
module ImportBackticks {
  import opened JsText
  import opened ImportLine
  import opened MergeImports
  import opened ImportMeaning

  const A := Spec("a", false)
  const B := Spec("b", false)
  const C := Spec("c", false)

  /** A module whose name holds one backtick. */
  const TICKED := "x`"

  /** Two imports from that module with a template literal begun by the first and ended by the line between them, and a
      line inside the template literal that the second one begins. */
  const FILE := [LineFrom(TICKED, [A]), "`", LineFrom(TICKED, [B]), LineFrom("y", [C])]

  function LineFrom(source: string, specs: seq<Spec>): string {
    Render("", Import(source, specs))
  }

  predicate NoToggle(s: string) {
    '`' !in s && '\\' !in s
  }

  lemma {:induction false} QuietPrefix(a: string, b: string, inTemplate: bool)
    requires NoToggle(a)
    ensures OpenAfter(a + b, inTemplate) == OpenAfter(b, inTemplate)
  {
    if a == "" {
      assert a + b == b;
    } else {
      assert a == [a[0]] + a[1..];
      assert (a + b)[0] == a[0] && (a + b)[1..] == a[1..] + b;
      QuietPrefix(a[1..], b, inTemplate);
    }
  }

  lemma OneTick(a: string, b: string, inTemplate: bool)
    requires NoToggle(a) && NoToggle(b)
    ensures OpenAfter(a + "`" + b, inTemplate) == !inTemplate
  {
    assert a + "`" + b == a + ("`" + b);
    QuietPrefix(a, "`" + b, inTemplate);
    assert ("`" + b)[1..] == b;
    QuietPrefix(b, "", !inTemplate);
    assert b + "" == b;
  }

  lemma JoinIsQuiet(specs: seq<Spec>)
    requires specs in {[A], [B], [A, B], [B, A]}
    ensures NoToggle("import { " + Join(specs) + " } from 'x")
  {
    assert Join([A]) == "a" && Join([B]) == "b";
    assert [A, B][1..] == [B] && [B, A][1..] == [A];
    assert Join([A, B]) == "a" + ", " + "b" && Join([B, A]) == "b" + ", " + "a";
    assert NoToggle(Join(specs));
    hide Join;
    assert NoToggle("import { ") && NoToggle(" } from 'x");
  }

  lemma NameReads(s: Spec)
    requires s in {A, B, C}
    ensures SpecReads(s)
  {
    assert |s.name| == 1 && !IsSpace(s.name[0]) && !IsLineBreak(s.name[0]);
    assert StripPrefix(s.name, "type").None?;
  }

  lemma Reads(imp: Import)
    requires imp.source in {TICKED, "y"} && forall i :: 0 <= i < |imp.specs| ==> imp.specs[i] in {A, B, C}
    ensures ImportReads(imp)
  {
    hide SpecReads;
    forall i | 0 <= i < |imp.specs|
      ensures SpecReads(imp.specs[i])
    {
      NameReads(imp.specs[i]);
    }
  }

  lemma TickedLine(specs: seq<Spec>, inTemplate: bool)
    requires ImportReads(Import(TICKED, specs)) && NoToggle("import { " + Join(specs) + " } from 'x")
    ensures OpenAfter(LineFrom(TICKED, specs), inTemplate) == !inTemplate
    ensures ItemOf(LineFrom(TICKED, specs), false) == Imp("", Import(TICKED, specs))
  {
    hide ImportOf, ImportReads, Join, SpaceOnly, Indent, NoToggle, OpenAfter;
    EmptyIsSpace();
    RenderRoundTrip("", Import(TICKED, specs));
    QuietEnd();
    OneTick("import { " + Join(specs) + " } from 'x", "';", inTemplate);
    RenderSplits(specs);
  }

  lemma TwoSpecs(specs: seq<Spec>, inTemplate: bool)
    requires specs in {[A], [B], [A, B], [B, A]}
    ensures OpenAfter(LineFrom(TICKED, specs), inTemplate) == !inTemplate
    ensures ItemOf(LineFrom(TICKED, specs), false) == Imp("", Import(TICKED, specs))
  {
    JoinIsQuiet(specs);
    Reads(Import(TICKED, specs));
    hide *;
    TickedLine(specs, inTemplate);
  }

  lemma FromY(masked: bool)
    ensures ItemOf(LineFrom("y", [C]), masked)
            == if masked then Other(LineFrom("y", [C]), true) else Imp("", Import("y", [C]))
  {
    hide ImportOf, ImportReads, Join, SpaceOnly, Indent, Render;
    EmptyIsSpace();
    Reads(Import("y", [C]));
    RenderRoundTrip("", Import("y", [C]));
  }

  lemma Tick()
    ensures OpenAfter("`", true) == false && ItemOf("`", true) == Other("`", true)
  {
    assert "`"[1..] == "";
  }

  lemma RenderSplits(specs: seq<Spec>)
    ensures Render("", Import(TICKED, specs)) == "import { " + Join(specs) + " } from 'x" + "`" + "';"
  {
    hide Join;
    var j := Join(specs);
    assert TICKED == "x" + "`";
    assert " } from 'x" == " } from '" + "x";
  }

  lemma QuietEnd()
    ensures NoToggle("';")
  {
  }

  lemma FourItems(a: string, b: string, c: string, d: string)
    requires OpenAfter(a, false) && !OpenAfter(b, true) && OpenAfter(c, false)
    ensures Items([a, b, c, d], false) == [ItemOf(a, false), ItemOf(b, true), ItemOf(c, false), ItemOf(d, true)]
  {
    hide OpenAfter, ItemOf;
    assert [a, b, c, d] == [a] + ([b] + ([c] + ([d] + [])));
    ItemsCons(a, [b] + ([c] + ([d] + [])), false);
    ItemsCons(b, [c] + ([d] + []), true);
    ItemsCons(c, [d] + [], false);
    ItemsCons(d, [], true);
  }

  lemma ThreeItems(a: string, b: string, c: string)
    requires OpenAfter(a, false) && !OpenAfter(b, true)
    ensures Items([a, b, c], false) == [ItemOf(a, false), ItemOf(b, true), ItemOf(c, false)]
  {
    hide OpenAfter, ItemOf;
    assert [a, b, c] == [a] + ([b] + ([c] + []));
    ItemsCons(a, [b] + ([c] + []), false);
    ItemsCons(b, [c] + [], true);
    ItemsCons(c, [], false);
  }

  /** The items of the file: the second and the fourth line lie inside template literals. */
  function Seen(): seq<Item> {
    [
      Imp("", Import(TICKED, [A])),
      Other("`", true),
      Imp("", Import(TICKED, [B])),
      Other(LineFrom("y", [C]), true)
    ]
  }

  /** The four lines, as the merger sees them in a file that begins outside template literals. */
  lemma FileItems()
    ensures Items(FILE, false) == Seen()
  {
    hide OpenAfter, ItemOf, Items, LineFrom;
    TwoSpecs([A], false);
    TwoSpecs([B], false);
    FromY(true);
    Tick();
    FourItems(LineFrom(TICKED, [A]), "`", LineFrom(TICKED, [B]), LineFrom("y", [C]));
  }

  /** What the merger writes: the import of `y` is no longer inside a template literal. */
  lemma MergedFileItems(specs: seq<Spec>)
    requires specs in {[A, B], [B, A]}
    ensures Items([LineFrom(TICKED, specs), "`", LineFrom("y", [C])], false)
            == [Imp("", Import(TICKED, specs)), Other("`", true), Imp("", Import("y", [C]))]
  {
    hide OpenAfter, ItemOf, Items, LineFrom;
    TwoSpecs(specs, false);
    FromY(false);
    Tick();
    ThreeItems(LineFrom(TICKED, specs), "`", LineFrom("y", [C]));
  }

  lemma GroupsOfFile(items: seq<Item>)
    requires items == Seen()
    ensures Group(items, TICKED) == [Import(TICKED, [A]), Import(TICKED, [B])] && Group(items, "y") == []
  {
    hide LineFrom;
    var i0, i1, i2, i3 := items[0], items[1], items[2], items[3];
    assert items == [i0] + ([i1] + ([i2] + ([i3] + [])));
    forall source | source in {TICKED, "y"}
      ensures Group(items, source) == if source == TICKED then [i0.imp, i2.imp] else []
    {
      assert TICKED != "y";
      EmptyGroup(source);
      GroupCons(i3, [], source);
      GroupCons(i2, [i3] + [], source);
      GroupCons(i1, [i2] + ([i3] + []), source);
      GroupCons(i0, [i1] + ([i2] + ([i3] + [])), source);
    }
  }

  lemma SpecsOfFile(items: seq<Item>)
    requires Group(items, TICKED) == [Import(TICKED, [A]), Import(TICKED, [B])]
    ensures MergeSpecs(SpecsFrom(items, TICKED)) == [A, B]
  {
    var group := [Import(TICKED, [A]), Import(TICKED, [B])];
    assert group[..1] == [Import(TICKED, [A])] && group[..1][..0] == [];
    assert AllSpecs([]) == [];
    assert AllSpecs(group[..1]) == [] + [A] == [A];
    assert AllSpecs(group) == [A] + [B] == [A, B];
    MergeTwo();
  }

  lemma MergeTwo()
    ensures MergeSpecs([A, B]) == [A, B]
  {
    assert [A, B][..1] == [A] && [A][..0] == [] && [A][1..] == [];
    assert MergeSpecs([A]) == AddSpec([], A) == [A];
    assert A.name[0] != B.name[0];
    assert AddSpec([A], B) == [A] + AddSpec([], B) == [A, B];
  }

  lemma SortTwo(le: Collation)
    ensures SortSpecs(le, [A, B]) in {[A, B], [B, A]}
  {
    assert [A, B][1..] == [B] && [B][1..] == [];
    assert SortSpecs(le, [B]) == InsertSpec(le, B, []) == [B];
    assert InsertSpec(le, A, [B]) == if le(A.name, B.name) then [A] + [B] else [B] + InsertSpec(le, A, []);
    assert InsertSpec(le, A, []) == [A];
    assert [A] + [B] == [A, B] && [B] + [A] == [B, A];
  }

  /** Merging drops one of the two backticks that were there, and an import that was text becomes an import: what the
      file imports from `y` changes. */
  lemma BacktickChangesMeaning(le: Collation)
    ensures !SameMeaning(SpecsFrom(Items(Process(le, FILE), false), "y"), SpecsFrom(Items(FILE, false), "y"))
  {
    hide Items, Render, LineFrom, SortSpecs, MergeSpecs;
    FileItems();
    var items := Items(FILE, false);
    GroupsOfFile(items);
    SpecsOfFile(items);
    SortTwo(le);
    var specs := SortSpecs(le, [A, B]);
    Written(le, items, specs);
    MergedFileItems(specs);
    var after := Items(Process(le, FILE), false);
    assert |Group(items, TICKED)| > 1;
    ImportsY(after, specs);
    SpecsOfNone(items, "y");
    EmptyHasNothing("c");
    HasOne(C, "c");
  }

  lemma Written(le: Collation, items: seq<Item>, specs: seq<Spec>)
    requires items == Seen()
    requires MergedImport(le, items, TICKED) == Import(TICKED, specs)
    ensures Lines(Merged(le, items, items, {})) == [LineFrom(TICKED, specs), "`", LineFrom("y", [C])]
  {
    hide MergedImport, Render;
    LinesStep(le, items, items, {}, 0);
    LinesStep(le, items, items, {TICKED}, 1);
    LinesStep(le, items, items, {TICKED}, 2);
    LinesStep(le, items, items, {TICKED}, 3);
    NothingLeft(le, items, {TICKED});
    assert items[0..] == items && items[4..] == [] && {} + {TICKED} == {TICKED};
  }

  lemma ImportsY(after: seq<Item>, specs: seq<Spec>)
    requires after == [Imp("", Import(TICKED, specs)), Other("`", true), Imp("", Import("y", [C]))]
    ensures SpecsFrom(after, "y") == [C]
  {
    var i0, i1, i2 := after[0], after[1], after[2];
    assert after == [i0] + ([i1] + ([i2] + []));
    EmptyGroup("y");
    GroupCons(i2, [], "y");
    GroupCons(i1, [i2] + [], "y");
    GroupCons(i0, [i1] + ([i2] + []), "y");
    assert TICKED != "y";
    SpecsOfOne(after, "y", Import("y", [C]));
  }
}
