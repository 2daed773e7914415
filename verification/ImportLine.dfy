/** One named-import line of TypeScript: reading it, and writing a merged one. */
module ImportLine {
  import opened Wrappers
  import opened JsText

  datatype Spec = Spec(name: string, isType: bool)

  datatype Import = Import(source: string, specs: seq<Spec>)

  // ---------------------------------------------------------------- text pieces

  function TrimEnd(s: string): string {
    if s != "" && IsSpace(s[|s| - 1]) then TrimEnd(s[..|s| - 1]) else s
  }

  function Trim(s: string): string {
    TrimEnd(SkipSpace(s))
  }

  predicate Trimmed(s: string) {
    s != "" ==> !IsSpace(s[0]) && !IsSpace(s[|s| - 1])
  }

  /** The text before the first c, or all of it. */
  function Before(s: string, c: char): string {
    if s == "" || s[0] == c then "" else [s[0]] + Before(s[1..], c)
  }

  /** The text after the first c, or None. */
  function After(s: string, c: char): Option<string> {
    if s == "" then None else if s[0] == c then Some(s[1..]) else After(s[1..], c)
  }

  function StripPrefix(s: string, p: string): Option<string> {
    if |p| <= |s| && s[..|p|] == p then Some(s[|p|..]) else None
  }

  /** `\s+`: at least one white space. */
  function Spaces(s: string): Option<string> {
    if s != "" && IsSpace(s[0]) then Some(SkipSpace(s)) else None
  }

  predicate IsQuote(c: char) {
    c == '\'' || c == '"'
  }

  function BeforeQuote(s: string): (t: string)
    ensures |t| <= |s|
  {
    if s == "" || IsQuote(s[0]) then "" else [s[0]] + BeforeQuote(s[1..])
  }

  predicate NoLineBreak(s: string) {
    forall i :: 0 <= i < |s| ==> !IsLineBreak(s[i])
  }

  // ---------------------------------------------------------------- specifiers

  /** `^type\s+(.+)$`, whose dot stops at line breaks: the captured text. */
  function TypeName(s: string): Option<string> {
    match StripPrefix(s, "type")
    case None => None
    case Some(rest) =>
      match Spaces(rest)
      case None => None
      case Some(name) => if name != "" && NoLineBreak(name) then Some(name) else None
  }

  function ReadSpec(s: string, isTypeImport: bool): Spec {
    match TypeName(s)
    case Some(name) => Spec(Trim(name), true)
    case None => Spec(s, isTypeImport)
  }

  /** Split at commas, trim, drop the empty pieces, read each. */
  function ReadSpecs(body: string, isTypeImport: bool): seq<Spec>
    decreases |body|
  {
    var piece := Trim(Before(body, ','));
    var first := if piece == "" then [] else [ReadSpec(piece, isTypeImport)];
    AfterIsShorter(body, ',');
    match After(body, ',')
    case None => first
    case Some(rest) => first + ReadSpecs(rest, isTypeImport)
  }

  lemma {:induction false} AfterIsShorter(s: string, c: char)
    ensures After(s, c).Some? ==> |After(s, c).value| < |s|
  {
    if s != "" && s[0] != c {
      AfterIsShorter(s[1..], c);
    }
  }

  // ---------------------------------------------------------------- the line

  /** From just after the opening brace on. */
  function ReadTail(s: string, isTypeImport: bool): Option<Import> {
    match After(s, '}')
    case None => None
    case Some(afterBrace) =>
      match Spaces(afterBrace)
      case None => None
      case Some(t) =>
        match StripPrefix(t, "from")
        case None => None
        case Some(u) =>
          match Spaces(u)
          case None => None
          case Some(q) => ReadSource(q, ReadSpecs(Before(s, '}'), isTypeImport))
  }

  /** The quoted module and the end of the line. */
  function ReadSource(q: string, specs: seq<Spec>): Option<Import> {
    if q == "" || !IsQuote(q[0]) then None
    else
      var source := BeforeQuote(q[1..]);
      if source == "" || |q| == 1 + |source| then None
      else
        var end := SkipSpace(q[1 + |source| + 1..]);
        var rest := if end != "" && end[0] == ';' then SkipSpace(end[1..]) else end;
        if rest == "" then Some(Import(source, specs)) else None
  }

  /** `parseImportLine` */
  function ParseImportLine(line: string): Option<Import> {
    match StripPrefix(line, "import")
    case None => None
    case Some(r1) =>
      match Spaces(r1)
      case None => None
      case Some(r2) =>
        if r2 != "" && r2[0] == '{' then ReadTail(r2[1..], false)
        else
          match StripPrefix(r2, "type")
          case None => None
          case Some(r3) =>
            match Spaces(r3)
            case None => None
            case Some(r4) => if r4 != "" && r4[0] == '{' then ReadTail(r4[1..], true) else None
  }

  /** The import a raw source line holds, if it is one this script handles. */
  function ImportOf(raw: string): Option<Import> {
    var line := Trim(raw);
    if StripPrefix(line, "import ").None? || '{' !in line || '}' !in line then None
    else ParseImportLine(line)
  }

  function Indent(raw: string): string {
    raw[..|raw| - |SkipSpace(raw)|]
  }

  function Part(s: Spec): string {
    if s.isType then "type " + s.name else s.name
  }

  function Join(specs: seq<Spec>): string {
    if specs == [] then ""
    else if |specs| == 1 then Part(specs[0])
    else Part(specs[0]) + ", " + Join(specs[1..])
  }

  function Render(indent: string, imp: Import): string {
    indent + "import { " + Join(imp.specs) + " } from '" + imp.source + "';"
  }

  // ---------------------------------------------------------------- reading back what was written

  predicate SpaceOnly(s: string) {
    forall i :: 0 <= i < |s| ==> IsSpace(s[i])
  }

  lemma {:induction false} SkipSpaces(a: string, s: string)
    requires SpaceOnly(a) && (s != "" ==> !IsSpace(s[0]))
    ensures SkipSpace(a + s) == s
  {
    if a == "" {
      assert a + s == s;
    } else {
      assert (a + s)[1..] == a[1..] + s;
      SkipSpaces(a[1..], s);
    }
  }

  lemma {:induction false} TrimEndSpaces(s: string, b: string)
    requires SpaceOnly(b) && (s != "" ==> !IsSpace(s[|s| - 1]))
    ensures TrimEnd(s + b) == s
  {
    if b == "" {
      assert s + b == s;
    } else {
      assert (s + b)[..|s + b| - 1] == s + b[..|b| - 1];
      TrimEndSpaces(s, b[..|b| - 1]);
    }
  }

  lemma TrimPadded(a: string, s: string, b: string)
    requires SpaceOnly(a) && SpaceOnly(b) && s != "" && Trimmed(s)
    ensures Trim(a + s + b) == s
  {
    assert a + s + b == a + (s + b);
    SkipSpaces(a, s + b);
    TrimEndSpaces(s, b);
  }

  lemma {:induction false} SplitAt(a: string, c: char, b: string)
    requires c !in a
    ensures Before(a + [c] + b, c) == a && After(a + [c] + b, c) == Some(b)
  {
    var s := a + [c] + b;
    if a == "" {
      assert s[1..] == b;
    } else {
      assert s[1..] == a[1..] + [c] + b;
      SplitAt(a[1..], c, b);
    }
  }

  lemma {:induction false} SplitNone(a: string, c: char)
    requires c !in a
    ensures Before(a, c) == a && After(a, c) == None
  {
    if a != "" {
      SplitNone(a[1..], c);
    }
  }

  lemma {:induction false} BeforeQuoteOf(a: string, q: char, b: string)
    requires IsQuote(q) && forall i :: 0 <= i < |a| ==> !IsQuote(a[i])
    ensures BeforeQuote(a + [q] + b) == a
  {
    var s := a + [q] + b;
    if a != "" {
      assert s[1..] == a[1..] + [q] + b;
      BeforeQuoteOf(a[1..], q, b);
    }
  }

  /** A specifier that a merged line can carry and read back. */
  ghost predicate SpecReads(s: Spec) {
    && s.name != "" && Trimmed(s.name) && NoLineBreak(s.name)
    && ',' !in s.name && '}' !in s.name
    && (!s.isType ==> TypeName(s.name).None?)
  }

  ghost predicate ImportReads(imp: Import) {
    && imp.source != "" && (forall i :: 0 <= i < |imp.source| ==> !IsQuote(imp.source[i]))
    && (forall i :: 0 <= i < |imp.specs| ==> SpecReads(imp.specs[i]))
  }

  /** And one that does not touch template literals. */
  ghost predicate SpecOk(s: Spec) {
    SpecReads(s) && '`' !in s.name
  }

  ghost predicate ImportOk(imp: Import) {
    && imp.source != "" && '`' !in imp.source
    && (forall i :: 0 <= i < |imp.source| ==> !IsQuote(imp.source[i]))
    && (forall i :: 0 <= i < |imp.specs| ==> SpecOk(imp.specs[i]))
  }

  lemma TypeNameOf(name: string)
    requires name != "" && Trimmed(name) && NoLineBreak(name)
    ensures TypeName("type " + name) == Some(name) && Trim(name) == name
  {
    var p := "type " + name;
    assert p[..4] == "type" && p[4..] == " " + name;
    SkipSpaces(" ", name);
    EmptyIsSpace();
    TrimPadded("", name, "");
    assert "" + name + "" == name;
  }

  lemma PartOk(s: Spec)
    requires SpecReads(s)
    ensures Part(s) != "" && Trimmed(Part(s)) && ',' !in Part(s) && '}' !in Part(s)
    ensures '`' !in s.name ==> '`' !in Part(s)
    ensures ReadSpec(Part(s), false) == s
  {
    if s.isType {
      TypeNameOf(s.name);
      hide TypeName, Trim, NoLineBreak;
      var p := "type " + s.name;
      assert p[|p| - 1] == s.name[|s.name| - 1] && p[0] == 't';
    }
  }

  lemma {:induction false} ReadsJoined(specs: seq<Spec>)
    requires forall i :: 0 <= i < |specs| ==> SpecReads(specs[i])
    ensures ReadSpecs(" " + Join(specs) + " ", false) == specs
    ensures ',' !in Join(specs) || |specs| > 1
    ensures '}' !in Join(specs)
    ensures (forall i :: 0 <= i < |specs| ==> '`' !in specs[i].name) ==> '`' !in Join(specs)
  {
    hide SpecReads, ReadSpec, Part, Trimmed;
    var body := " " + Join(specs) + " ";
    if specs == [] {
      assert body == "  ";
      SplitNone(body, ',');
      assert SkipSpace("  ") == SkipSpace(" ") == "" by {
        assert "  "[1..] == " " && " "[1..] == "";
      }
      assert ReadSpecs(body, false) == [];
    } else {
      var p := Part(specs[0]);
      PartOk(specs[0]);
      if |specs| == 1 {
        SplitNone(body, ',');
        TrimPadded(" ", p, " ");
        assert ReadSpecs(body, false) == [specs[0]];
      } else {
        ReadsJoined(specs[1..]);
        var rest := " " + Join(specs[1..]) + " ";
        assert body == (" " + p) + [','] + rest;
        SplitAt(" " + p, ',', rest);
        TrimPadded(" ", p, "");
        assert " " + p + "" == " " + p;
        assert ReadSpecs(body, false) == [specs[0]] + specs[1..];
      }
    }
  }

  lemma ReadsSource(source: string, specs: seq<Spec>)
    requires source != "" && forall i :: 0 <= i < |source| ==> !IsQuote(source[i])
    ensures ReadSource("'" + source + "';", specs) == Some(Import(source, specs))
  {
    var q := "'" + source + "';";
    assert q[1..] == source + ['\''] + ";";
    BeforeQuoteOf(source, '\'', ";");
    assert q[1 + |source| + 1..] == ";";
    SkipSpaces("", ";");
    assert "" + ";" == ";";
    assert ";"[1..] == "";
  }

  lemma ReadsTail(imp: Import)
    requires ImportReads(imp)
    ensures ReadTail(" " + Join(imp.specs) + " } from '" + imp.source + "';", false) == Some(imp)
  {
    hide SpecReads, ReadSpecs, ReadSource, Join, Trimmed;
    ReadsJoined(imp.specs);
    var body, tail, quoted := " " + Join(imp.specs) + " ", " from '" + imp.source + "';", "'" + imp.source + "';";
    var s := " " + Join(imp.specs) + " } from '" + imp.source + "';";
    assert s == body + ['}'] + tail;
    SplitAt(body, '}', tail);
    SkipSpaces(" ", "from " + quoted);
    assert tail == " " + ("from " + quoted);
    assert ("from " + quoted)[..4] == "from" && ("from " + quoted)[4..] == " " + quoted;
    SkipSpaces(" ", quoted);
    ReadsSource(imp.source, imp.specs);
  }

  function TailText(imp: Import): string {
    " " + Join(imp.specs) + " } from '" + imp.source + "';"
  }

  lemma TailShape(imp: Import)
    requires ImportReads(imp)
    ensures TailText(imp) != "" && TailText(imp)[|TailText(imp)| - 1] == ';'
    ensures '}' in TailText(imp)
    ensures ImportOk(imp) ==> '`' !in TailText(imp)
    ensures Render("", imp) == "import {" + TailText(imp)
  {
    hide SpecReads, Join;
    ReadsJoined(imp.specs);
    var j := Join(imp.specs);
    assert TailText(imp) == (" " + j + " ") + ['}'] + (" from '" + imp.source + "';");
  }

  lemma CoreParses(tail: string)
    ensures var core := "import {" + tail;
            && ParseImportLine(core) == ReadTail(tail, false)
            && StripPrefix(core, "import ").Some? && '{' in core
            && !IsSpace(core[0])
  {
    hide ReadTail;
    var core := "import {" + tail;
    assert core[..7] == "import " && core[..6] == "import" && core[6..] == " " + ("{" + tail);
    SkipSpaces(" ", "{" + tail);
    assert ("{" + tail)[1..] == tail;
    assert core[7] == '{';
  }

  /** A merged line reads back as the import it was written from, at the indentation it was given. */
  lemma RenderRoundTrip(indent: string, imp: Import)
    requires SpaceOnly(indent) && ImportReads(imp)
    ensures ImportOf(Render(indent, imp)) == Some(imp) && Indent(Render(indent, imp)) == indent
    ensures ImportOk(imp) ==> '`' !in Render("", imp)
  {
    var tail := TailText(imp);
    var core := "import {" + tail;
    ReadsTail(imp);
    TailShape(imp);
    CoreParses(tail);
    assert core[|core| - 1] == ';';
    hide ImportOk, ImportReads, ReadTail, TailText, ParseImportLine, StripPrefix, SpaceOnly;
    RenderIndented(indent, imp);
    assert indent + core + "" == indent + core;
    assert SpaceOnly("") by {
      EmptyIsSpace();
    }
    TrimPadded(indent, core, "");
    SkipSpaces(indent, core);
    hide Trim, IsSpace, Render, SkipSpace;
    assert '}' in core by {
      assert core == "import {" + tail;
    }
  }

  lemma EmptyIsSpace()
    ensures SpaceOnly("")
  {
  }

  lemma RenderIndented(indent: string, imp: Import)
    ensures Render(indent, imp) == indent + Render("", imp)
  {
    hide Join;
    assert "" + "import { " == "import { ";
  }
}
