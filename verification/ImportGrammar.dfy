/** What an import line says, piece by piece, and that the merger reads exactly the lines that are written so. */
module ImportGrammar {
  import opened Wrappers
  import opened JsText
  import opened ImportLine
  import opened ImportMeaning

  /** What stands between two commas of the braces, each part as it is written. */
  datatype Piece =
    | Blank(before: string)
    | Plain(before: string, name: string, after: string)
    | Typed(before: string, gap: string, name: string, after: string)

  /** A line from its first letter to its closing quote or semicolon; `typeGap` is what follows the keyword `type`,
      `semicolon` what precedes it, when they are there. */
  datatype Line = Line(gap: string, typeGap: Option<string>, pieces: seq<Piece>, braceGap: string, fromGap: string,
                       open: char, source: string, close: char, semicolon: Option<string>)

  function PieceText(p: Piece): string {
    match p
    case Blank(before) => before
    case Plain(before, name, after) => before + name + after
    case Typed(before, gap, name, after) => before + ("type" + gap + name) + after
  }

  function BodyText(pieces: seq<Piece>): string {
    if pieces == [] then ""
    else if |pieces| == 1 then PieceText(pieces[0])
    else PieceText(pieces[0]) + "," + BodyText(pieces[1..])
  }

  function SourceText(l: Line): string {
    [l.open] + l.source + [l.close] + (if l.semicolon.Some? then l.semicolon.value + ";" else "")
  }

  function TailText(l: Line): string {
    BodyText(l.pieces) + "}" + (l.braceGap + ("from" + (l.fromGap + SourceText(l))))
  }

  function LineText(l: Line): string {
    "import" + (l.gap + (if l.typeGap.Some? then "type" + (l.typeGap.value + ("{" + TailText(l))) else "{" + TailText(l)))
  }

  /** White space, at least one character of it. */
  ghost predicate IsGap(s: string) {
    s != "" && SpaceOnly(s)
  }

  /** What `^type\s+(.+)$` matches. */
  ghost predicate SaysType(text: string) {
    exists gap, name :: text == "type" + gap + name && IsGap(gap) && name != "" && NoLineBreak(name)
  }

  ghost predicate IsName(name: string) {
    name != "" && Trimmed(name) && ',' !in name && '}' !in name
  }

  ghost predicate PieceOk(p: Piece) {
    match p
    case Blank(before) => SpaceOnly(before)
    case Plain(before, name, after) => SpaceOnly(before) && SpaceOnly(after) && IsName(name) && !SaysType(name)
    case Typed(before, gap, name, after) =>
      SpaceOnly(before) && SpaceOnly(after) && IsGap(gap) && IsName(name) && NoLineBreak(name)
  }

  ghost predicate PiecesOk(pieces: seq<Piece>) {
    pieces != [] && forall i :: 0 <= i < |pieces| ==> PieceOk(pieces[i])
  }

  ghost predicate SourceOk(l: Line) {
    && l.open in {'\'', '"'} && l.close in {'\'', '"'}
    && l.source != "" && '\'' !in l.source && '"' !in l.source
    && (l.semicolon.Some? ==> SpaceOnly(l.semicolon.value))
  }

  ghost predicate LineOk(l: Line) {
    && IsGap(l.gap) && (l.typeGap.Some? ==> IsGap(l.typeGap.value))
    && PiecesOk(l.pieces) && IsGap(l.braceGap) && IsGap(l.fromGap) && SourceOk(l)
  }

  /** The specifiers a body names, in order: types where the specifier or the line says so. */
  function Named(pieces: seq<Piece>, typed: bool): seq<Spec> {
    if pieces == [] then []
    else
      (match pieces[0]
       case Blank(_) => []
       case Plain(_, name, _) => [Spec(name, typed)]
       case Typed(_, _, name, _) => [Spec(name, true)])
      + Named(pieces[1..], typed)
  }

  function Says(l: Line): Import {
    Import(l.source, Named(l.pieces, l.typeGap.Some?))
  }

  // ---------------------------------------------------------------- what is written is read

  lemma TypeNameGap(gap: string, name: string)
    requires IsGap(gap) && IsName(name) && NoLineBreak(name)
    ensures TypeName("type" + gap + name) == Some(name) && Trim(name) == name
  {
    var text := "type" + gap + name;
    assert text[..4] == "type" && text[4..] == gap + name;
    SkipSpaces(gap, name);
    EmptyIsSpace();
    TrimPadded("", name, "");
    assert "" + name + "" == name;
  }

  lemma PlainSaysNoType(text: string)
    requires text != "" && Trimmed(text)
    ensures TypeName(text).Some? <==> SaysType(text)
  {
    if TypeName(text).Some? {
      var rest := text[4..];
      SkipSpaceIsSuffix(rest);
      hide IsSpace, NoLineBreak, SpaceOnly;
      var n := |rest| - |SkipSpace(rest)|;
      assert text == "type" + rest[..n] + SkipSpace(rest);
    }
    if gap, name :| text == "type" + gap + name && IsGap(gap) && name != "" && NoLineBreak(name) {
      SaysTypeReads(text, gap, name);
    }
  }

  lemma SaysTypeReads(text: string, gap: string, name: string)
    requires text == "type" + gap + name && IsGap(gap) && name != "" && NoLineBreak(name) && Trimmed(text)
    ensures TypeName(text).Some?
  {
    hide IsSpace;
    assert text[..4] == "type" && text[4..] == gap + name;
    SkipSpaceIsSuffix(name);
    var n := |name| - |SkipSpace(name)|;
    assert gap + name == (gap + name[..n]) + SkipSpace(name);
    SkipSpaces(gap + name[..n], SkipSpace(name));
    assert text[|text| - 1] == name[|name| - 1];
    NotAllSpace(name);
    NoBreakAfter(name, n);
  }

  lemma {:induction false} NotAllSpace(s: string)
    requires s != "" && !IsSpace(s[|s| - 1])
    ensures SkipSpace(s) != ""
  {
    if IsSpace(s[0]) {
      NotAllSpace(s[1..]);
    }
  }

  lemma NoBreakAfter(s: string, n: nat)
    requires NoLineBreak(s) && n <= |s|
    ensures NoLineBreak(s[n..])
  {
  }

  /** A piece that is read as a name. */
  lemma NameReads(before: string, text: string, after: string)
    requires SpaceOnly(before) && SpaceOnly(after) && IsName(text)
    ensures Trim(before + text + after) == text
    ensures ',' !in before + text + after && '}' !in before + text + after
  {
    TrimPadded(before, text, after);
    hide Trim, Trimmed;
    assert ',' !in before && ',' !in after && '}' !in before && '}' !in after;
  }

  lemma TypedIsName(gap: string, name: string)
    requires IsGap(gap) && IsName(name)
    ensures IsName("type" + gap + name)
  {
    var text := "type" + gap + name;
    assert text[0] == 't' && text[|text| - 1] == name[|name| - 1];
    assert ',' !in gap && '}' !in gap;
  }

  lemma BlankReads(before: string)
    requires SpaceOnly(before)
    ensures Trim(before) == "" && ',' !in before && '}' !in before
  {
    SkipSpaces(before, "");
    assert before + "" == before;
  }

  lemma PieceReads(p: Piece, typed: bool)
    requires PieceOk(p)
    ensures ',' !in PieceText(p) && '}' !in PieceText(p)
    ensures Named([p], typed) == if Trim(PieceText(p)) == "" then [] else [ReadSpec(Trim(PieceText(p)), typed)]
  {
    hide TypeName, Trim, IsGap, SpaceOnly, NoLineBreak, SaysType;
    assert [p][1..] == [];
    if p.Blank? {
      BlankReads(p.before);
    } else if p.Plain? {
      NameReads(p.before, p.name, p.after);
      PlainSaysNoType(p.name);
    } else {
      TypedIsName(p.gap, p.name);
      NameReads(p.before, "type" + p.gap + p.name, p.after);
      TypeNameGap(p.gap, p.name);
    }
  }

  lemma {:induction false} BodyReads(pieces: seq<Piece>, typed: bool)
    requires PiecesOk(pieces)
    ensures '}' !in BodyText(pieces) && ReadSpecs(BodyText(pieces), typed) == Named(pieces, typed)
  {
    hide PieceOk, PieceText, ReadSpec, Trim;
    var body, text := BodyText(pieces), PieceText(pieces[0]);
    PieceReads(pieces[0], typed);
    NamedCons(pieces, typed);
    if |pieces| == 1 {
      SplitNone(body, ',');
      assert pieces[1..] == [];
    } else {
      BodyReads(pieces[1..], typed);
      assert body == text + [','] + BodyText(pieces[1..]);
      SplitAt(text, ',', BodyText(pieces[1..]));
    }
  }

  lemma NamedCons(pieces: seq<Piece>, typed: bool)
    requires pieces != []
    ensures Named(pieces, typed) == Named([pieces[0]], typed) + Named(pieces[1..], typed)
  {
    assert [pieces[0]][1..] == [];
  }

  lemma EndReads(semicolon: Option<string>, end: string)
    requires (semicolon.Some? ==> SpaceOnly(semicolon.value)) && SpaceOnly(end)
    ensures var tail := SkipSpace((if semicolon.Some? then semicolon.value + ";" else "") + end);
            tail == "" || (tail[0] == ';' && SkipSpace(tail[1..]) == "")
  {
    SkipSpaces(end, "");
    assert end + "" == end;
    if semicolon.Some? {
      SkipSpaces(semicolon.value, ";" + end);
      assert semicolon.value + ";" + end == semicolon.value + (";" + end) && (";" + end)[1..] == end;
    } else {
      assert "" + end == end;
    }
  }

  lemma SourceReads(l: Line, end: string, specs: seq<Spec>)
    requires SourceOk(l) && SpaceOnly(end)
    ensures ReadSource(SourceText(l) + end, specs) == Some(Import(l.source, specs))
  {
    hide SkipSpace, SpaceOnly, BeforeQuote;
    var rest := (if l.semicolon.Some? then l.semicolon.value + ";" else "") + end;
    var q := SourceText(l) + end;
    assert q[1..] == l.source + [l.close] + rest;
    BeforeQuoteOf(l.source, l.close, rest);
    assert q[1 + |l.source| + 1..] == rest;
    EndReads(l.semicolon, end);
    EmptySkips();
  }

  lemma SpacesOf(gap: string, s: string)
    requires IsGap(gap) && (s != "" ==> !IsSpace(s[0]))
    ensures Spaces(gap + s) == Some(s)
  {
    SkipSpaces(gap, s);
  }

  lemma StripOf(p: string, s: string)
    ensures StripPrefix(p + s, p) == Some(s)
  {
    assert (p + s)[..|p|] == p && (p + s)[|p|..] == s;
  }

  lemma TailReads(l: Line, end: string, typed: bool)
    requires LineOk(l) && SpaceOnly(end)
    ensures ReadTail(TailText(l) + end, typed) == Some(Import(l.source, Named(l.pieces, typed)))
  {
    hide PiecesOk, BodyText, ReadSpecs, Named, ReadSource, Spaces, StripPrefix, IsGap;
    var quoted := SourceText(l) + end;
    var from := "from" + (l.fromGap + quoted);
    BodyReads(l.pieces, typed);
    assert TailText(l) + end == BodyText(l.pieces) + ['}'] + (l.braceGap + from);
    SplitAt(BodyText(l.pieces), '}', l.braceGap + from);
    SpacesOf(l.braceGap, from);
    StripOf("from", l.fromGap + quoted);
    SpacesOf(l.fromGap, quoted);
    SourceReads(l, end, Named(l.pieces, typed));
  }

  lemma WrittenIsParsed(l: Line, end: string)
    requires LineOk(l) && SpaceOnly(end)
    ensures ParseImportLine(LineText(l) + end) == Some(Says(l))
  {
    hide TailText, ReadTail, Spaces, StripPrefix, Named, PiecesOk, SourceOk, SpaceOnly;
    var brace := "{" + (TailText(l) + end);
    assert brace[1..] == TailText(l) + end;
    TailReads(l, end, l.typeGap.Some?);
    if l.typeGap.Some? {
      var typed := "type" + (l.typeGap.value + brace);
      assert LineText(l) + end == "import" + (l.gap + typed);
      StripOf("import", l.gap + typed);
      SpacesOf(l.gap, typed);
      StripOf("type", l.typeGap.value + brace);
      SpacesOf(l.typeGap.value, brace);
    } else {
      assert LineText(l) + end == "import" + (l.gap + brace);
      StripOf("import", l.gap + brace);
      SpacesOf(l.gap, brace);
    }
  }

  // ---------------------------------------------------------------- what is read was written

  lemma PieceOf(text: string) returns (p: Piece)
    requires ',' !in text && '}' !in text
    ensures PieceOk(p) && PieceText(p) == text
  {
    var core := Trim(text);
    var a, b := TrimParts(text);
    if core == "" {
      assert text == a + b;
      return Blank(a + b);
    }
    TrimFacts(text);
    assert IsName(core) by {
      assert core == text[|a|..|a| + |core|];
    }
    PlainSaysNoType(core);
    if SaysType(core) {
      var gap, name := TypeParts(core);
      assert PieceText(Typed(a, gap, name, b)) == text;
      return Typed(a, gap, name, b);
    }
    return Plain(a, core, b);
  }

  lemma TrimParts(text: string) returns (a: string, b: string)
    ensures SpaceOnly(a) && SpaceOnly(b) && text == a + Trim(text) + b
  {
    SkipSpaceIsSuffix(text);
    var t := SkipSpace(text);
    a := text[..|text| - |t|];
    TrimEndParts(t);
    b := t[|TrimEnd(t)|..];
    assert text == a + t;
  }

  lemma {:induction false} TrimEndParts(s: string)
    ensures |TrimEnd(s)| <= |s| && s == TrimEnd(s) + s[|TrimEnd(s)|..] && SpaceOnly(s[|TrimEnd(s)|..])
  {
    if s != "" && IsSpace(s[|s| - 1]) {
      var n := |s| - 1;
      TrimEndParts(s[..n]);
      assert s[|TrimEnd(s)|..] == s[..n][|TrimEnd(s)|..] + [s[n]];
    }
  }

  lemma TypeParts(core: string) returns (gap: string, name: string)
    requires IsName(core) && TypeName(core).Some?
    ensures core == "type" + gap + name && IsGap(gap) && IsName(name) && NoLineBreak(name)
  {
    var rest := core[4..];
    SkipSpaceIsSuffix(rest);
    var n := |rest| - |SkipSpace(rest)|;
    gap, name := rest[..n], SkipSpace(rest);
    assert name == core[4 + n..];
  }

  lemma {:induction false} BodyOf(body: string) returns (pieces: seq<Piece>)
    requires '}' !in body
    ensures PiecesOk(pieces) && BodyText(pieces) == body
    decreases |body|
  {
    hide PieceOk, PieceText;
    BeforeFacts(body, ',');
    AfterFacts(body, ',');
    AfterIsShorter(body, ',');
    var p := PieceOf(Before(body, ','));
    if After(body, ',').None? {
      BeforeAll(body, ',');
      return [p];
    }
    BeforeAfter(body, ',');
    var rest := BodyOf(After(body, ',').value);
    assert ([p] + rest)[1..] == rest;
    return [p] + rest;
  }

  lemma {:induction false} BeforeAfter(s: string, c: char)
    requires After(s, c).Some?
    ensures s == Before(s, c) + [c] + After(s, c).value
  {
    if s[0] != c {
      BeforeAfter(s[1..], c);
    }
  }

  lemma {:induction false} BeforeAll(s: string, c: char)
    requires After(s, c).None?
    ensures Before(s, c) == s
  {
    if s != "" {
      BeforeAll(s[1..], c);
    }
  }

  lemma GapOf(s: string) returns (gap: string)
    requires Spaces(s).Some?
    ensures IsGap(gap) && s == gap + Spaces(s).value
  {
    SkipSpaceIsSuffix(s);
    gap := s[..|s| - |SkipSpace(s)|];
  }

  lemma StripParts(s: string, p: string)
    requires StripPrefix(s, p).Some?
    ensures s == p + StripPrefix(s, p).value
  {
  }

  /** What may follow the closing quote. */
  lemma EndOf(rest: string) returns (semicolon: Option<string>, end: string)
    requires var tail := SkipSpace(rest);
             tail == "" || (tail[0] == ';' && SkipSpace(tail[1..]) == "")
    ensures (semicolon.Some? ==> SpaceOnly(semicolon.value)) && SpaceOnly(end)
    ensures rest == (if semicolon.Some? then semicolon.value + ";" else "") + end
  {
    SkipSpaceIsSuffix(rest);
    var tail := SkipSpace(rest);
    var gap := rest[..|rest| - |tail|];
    assert rest == gap + tail;
    if tail == "" {
      return None, gap;
    }
    SkipSpaceIsSuffix(tail[1..]);
    assert tail[1..][..|tail[1..]|] == tail[1..];
    assert tail == ";" + tail[1..];
    return Some(gap), tail[1..];
  }

  /** The quoted module and the end of a line that was read. */
  lemma SourceOf(q: string, specs: seq<Spec>) returns (open: char, close: char, semicolon: Option<string>, end: string)
    requires ReadSource(q, specs).Some?
    ensures var source := ReadSource(q, specs).value.source;
            && open in {'\'', '"'} && close in {'\'', '"'}
            && source != "" && '\'' !in source && '"' !in source
            && (semicolon.Some? ==> SpaceOnly(semicolon.value)) && SpaceOnly(end)
            && q == [open] + source + [close] + (if semicolon.Some? then semicolon.value + ";" else "") + end
  {
    hide SkipSpace, SpaceOnly, BeforeQuote;
    var source := BeforeQuote(q[1..]);
    BeforeQuoteFacts(q[1..]);
    BeforeQuoteStops(q[1..]);
    open, close := q[0], q[1 + |source|];
    var rest := q[1 + |source| + 1..];
    assert SkipSpace("") == "" by {
      EmptySkips();
    }
    semicolon, end := EndOf(rest);
    assert q == [open] + source + [close] + rest;
  }

  lemma EmptySkips()
    ensures SkipSpace("") == ""
  {
  }

  lemma {:induction false} BeforeQuoteStops(s: string)
    ensures |BeforeQuote(s)| < |s| ==> IsQuote(s[|BeforeQuote(s)|])
  {
    if s != "" && !IsQuote(s[0]) {
      BeforeQuoteStops(s[1..]);
    }
  }

  lemma TailOf(s: string, typed: bool) returns (l: Line, end: string)
    requires ReadTail(s, typed).Some?
    ensures PiecesOk(l.pieces) && IsGap(l.braceGap) && IsGap(l.fromGap) && SourceOk(l) && SpaceOnly(end)
    ensures s == TailText(l) + end && l.source == ReadTail(s, typed).value.source
  {
    hide ReadSource, Spaces, StripPrefix, IsGap, PiecesOk, BodyText, SpaceOnly;
    BeforeFacts(s, '}');
    BeforeAfter(s, '}');
    var pieces := BodyOf(Before(s, '}'));
    var afterBrace := After(s, '}').value;
    var braceGap := GapOf(afterBrace);
    var t := Spaces(afterBrace).value;
    StripParts(t, "from");
    var u := StripPrefix(t, "from").value;
    var fromGap := GapOf(u);
    var q := Spaces(u).value;
    var specs := ReadSpecs(Before(s, '}'), typed);
    var open, close, semicolon, rest := SourceOf(q, specs);
    end := rest;
    l := Line(" ", None, pieces, braceGap, fromGap, open, ReadTail(s, typed).value.source, close, semicolon);
    assert q == SourceText(l) + end;
    assert s == TailText(l) + end;
  }

  lemma ParsedIsWritten(line: string) returns (l: Line, end: string)
    requires ParseImportLine(line).Some?
    ensures LineOk(l) && SpaceOnly(end) && line == LineText(l) + end
  {
    hide ReadTail, Spaces, StripPrefix, IsGap, PiecesOk, SourceOk, SpaceOnly, BodyText;
    StripParts(line, "import");
    var r1 := StripPrefix(line, "import").value;
    var gap := GapOf(r1);
    var r2 := Spaces(r1).value;
    if r2 != "" && r2[0] == '{' {
      var tail, rest := TailOf(r2[1..], false);
      l, end := tail.(gap := gap, typeGap := None), rest;
      assert TailText(l) == TailText(tail);
      assert r2 == "{" + r2[1..];
      assert SourceOk(l) by {
        SourceSame(tail, l);
      }
    } else {
      StripParts(r2, "type");
      var r3 := StripPrefix(r2, "type").value;
      var typeGap := GapOf(r3);
      var r4 := Spaces(r3).value;
      var tail, rest := TailOf(r4[1..], true);
      l, end := tail.(gap := gap, typeGap := Some(typeGap)), rest;
      assert TailText(l) == TailText(tail);
      assert r4 == "{" + r4[1..];
      SourceSame(tail, l);
    }
  }

  lemma SourceSame(a: Line, b: Line)
    requires SourceOk(a) && b == a.(gap := b.gap, typeGap := b.typeGap)
    ensures SourceOk(b)
  {
  }

  // ---------------------------------------------------------------- the merger's reading

  ghost predicate WrittenAs(raw: string, indent: string, l: Line, end: string) {
    raw == indent + LineText(l) + end && SpaceOnly(indent) && SpaceOnly(end) && LineOk(l) && l.gap[0] == ' '
  }

  lemma LineShape(l: Line)
    requires LineOk(l) && l.gap[0] == ' '
    ensures var line := LineText(l);
            line != "" && Trimmed(line) && '{' in line && '}' in line && StripPrefix(line, "import ").Some?
  {
    hide BodyText, PiecesOk;
  }

  lemma StartsWithImport(l: Line, end: string, line: string)
    requires LineOk(l) && line == LineText(l) + end && StripPrefix(line, "import ").Some?
    ensures l.gap[0] == ' '
  {
    hide TailText, PiecesOk, SourceOk, SpaceOnly;
    assert line[6] == "import "[6];
    assert LineText(l)[6] == l.gap[0];
  }

  lemma WrittenIsHandled(raw: string, indent: string, l: Line, end: string)
    requires WrittenAs(raw, indent, l, end)
    ensures ImportOf(raw) == Some(Says(l)) && Indent(raw) == indent
  {
    hide LineText, ParseImportLine, StripPrefix, LineOk, Trim, Says, SkipSpace, SpaceOnly, IsSpace;
    var line := LineText(l);
    LineShape(l);
    TrimPadded(indent, line, end);
    EmptyIsSpace();
    WrittenIsParsed(l, "");
    assert line + "" == line;
    assert raw == indent + (line + end);
    SkipSpaces(indent, line + end);
  }

  lemma SpacesJoin(a: string, b: string)
    requires SpaceOnly(a) && SpaceOnly(b)
    ensures SpaceOnly(a + b)
  {
  }

  lemma HandledIsWritten(raw: string) returns (indent: string, l: Line, end: string)
    requires ImportOf(raw).Some?
    ensures WrittenAs(raw, indent, l, end)
  {
    hide ParseImportLine, Trim, StripPrefix, LineText, LineOk, SpaceOnly;
    var line := Trim(raw);
    var a, b := TrimParts(raw);
    var rest;
    l, rest := ParsedIsWritten(line);
    StartsWithImport(l, rest, line);
    SpacesJoin(rest, b);
    indent, end := a, rest + b;
    assert raw == indent + LineText(l) + end;
  }

  /** The characters that `\s` matches and `trim` removes. */
  const WHITE_SPACE := "\t\n\U{000B}\U{000C}\r \U{00A0}\U{1680}\U{2000}\U{2001}\U{2002}\U{2003}\U{2004}\U{2005}\U{2006}"
                       + "\U{2007}\U{2008}\U{2009}\U{200A}\U{2028}\U{2029}\U{202F}\U{205F}\U{3000}\U{FEFF}"

  lemma SpaceIsWhite(c: char)
    ensures IsSpace(c) <==> c in WHITE_SPACE
  {
    var low := "\t\n\U{000B}\U{000C}\r \U{00A0}\U{1680}\U{2000}\U{2001}\U{2002}\U{2003}\U{2004}\U{2005}\U{2006}";
    var high := "\U{2007}\U{2008}\U{2009}\U{200A}\U{2028}\U{2029}\U{202F}\U{205F}\U{3000}\U{FEFF}";
    assert WHITE_SPACE == low + high;
    assert c in low <==>
           '\t' <= c <= '\r' || c == ' ' || c == '\U{00A0}' || c == '\U{1680}' || '\U{2000}' <= c <= '\U{2006}';
    assert c in high <==>
           || '\U{2007}' <= c <= '\U{200A}' || c == '\U{2028}' || c == '\U{2029}' || c == '\U{202F}'
           || c == '\U{205F}' || c == '\U{3000}' || c == '\U{FEFF}';
  }

  lemma SpacesAreWhite(s: string)
    ensures SpaceOnly(s) <==> forall c :: c in s ==> c in WHITE_SPACE
  {
    forall c
      ensures IsSpace(c) <==> c in WHITE_SPACE
    {
      SpaceIsWhite(c);
    }
    hide IsSpace;
    if forall c :: c in s ==> c in WHITE_SPACE {
      assert forall i :: 0 <= i < |s| ==> s[i] in s;
    }
  }

  /** A line is handled as an import exactly when it is written as one outside of its surrounding white space, in any
      spacing, with either quote and with or without a semicolon; it then imports from the module that it quotes the names
      in its braces, in order, as types exactly those that it, or the line, calls so. */
  lemma HandledIff(raw: string, imp: Import)
    ensures ImportOf(raw) == Some(imp) <==> exists indent, l, end :: WrittenAs(raw, indent, l, end) && Says(l) == imp
    ensures forall indent, l, end :: WrittenAs(raw, indent, l, end) ==> Indent(raw) == indent
    ensures forall s :: SpaceOnly(s) <==> forall c :: c in s ==> c in WHITE_SPACE
    ensures forall s :: NoLineBreak(s) <==> '\n' !in s && '\r' !in s && '\U{2028}' !in s && '\U{2029}' !in s
  {
    forall s
      ensures SpaceOnly(s) <==> forall c :: c in s ==> c in WHITE_SPACE
    {
      SpacesAreWhite(s);
    }
    hide SpaceOnly, LineOk, LineText, ImportOf, Says, Indent;
    forall indent, l, end | WrittenAs(raw, indent, l, end)
      ensures ImportOf(raw) == Some(Says(l)) && Indent(raw) == indent
    {
      WrittenIsHandled(raw, indent, l, end);
    }
    if ImportOf(raw).Some? {
      var indent, l, end := HandledIsWritten(raw);
      assert WrittenAs(raw, indent, l, end);
    }
  }
}
