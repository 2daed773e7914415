/** Key patterns: the glob callers write, the SQL LIKE it is rewritten to, and when the two agree. */
module GlobLike {
  import opened JsText

  /** A pattern read character by character; Never is a LIKE pattern that ends in a bare escape. */
  datatype Pattern =
    | End
    | Lit(c: char, rest: Pattern)
    | One(rest: Pattern)
    | Any(rest: Pattern)
    | Never

  /** LIKE compares ASCII letters without regard to case. */
  function Fold(c: char): char {
    if 'A' <= c <= 'Z' then ('a' as int + (c as int - 'A' as int)) as char else c
  }

  predicate Matches(p: Pattern, s: string)
    decreases p, |s|
  {
    match p
    case End => s == ""
    case Lit(c, rest) => s != "" && Fold(s[0]) == Fold(c) && Matches(rest, s[1..])
    case One(rest) => s != "" && Matches(rest, s[1..])
    case Any(rest) => Matches(rest, s) || (s != "" && Matches(p, s[1..]))
    case Never => false
  }

  /** LIKE ... ESCAPE '\' */
  function LikePattern(p: string): Pattern {
    if p == "" then End
    else if p[0] == '\\' then (if |p| == 1 then Never else Lit(p[1], LikePattern(p[2..])))
    else if p[0] == '%' then Any(LikePattern(p[1..]))
    else if p[0] == '_' then One(LikePattern(p[1..]))
    else Lit(p[0], LikePattern(p[1..]))
  }

  /** The glob of the adapter's contract: `*` is any run, `?` any one character, the rest is literal. */
  function GlobPattern(p: string): Pattern {
    if p == "" then End
    else if p[0] == '*' then Any(GlobPattern(p[1..]))
    else if p[0] == '?' then One(GlobPattern(p[1..]))
    else Lit(p[0], GlobPattern(p[1..]))
  }

  function EscapeMeta(s: string): string {
    if s == "" then "" else (if s[0] == '%' || s[0] == '_' then "\\" + [s[0]] else [s[0]]) + EscapeMeta(s[1..])
  }

  /** The three successive replacements. */
  function Translate(p: string): string {
    ReplaceAll(ReplaceAll(EscapeMeta(p), '*', '%'), '?', '_')
  }

  /** Which keys a pattern selects: `*` and an empty LIKE pattern both list every key. */
  predicate Selects(pattern: string, key: string) {
    pattern == "*" || Translate(pattern) == "" || Matches(LikePattern(Translate(pattern)), key)
  }

  // ---------------------------------------------------------------- what a glob says

  /** The same character, or the two cases of one ASCII letter. */
  ghost predicate SameLetter(a: char, b: char) {
    || a == b
    || ('A' <= a <= 'Z' && b as int == a as int + 32)
    || ('A' <= b <= 'Z' && a as int == b as int + 32)
  }

  /** What one character of a glob stands for. */
  ghost predicate StandsFor(c: char, piece: string) {
    c == '*' || (|piece| == 1 && (c == '?' || SameLetter(c, piece[0])))
  }

  function Concat(pieces: seq<string>): string {
    if pieces == [] then "" else pieces[0] + Concat(pieces[1..])
  }

  /** A text cut up into one piece for each character of a glob. */
  ghost predicate CutFor(p: string, key: string, pieces: seq<string>) {
    |pieces| == |p| && Concat(pieces) == key && forall i :: 0 <= i < |p| ==> StandsFor(p[i], pieces[i])
  }

  lemma FoldIsLetter(a: char, b: char)
    ensures Fold(a) == Fold(b) <==> SameLetter(a, b)
  {
  }

  lemma CutCons(p: string, piece: string, key: string, pieces: seq<string>)
    requires p != "" && StandsFor(p[0], piece) && CutFor(p[1..], key, pieces)
    ensures CutFor(p, piece + key, [piece] + pieces)
  {
    var all := [piece] + pieces;
    hide StandsFor;
    assert all[1..] == pieces;
    forall i | 0 <= i < |p|
      ensures StandsFor(p[i], all[i])
    {
      assert i > 0 ==> p[i] == p[1..][i - 1] && all[i] == pieces[i - 1];
    }
  }

  /** What a glob matches can be cut up for it. */
  lemma {:induction false} MatchedIsCut(p: string, key: string) returns (pieces: seq<string>)
    requires Matches(GlobPattern(p), key)
    ensures CutFor(p, key, pieces)
    decreases |p|, |key|
  {
    if p == "" {
      return [];
    }
    hide Fold, SameLetter;
    if p[0] == '*' && !Matches(GlobPattern(p[1..]), key) {
      var later := MatchedIsCut(p, key[1..]);
      assert key == [key[0]] + key[1..];
      Widened(p, key, later);
      return [[key[0]] + later[0]] + later[1..];
    }
    var piece := if p[0] == '*' then "" else [key[0]];
    var later := MatchedIsCut(p[1..], key[|piece|..]);
    if p[0] != '*' && p[0] != '?' {
      FoldIsLetter(p[0], key[0]);
    }
    CutCons(p, piece, key[|piece|..], later);
    assert piece + key[|piece|..] == key;
    return [piece] + later;
  }

  /** A run of any characters takes in one more. */
  lemma Widened(p: string, key: string, later: seq<string>)
    requires p != "" && p[0] == '*' && key != "" && CutFor(p, key[1..], later)
    ensures CutFor(p, key, [[key[0]] + later[0]] + later[1..])
  {
    var all := [[key[0]] + later[0]] + later[1..];
    assert all[1..] == later[1..];
    assert Concat(all) == [key[0]] + (later[0] + Concat(later[1..]));
    assert key == [key[0]] + key[1..];
    hide SameLetter;
  }

  /** And what is cut up for it, it matches. */
  lemma {:induction false} CutIsMatched(p: string, key: string, pieces: seq<string>)
    requires CutFor(p, key, pieces)
    ensures Matches(GlobPattern(p), key)
    decreases |p|, |key|
  {
    if p != "" {
      hide Fold, SameLetter;
      var piece, rest := pieces[0], Concat(pieces[1..]);
      assert key == piece + rest;
      assert StandsFor(p[0], piece);
      forall i | 0 <= i < |p[1..]|
        ensures StandsFor(p[1..][i], pieces[1..][i])
      {
        assert StandsFor(p[i + 1], pieces[i + 1]);
      }
      if p[0] == '*' && piece != "" {
        var shorter := [piece[1..]] + pieces[1..];
        assert shorter[1..] == pieces[1..] && key[1..] == piece[1..] + rest;
        CutIsMatched(p, key[1..], shorter);
      } else {
        assert key[|piece|..] == rest;
        CutIsMatched(p[1..], rest, pieces[1..]);
        if p[0] != '*' && p[0] != '?' {
          FoldIsLetter(p[0], key[0]);
        }
      }
    }
  }

  /** A glob matches exactly the texts that can be cut into one piece for each of its characters: any run for `*`, one
      character for `?`, and the character itself, in either case if it is an ASCII letter, for any other. */
  lemma GlobMeaning(p: string, key: string)
    ensures Matches(GlobPattern(p), key) <==> exists pieces :: CutFor(p, key, pieces)
  {
    if Matches(GlobPattern(p), key) {
      var pieces := MatchedIsCut(p, key);
    }
    if pieces :| CutFor(p, key, pieces) {
      CutIsMatched(p, key, pieces);
    }
  }

  // ---------------------------------------------------------------- translation, one character at a time

  function TranslateChar(c: char): string {
    if c == '%' || c == '_' then "\\" + [c] else if c == '*' then "%" else if c == '?' then "_" else [c]
  }

  lemma {:induction false} TranslateStep(p: string)
    requires p != ""
    ensures Translate(p) == TranslateChar(p[0]) + Translate(p[1..])
  {
    var c, e := p[0], EscapeMeta(p[1..]);
    var stars := ReplaceAll(e, '*', '%');
    if c == '%' || c == '_' {
      assert EscapeMeta(p) == ['\\'] + ([c] + e);
      ReplaceStep('\\', [c] + e, '*', '%');
      ReplaceStep(c, e, '*', '%');
      ReplaceStep('\\', [c] + stars, '?', '_');
      ReplaceStep(c, stars, '?', '_');
    } else {
      assert EscapeMeta(p) == [c] + e;
      ReplaceStep(c, e, '*', '%');
      ReplaceStep(if c == '*' then '%' else c, stars, '?', '_');
    }
  }

  /** The LIKE pattern a glob turns into. */
  function Rewritten(p: string): Pattern {
    LikePattern(Translate(p))
  }

  /** How one ordinary character, or one escaped by a backslash before it, reads after the rewrite. */
  lemma RewrittenStep(p: string)
    requires p != ""
    ensures p[0] != '\\' ==>
              Rewritten(p) == if p[0] == '*' then Any(Rewritten(p[1..]))
                              else if p[0] == '?' then One(Rewritten(p[1..]))
                              else Lit(p[0], Rewritten(p[1..]))
    ensures p == "\\" ==> Rewritten(p) == Never
    ensures |p| > 1 && p[0] == '\\' ==>
              Rewritten(p) == if p[1] == '%' then Lit('\\', Any(Rewritten(p[2..])))
                              else if p[1] == '_' then Lit('\\', One(Rewritten(p[2..])))
                              else if p[1] == '*' then Lit('%', Rewritten(p[2..]))
                              else if p[1] == '?' then Lit('_', Rewritten(p[2..]))
                              else Lit(p[1], Rewritten(p[2..]))
  {
    hide Translate, LikePattern;
    TranslateStep(p);
    if p[0] == '%' || p[0] == '_' {
      LikeEscaped(p[0], Translate(p[1..]));
    } else if p[0] != '\\' {
      LikeOrdinary(TranslateChar(p[0])[0], Translate(p[1..]));
    } else if |p| == 1 {
      BareEscape();
    } else {
      TranslateStep(p[1..]);
      assert p[1..][1..] == p[2..];
      var rest := Translate(p[2..]);
      if p[1] == '%' || p[1] == '_' {
        assert Translate(p) == ['\\', '\\'] + ([p[1]] + rest);
        LikeEscaped('\\', [p[1]] + rest);
        LikeOrdinary(p[1], rest);
      } else {
        LikeEscaped(TranslateChar(p[1])[0], rest);
        assert Translate(p) == ['\\', TranslateChar(p[1])[0]] + rest;
      }
    }
  }

  lemma BareEscape()
    ensures Rewritten("\\") == Never
  {
    TranslateStep("\\");
    assert "\\"[1..] == "";
    assert Translate("\\") == "\\";
  }

  lemma LikeEscaped(c: char, rest: string)
    ensures LikePattern(['\\', c] + rest) == Lit(c, LikePattern(rest))
    ensures LikePattern("\\" + [c] + rest) == Lit(c, LikePattern(rest))
  {
    assert (['\\', c] + rest)[2..] == rest;
    assert "\\" + [c] + rest == ['\\', c] + rest;
  }

  lemma LikeOrdinary(c: char, rest: string)
    requires c != '\\'
    ensures LikePattern([c] + rest) == if c == '%' then Any(LikePattern(rest))
                                       else if c == '_' then One(LikePattern(rest))
                                       else Lit(c, LikePattern(rest))
  {
    assert ([c] + rest)[1..] == rest;
  }

  // ---------------------------------------------------------------- the two agree without backslashes

  lemma {:induction false} RewriteIsGlob(p: string)
    requires '\\' !in p
    ensures Rewritten(p) == GlobPattern(p)
  {
    if p != "" {
      RewrittenStep(p);
      RewriteIsGlob(p[1..]);
    }
  }

  // ---------------------------------------------------------------- and disagree with any backslash

  ghost predicate Possible(p: Pattern) {
    match p
    case End => true
    case Never => false
    case _ => Possible(p.rest)
  }

  /** The length of the shortest text a pattern matches. */
  function MinLen(p: Pattern): nat {
    match p
    case End | Never => 0
    case Any(rest) => MinLen(rest)
    case _ => 1 + MinLen(p.rest)
  }

  function Shortest(p: Pattern): string {
    match p
    case End | Never => ""
    case Any(rest) => Shortest(rest)
    case One(rest) => "a" + Shortest(rest)
    case Lit(c, rest) => [c] + Shortest(rest)
  }

  /** Position by position, with every `Any` empty. */
  ghost predicate Aligned(p: Pattern, s: string)
    decreases p
  {
    match p
    case End => s == ""
    case Lit(c, rest) => s != "" && Fold(s[0]) == Fold(c) && Aligned(rest, s[1..])
    case One(rest) => s != "" && Aligned(rest, s[1..])
    case Any(rest) => Aligned(rest, s)
    case Never => false
  }

  lemma {:induction false} ShortestMatches(p: Pattern)
    requires Possible(p)
    ensures Matches(p, Shortest(p)) && |Shortest(p)| == MinLen(p)
  {
    match p
    case End =>
    case Any(rest) => ShortestMatches(rest);
    case One(rest) =>
      ShortestMatches(rest);
      assert Shortest(p)[1..] == Shortest(rest);
    case Lit(c, rest) =>
      ShortestMatches(rest);
      assert Shortest(p)[1..] == Shortest(rest);
  }

  lemma {:induction false} MatchBounds(p: Pattern, s: string)
    requires Matches(p, s)
    ensures Possible(p) && |s| >= MinLen(p)
    ensures |s| == MinLen(p) ==> Aligned(p, s)
    decreases p, |s|
  {
    match p
    case End =>
    case Lit(c, rest) => MatchBounds(rest, s[1..]);
    case One(rest) => MatchBounds(rest, s[1..]);
    case Any(rest) =>
      if Matches(rest, s) {
        MatchBounds(rest, s);
      } else {
        MatchBounds(p, s[1..]);
      }
  }

  lemma {:induction false} RewriteNoLonger(p: string)
    ensures MinLen(Rewritten(p)) <= MinLen(GlobPattern(p))
  {
    if p != "" {
      RewrittenStep(p);
      if p[0] != '\\' {
        RewriteNoLonger(p[1..]);
      } else if |p| > 1 {
        assert p[1..][1..] == p[2..];
        RewriteNoLonger(p[2..]);
      }
    }
  }

  lemma ShortestTail(p: Pattern)
    ensures p.Lit? || p.One? ==> Shortest(p) != "" && Shortest(p)[1..] == Shortest(p.rest)
  {
  }

  /** An escaped wildcard reads as another pattern of the same length, which the shortest texts tell apart. */
  lemma MisreadDiffers(l: Pattern, g: Pattern)
    ensures !Aligned(Lit('%', l), Shortest(Lit('\\', Any(g))))
    ensures !Aligned(Lit('\\', Lit('_', g)), Shortest(Lit('\\', One(l))))
  {
    ShortestTail(Lit('\\', One(l)));
    assert Shortest(One(l))[0] == 'a';
  }

  /** Patterns that align with each other's shortest text come from a glob without backslashes. */
  lemma {:induction false} AlignedMeansPlain(p: string)
    requires var l, g := Rewritten(p), GlobPattern(p);
             Possible(l) && MinLen(l) == MinLen(g) && Aligned(l, Shortest(g)) && Aligned(g, Shortest(l))
    ensures '\\' !in p
  {
    if p != "" {
      RewrittenStep(p);
      hide Rewritten;
      var l, g := Rewritten(p), GlobPattern(p);
      if |p| > 1 {
        RewriteNoLonger(p[2..]);
        assert p[1..][1..] == p[2..];
        MisreadDiffers(Rewritten(p[2..]), GlobPattern(p[2..]));
      }
      if p[0] != '\\' {
        ShortestTail(l);
        ShortestTail(g);
        AlignedMeansPlain(p[1..]);
      } else {
        assert false;
      }
    }
  }

  /** A text on which the rewrite and the glob differ. */
  lemma BackslashWitness(p: string) returns (s: string)
    requires '\\' in p
    ensures Matches(Rewritten(p), s) != Matches(GlobPattern(p), s)
  {
    var l, g := Rewritten(p), GlobPattern(p);
    GlobIsPossible(p);
    ShortestMatches(g);
    RewriteNoLonger(p);
    if Matches(l, Shortest(g)) {
      MatchBounds(l, Shortest(g));
      ShortestMatches(l);
      if Matches(g, Shortest(l)) {
        MatchBounds(g, Shortest(l));
        AlignedMeansPlain(p);
      }
      s := Shortest(l);
    } else {
      s := Shortest(g);
    }
  }

  lemma {:induction false} GlobIsPossible(p: string)
    ensures Possible(GlobPattern(p))
  {
    if p != "" {
      GlobIsPossible(p[1..]);
    }
  }

  /** Up to ASCII case, a pattern selects the keys its glob matches exactly when it is not empty and has no backslash. */
  lemma GlobAgreesIff(pattern: string)
    ensures (forall key :: Selects(pattern, key) <==> Matches(GlobPattern(pattern), key))
            <==> pattern != "" && '\\' !in pattern
  {
    if pattern == "" {
      assert Selects(pattern, "k") && !Matches(GlobPattern(pattern), "k");
    } else {
      TranslateStep(pattern);
      if '\\' in pattern {
        var s := BackslashWitness(pattern);
        assert Selects(pattern, s) != Matches(GlobPattern(pattern), s);
      } else {
        RewriteIsGlob(pattern);
        if pattern == "*" {
          forall key
            ensures Matches(GlobPattern(pattern), key)
          {
            StarMatchesAll(key);
          }
        }
      }
    }
  }

  lemma {:induction false} StarMatchesAll(key: string)
    ensures Matches(GlobPattern("*"), key)
  {
    assert "*"[1..] == "";
    if key != "" {
      StarMatchesAll(key[1..]);
    }
  }
}
