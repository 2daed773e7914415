/** Tool-name patterns of the cache plugin: exact names, or wildcards turned into a regular expression. */
module ToolPattern {
  import opened JsText

  /** Regular expressions of literals and `.*`, anchored at both ends; Operator is one that uses anything else. */
  datatype Regex = End | Lit(c: char, rest: Regex) | DotStar(rest: Regex) | Operator

  const SPECIALS := ".+?^${}()|[]\\"

  /** The characters that mean something in a regular expression when no backslash precedes them. */
  const SYNTAX := "^$\\.*+?()[]{}|"

  /** `.replace(/[.+?^${}()|[\]\\]/g, '\\$&')` */
  function EscapeSpecials(s: string): string {
    if s == "" then "" else (if s[0] in SPECIALS then "\\" + [s[0]] else [s[0]]) + EscapeSpecials(s[1..])
  }

  /** Every `*` becomes `.*`. */
  function StarsToDotStars(s: string): string {
    if s == "" then "" else (if s[0] == '*' then ".*" else [s[0]]) + StarsToDotStars(s[1..])
  }

  /** How a regular expression reads, up to its first operator other than `.*`. */
  function ReadRegex(s: string): Regex {
    if s == "" then End
    else if s[0] == '\\' && |s| > 1 then Lit(s[1], ReadRegex(s[2..]))
    else if s[0] == '.' && |s| > 1 && s[1] == '*' then DotStar(ReadRegex(s[2..]))
    else if s[0] in SYNTAX then Operator
    else Lit(s[0], ReadRegex(s[1..]))
  }

  /** The dot does not match a line break. */
  predicate RegexMatches(r: Regex, s: string)
    decreases r, |s|
  {
    match r
    case End => s == ""
    case Lit(c, rest) => s != "" && s[0] == c && RegexMatches(rest, s[1..])
    case Operator => false
    case DotStar(rest) => RegexMatches(rest, s) || (s != "" && !IsLineBreak(s[0]) && RegexMatches(r, s[1..]))
  }

  predicate PatternMatches(pattern: string, toolName: string) {
    if '*' in pattern then RegexMatches(ReadRegex(StarsToDotStars(EscapeSpecials(pattern))), toolName)
    else pattern == toolName
  }

  method MatchesToolPattern(toolName: string, patterns: seq<string>) returns (some: bool)
    ensures some <==> exists p :: p in patterns && WildcardMatch(p, toolName)
  {
    for i := 0 to |patterns|
      invariant forall j :: 0 <= j < i ==> !WildcardMatch(patterns[j], toolName)
    {
      PatternIsWildcard(patterns[i], toolName);
      if PatternMatches(patterns[i], toolName) {
        return true;
      }
    }
    return false;
  }

  /** What the plugin documents: `*` stands for any text (on one line), every other character for itself. */
  predicate WildcardMatch(pattern: string, s: string)
    decreases |pattern|, |s|
  {
    if pattern == "" then s == ""
    else if pattern[0] == '*' then
      WildcardMatch(pattern[1..], s) || (s != "" && !IsLineBreak(s[0]) && WildcardMatch(pattern, s[1..]))
    else s != "" && s[0] == pattern[0] && WildcardMatch(pattern[1..], s[1..])
  }

  function Wildcard(pattern: string): Regex {
    if pattern == "" then End
    else if pattern[0] == '*' then DotStar(Wildcard(pattern[1..]))
    else Lit(pattern[0], Wildcard(pattern[1..]))
  }

  lemma StarsCons(c: char, s: string)
    ensures StarsToDotStars([c] + s) == (if c == '*' then ".*" else [c]) + StarsToDotStars(s)
  {
    assert ([c] + s)[1..] == s;
  }

  lemma TranslateStep(pattern: string)
    requires pattern != ""
    ensures var c, rest := pattern[0], StarsToDotStars(EscapeSpecials(pattern[1..]));
            StarsToDotStars(EscapeSpecials(pattern)) ==
              if c == '*' then ".*" + rest else if c in SPECIALS then "\\" + [c] + rest else [c] + rest
  {
    hide SPECIALS, StarsToDotStars;
    var c, e := pattern[0], EscapeSpecials(pattern[1..]);
    StarsCons(c, e);
    if c in SPECIALS {
      StarIsNotSpecial();
      StarsCons('\\', [c] + e);
      assert EscapeSpecials(pattern) == ['\\'] + ([c] + e);
      assert ['\\'] + ([c] + StarsToDotStars(e)) == "\\" + [c] + StarsToDotStars(e);
    } else {
      assert EscapeSpecials(pattern) == [c] + e;
    }
  }

  lemma StarIsNotSpecial()
    ensures '*' !in SPECIALS && '.' in SPECIALS && '\\' in SPECIALS
  {
    assert SPECIALS[0] == '.' && SPECIALS[12] == '\\';
  }

  /** What is not escaped needs no escape. */
  lemma OthersArePlain(c: char)
    requires c !in SPECIALS && c != '*'
    ensures c !in SYNTAX
  {
    var first, second := "^$\\.*+?", "()[]{}|";
    assert SYNTAX == first + second;
    var low, high := ".+?^${}", "()|[]\\";
    assert SPECIALS == low + high;
    assert c in low <==> c == '.' || c == '+' || c == '?' || c == '^' || c == '$' || c == '{' || c == '}';
    assert c in high <==> c == '(' || c == ')' || c == '|' || c == '[' || c == ']' || c == '\\';
    assert c in first ==> c == '^' || c == '$' || c == '\\' || c == '.' || c == '*' || c == '+' || c == '?';
    assert c in second ==> c == '(' || c == ')' || c == '[' || c == ']' || c == '{' || c == '}' || c == '|';
  }

  /** No character of a pattern but `*` means anything to the regular expression made of it. */
  lemma {:induction false} TranslationIsWildcard(pattern: string)
    ensures ReadRegex(StarsToDotStars(EscapeSpecials(pattern))) == Wildcard(pattern)
  {
    if pattern != "" {
      TranslateStep(pattern);
      TranslationIsWildcard(pattern[1..]);
      StarIsNotSpecial();
      var c, rest := pattern[0], StarsToDotStars(EscapeSpecials(pattern[1..]));
      if c !in SPECIALS && c != '*' {
        OthersArePlain(c);
      }
      hide SPECIALS, SYNTAX, StarsToDotStars, EscapeSpecials;
      assert (".*" + rest)[2..] == rest && ("\\" + [c] + rest)[2..] == rest && ([c] + rest)[1..] == rest;
    }
  }

  lemma {:induction false} WildcardMeans(pattern: string, s: string)
    ensures RegexMatches(Wildcard(pattern), s) <==> WildcardMatch(pattern, s)
    decreases |pattern|, |s|
  {
    if pattern != "" {
      WildcardMeans(pattern[1..], s);
      if s != "" {
        WildcardMeans(pattern[1..], s[1..]);
        WildcardMeans(pattern, s[1..]);
      }
    }
  }

  lemma {:induction false} ExactMeans(pattern: string, s: string)
    requires '*' !in pattern
    ensures WildcardMatch(pattern, s) <==> pattern == s
  {
    if pattern != "" && s != "" {
      ExactMeans(pattern[1..], s[1..]);
      assert pattern == [pattern[0]] + pattern[1..] && s == [s[0]] + s[1..];
    }
  }

  /** Every pattern matches exactly the names its wildcards describe. */
  lemma PatternIsWildcard(pattern: string, toolName: string)
    ensures PatternMatches(pattern, toolName) <==> WildcardMatch(pattern, toolName)
  {
    if '*' in pattern {
      TranslationIsWildcard(pattern);
      WildcardMeans(pattern, toolName);
    } else {
      ExactMeans(pattern, toolName);
    }
  }
}
