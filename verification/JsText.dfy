/** The text operations of the JavaScript runtime that the stores rely on: `String(n)` for
    integers, `parseInt(s, 10)`, `split(':').pop()`, and the orders of texts. */
module JsText {
  import opened Wrappers

  predicate IsDigit(c: char) {
    '0' <= c <= '9'
  }

  /** What `trim` removes and `\s` matches. */
  predicate IsSpace(c: char) {
    || '\t' <= c <= '\r' || c == ' ' || c == '\U{00A0}' || c == '\U{1680}' || '\U{2000}' <= c <= '\U{200A}'
    || c == '\U{2028}' || c == '\U{2029}' || c == '\U{202F}' || c == '\U{205F}' || c == '\U{3000}' || c == '\U{FEFF}'
  }

  /** What `.` does not match. */
  predicate IsLineBreak(c: char) {
    c == '\n' || c == '\r' || c == '\U{2028}' || c == '\U{2029}'
  }

  ghost predicate AllDigits(s: string) {
    forall i :: 0 <= i < |s| ==> IsDigit(s[i])
  }

  function DigitChar(d: nat): (c: char)
    requires d < 10
    ensures IsDigit(c) && c as int - '0' as int == d
  {
    ('0' as int + d) as char
  }

  /** `String(n)` for a non-negative integer. */
  function Decimal(n: nat): (s: string)
    ensures s != "" && AllDigits(s)
  {
    if n < 10 then [DigitChar(n)] else Decimal(n / 10) + [DigitChar(n % 10)]
  }

  function DigitValue(s: string): nat
    requires AllDigits(s)
  {
    if s == "" then 0
    else DigitValue(s[..|s| - 1]) * 10 + (s[|s| - 1] as int - '0' as int)
  }

  /** `String(n)` for any integer. */
  function IntText(n: int): string {
    if n < 0 then "-" + Decimal(-n) else Decimal(n)
  }

  function LeadingDigits(s: string): (d: string)
    ensures AllDigits(d)
  {
    if s != "" && IsDigit(s[0]) then [s[0]] + LeadingDigits(s[1..]) else ""
  }

  function SkipSpace(s: string): (t: string)
    ensures |t| <= |s|
  {
    if s != "" && IsSpace(s[0]) then SkipSpace(s[1..]) else s
  }

  /** `parseInt(s, 10)`: leading white space, an optional sign, the longest run of digits; None is NaN. */
  function ParseInt(s: string): Option<int> {
    var t := SkipSpace(s);
    var negative := t != "" && t[0] == '-';
    var digits := LeadingDigits(if t != "" && (t[0] == '-' || t[0] == '+') then t[1..] else t);
    var magnitude: int := if digits == "" then 0 else DigitValue(digits);
    if digits == "" then None else Some(if negative then -magnitude else magnitude)
  }

  lemma {:induction false} DigitValueOfDecimal(n: nat)
    ensures DigitValue(Decimal(n)) == n
  {
    if n >= 10 {
      DigitValueOfDecimal(n / 10);
      assert Decimal(n)[..|Decimal(n)| - 1] == Decimal(n / 10);
    }
  }

  lemma {:induction false} LeadingDigitsOfDigits(s: string)
    requires AllDigits(s)
    ensures LeadingDigits(s) == s
  {
    if s != "" {
      LeadingDigitsOfDigits(s[1..]);
    }
  }

  /** Reading a printed integer gives it back. */
  lemma {:induction false} ParseIntOfText(n: int)
    ensures ParseInt(IntText(n)) == Some(n)
  {
    var m := if n < 0 then -n else n;
    DigitValueOfDecimal(m);
    LeadingDigitsOfDigits(Decimal(m));
    NotSpace(Decimal(m)[0]);
    hide IsSpace, Decimal, DigitValue, LeadingDigits;
    assert IsDigit(Decimal(m)[0]);
    if n < 0 {
      NotSpace('-');
      assert IntText(n)[1..] == Decimal(m);
    }
  }

  /** `parseInt` skips white space, takes one sign if there is one, and reads digits up to the first other character; a
      text with no digit there is not a number. */
  lemma ParseIntReads(spaces: string, sign: string, digits: string, rest: string)
    requires (forall i :: 0 <= i < |spaces| ==> IsSpace(spaces[i])) && sign in {"", "-", "+"} && AllDigits(digits)
    requires rest != "" ==> !IsDigit(rest[0])
    requires sign == digits == "" && rest != "" ==> !IsSpace(rest[0]) && rest[0] != '-' && rest[0] != '+'
    ensures var n: int := DigitValue(digits);
            ParseInt(spaces + (sign + (digits + rest)))
            == if digits == "" then None else Some(if sign == "-" then -n else n)
  {
    hide IsSpace, LeadingDigits, DigitValue, AllDigits, IsDigit, SkipSpace;
    var t := sign + (digits + rest);
    assert t != "" ==> !IsSpace(t[0]) by {
      FirstNotSpace(sign, digits, rest);
    }
    SkipLeading(spaces, t);
    LeadingDigitsThen(digits, rest);
    assert sign == "" ==> t == digits + rest;
    assert sign != "" ==> t[1..] == digits + rest;
    assert sign == "" && digits != "" ==> t[0] != '-' && t[0] != '+' by {
      FirstDigit(digits, rest);
    }
  }

  lemma FirstNotSpace(sign: string, digits: string, rest: string)
    requires sign in {"", "-", "+"} && AllDigits(digits)
    requires sign == digits == "" && rest != "" ==> !IsSpace(rest[0])
    ensures var t := sign + (digits + rest); t != "" ==> !IsSpace(t[0])
  {
    var t := sign + (digits + rest);
    if sign != "" || digits != "" {
      NotSpace(t[0]);
    }
  }

  lemma FirstDigit(digits: string, rest: string)
    requires AllDigits(digits)
    ensures digits != "" ==> var c := ("" + (digits + rest))[0]; c != '-' && c != '+'
  {
  }

  lemma {:induction false} SkipLeading(spaces: string, s: string)
    requires (forall i :: 0 <= i < |spaces| ==> IsSpace(spaces[i])) && (s != "" ==> !IsSpace(s[0]))
    ensures SkipSpace(spaces + s) == s
  {
    hide IsSpace;
    if spaces == "" {
      assert spaces + s == s;
    } else {
      assert (spaces + s)[1..] == spaces[1..] + s;
      SkipLeading(spaces[1..], s);
    }
  }

  lemma {:induction false} LeadingDigitsThen(digits: string, rest: string)
    requires AllDigits(digits) && (rest != "" ==> !IsDigit(rest[0]))
    ensures LeadingDigits(digits + rest) == digits
  {
    if digits == "" {
      assert digits + rest == rest;
    } else {
      assert (digits + rest)[1..] == digits[1..] + rest;
      LeadingDigitsThen(digits[1..], rest);
    }
  }

  lemma NotSpace(c: char)
    ensures IsDigit(c) || c == '-' || c == '+' ==> !IsSpace(c)
  {
  }

  /** `s.split(':').pop()`: what follows the last colon, or all of a string without one. */
  function AfterLastColon(s: string): string {
    if s == "" || s[|s| - 1] == ':' then ""
    else AfterLastColon(s[..|s| - 1]) + [s[|s| - 1]]
  }

  lemma {:induction false} AfterLastColonOfPair(prefix: string, last: string)
    requires ':' !in last
    ensures AfterLastColon(prefix + ":" + last) == last
  {
    var s := prefix + ":" + last;
    if last != "" {
      var init := last[..|last| - 1];
      assert s[..|s| - 1] == prefix + ":" + init;
      AfterLastColonOfPair(prefix, init);
    }
  }

  /** `s.replace(/x/g, y)` for single characters. */
  function ReplaceAll(s: string, from: char, to: char): (t: string)
    ensures |t| == |s|
  {
    if s == "" then "" else [if s[0] == from then to else s[0]] + ReplaceAll(s[1..], from, to)
  }

  lemma ReplaceStep(c: char, s: string, from: char, to: char)
    ensures ReplaceAll([c] + s, from, to) == [if c == from then to else c] + ReplaceAll(s, from, to)
  {
    assert ([c] + s)[1..] == s;
  }

  // ---------------------------------------------------------------- orders of texts

  predicate LexLe(a: seq<int>, b: seq<int>) {
    a == [] || (b != [] && (a[0] < b[0] || (a[0] == b[0] && LexLe(a[1..], b[1..]))))
  }

  lemma {:induction false} LexLeTotal(a: seq<int>, b: seq<int>)
    ensures LexLe(a, b) || LexLe(b, a)
  {
    if a != [] && b != [] && a[0] == b[0] {
      LexLeTotal(a[1..], b[1..]);
    }
  }

  lemma {:induction false} LexLeAntisymmetric(a: seq<int>, b: seq<int>)
    requires LexLe(a, b) && LexLe(b, a)
    ensures a == b
  {
    if a != [] {
      LexLeAntisymmetric(a[1..], b[1..]);
      assert a == [a[0]] + a[1..] && b == [b[0]] + b[1..];
    }
  }

  lemma {:induction false} LexLeTransitive(a: seq<int>, b: seq<int>, c: seq<int>)
    requires LexLe(a, b) && LexLe(b, c)
    ensures LexLe(a, c)
  {
    if a != [] && a[0] == b[0] == c[0] {
      LexLeTransitive(a[1..], b[1..], c[1..]);
    }
  }

  /** The order of SQLite's BINARY collation: that of UTF-8 bytes, which is that of code points. */
  predicate TextLe(a: string, b: string) {
    LexLe(CodePoints(a), CodePoints(b))
  }

  function CodePoints(s: string): seq<int> {
    seq(|s|, i requires 0 <= i < |s| => s[i] as int)
  }

  /** The order of `Array.prototype.sort()` without a comparator: that of UTF-16 code units. */
  predicate UnitLe(a: string, b: string) {
    LexLe(CodeUnits(a), CodeUnits(b))
  }

  /** The UTF-16 form of a character: itself, or a surrogate pair beyond the basic plane. */
  function UnitsOf(c: char): seq<int> {
    var n := c as int;
    if n < 0x10000 then [n] else [0xD800 + (n - 0x10000) / 0x400, 0xDC00 + (n - 0x10000) % 0x400]
  }

  function CodeUnits(s: string): seq<int> {
    if s == "" then [] else UnitsOf(s[0]) + CodeUnits(s[1..])
  }

  /** UTF-16 reads back: texts with the same code units are the same. */
  lemma {:induction false} CodeUnitsInjective(a: string, b: string)
    requires CodeUnits(a) == CodeUnits(b)
    ensures a == b
  {
    if a != "" && b != "" {
      var u, v := UnitsOf(a[0]), UnitsOf(b[0]);
      assert CodeUnits(a)[0] == u[0] == CodeUnits(b)[0] == v[0];
      if |u| == 2 {
        assert CodeUnits(a)[1] == u[1] && CodeUnits(b)[1] == v[1];
      }
      assert u == v && a[0] == b[0];
      assert CodeUnits(a)[|u|..] == CodeUnits(a[1..]) && CodeUnits(b)[|u|..] == CodeUnits(b[1..]);
      CodeUnitsInjective(a[1..], b[1..]);
      assert a == [a[0]] + a[1..] && b == [b[0]] + b[1..];
    } else {
      assert |CodeUnits(a)| == |CodeUnits(b)|;
    }
  }
}
