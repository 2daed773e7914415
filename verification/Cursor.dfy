/** The opaque list cursor: base64url over the JSON text of an offset. */
module Cursor {
  import opened Wrappers
  import opened JsText

  type Byte = n: nat | n < 256
  type Sextet = n: nat | n < 64

  // ---------------------------------------------------------------- base64

  function EncodeChar(v: Sextet): char {
    if v < 26 then ('A' as int + v) as char
    else if v < 52 then ('a' as int + v - 26) as char
    else if v < 62 then ('0' as int + v - 52) as char
    else if v == 62 then '+' else '/'
  }

  /** None for a character the decoder skips. */
  function DecodeChar(c: char): Option<Sextet> {
    if 'A' <= c <= 'Z' then Some(c as int - 'A' as int)
    else if 'a' <= c <= 'z' then Some(c as int - 'a' as int + 26)
    else if '0' <= c <= '9' then Some(c as int - '0' as int + 52)
    else if c == '+' || c == '-' then Some(62)
    else if c == '/' || c == '_' then Some(63)
    else None
  }

  /** The six-bit groups of a byte string, three bytes to four groups. */
  function Sextets(data: seq<Byte>): seq<Sextet> {
    if |data| == 0 then []
    else if |data| == 1 then [data[0] / 4, (data[0] % 4) * 16]
    else if |data| == 2 then [data[0] / 4, (data[0] % 4) * 16 + data[1] / 16, (data[1] % 16) * 4]
    else [data[0] / 4, (data[0] % 4) * 16 + data[1] / 16, (data[1] % 16) * 4 + data[2] / 64, data[2] % 64]
         + Sextets(data[3..])
  }

  function FirstByte(a: Sextet, b: Sextet): Byte { a * 4 + b / 16 }

  function SecondByte(b: Sextet, c: Sextet): Byte { (b % 16) * 16 + c / 4 }

  function ThirdByte(c: Sextet, d: Sextet): Byte { (c % 4) * 64 + d }

  /** Four groups to three bytes; a tail of two or three groups gives one or two. */
  function Bytes(q: seq<Sextet>): seq<Byte> {
    if |q| < 2 then []
    else if |q| == 2 then [FirstByte(q[0], q[1])]
    else if |q| == 3 then [FirstByte(q[0], q[1]), SecondByte(q[1], q[2])]
    else [FirstByte(q[0], q[1]), SecondByte(q[1], q[2]), ThirdByte(q[2], q[3])] + Bytes(q[4..])
  }

  function Chars(q: seq<Sextet>): (s: string)
    ensures |s| == |q|
  {
    if q == [] then "" else [EncodeChar(q[0])] + Chars(q[1..])
  }

  function Repeat(c: char, n: nat): (s: string)
    ensures |s| == n
  {
    if n == 0 then "" else [c] + Repeat(c, n - 1)
  }

  /** How many '=' bring a length to a multiple of four. */
  function PadCount(n: nat): nat {
    (4 - n % 4) % 4
  }

  /** `Buffer.from(data).toString('base64')` */
  function Base64(data: seq<Byte>): string {
    var s := Chars(Sextets(data));
    s + Repeat('=', PadCount(|s|))
  }

  /** `Buffer.from(text, 'base64')`: characters outside the alphabet are skipped. */
  function ReadSextets(s: string): seq<Sextet> {
    if s == "" then []
    else (match DecodeChar(s[0]) case Some(v) => [v] case None => []) + ReadSextets(s[1..])
  }

  function FromBase64(s: string): seq<Byte> {
    Bytes(ReadSextets(s))
  }

  function StripPadding(s: string): string {
    if s != "" && s[|s| - 1] == '=' then StripPadding(s[..|s| - 1]) else s
  }

  function ToB64Url(data: seq<Byte>): string {
    StripPadding(ReplaceAll(ReplaceAll(Base64(data), '+', '-'), '/', '_'))
  }

  function FromB64Url(text: string): seq<Byte> {
    var b64 := ReplaceAll(ReplaceAll(text, '-', '+'), '_', '/');
    FromBase64(b64 + Repeat('=', PadCount(|b64|)))
  }

  lemma {:induction false} RepeatSnoc(c: char, n: nat)
    ensures Repeat(c, n + 1) == Repeat(c, n) + [c]
  {
    if n > 0 {
      RepeatSnoc(c, n - 1);
    }
  }

  /** The decoder with its padding loop. */
  method DecodeB64Url(text: string) returns (data: seq<Byte>)
    ensures data == FromB64Url(text)
  {
    var b64 := ReplaceAll(ReplaceAll(text, '-', '+'), '_', '/');
    ghost var start := b64;
    ghost var added: nat := 0;
    while |b64| % 4 != 0
      invariant b64 == start + Repeat('=', added)
      invariant added <= PadCount(|start|)
      decreases PadCount(|start|) - added
    {
      RepeatSnoc('=', added);
      b64 := b64 + "=";
      added := added + 1;
    }
    assert added == PadCount(|start|);
    data := FromBase64(b64);
  }

  lemma {:induction false} BytesOfSextets(data: seq<Byte>)
    ensures Bytes(Sextets(data)) == data
  {
    if |data| >= 3 {
      BytesOfSextets(data[3..]);
      assert Sextets(data)[4..] == Sextets(data[3..]);
      assert data == [data[0], data[1], data[2]] + data[3..];
    }
  }

  lemma {:induction false} SextetsCount(data: seq<Byte>)
    ensures |Sextets(data)| == (4 * |data| + 2) / 3
  {
    if |data| >= 3 {
      SextetsCount(data[3..]);
    }
  }

  function UrlChar(c: char): char {
    if c == '+' then '-' else if c == '/' then '_' else c
  }

  function UrlChars(q: seq<Sextet>): (s: string)
    ensures |s| == |q|
  {
    if q == [] then "" else [UrlChar(EncodeChar(q[0]))] + UrlChars(q[1..])
  }

  /** The alphabet of section 5 of RFC 4648. */
  predicate UrlSafe(c: char) {
    'A' <= c <= 'Z' || 'a' <= c <= 'z' || '0' <= c <= '9' || c == '-' || c == '_'
  }

  lemma {:induction false} UrlCharsAreSafe(q: seq<Sextet>)
    ensures forall i :: 0 <= i < |q| ==> UrlSafe(UrlChars(q)[i])
  {
    if q != [] {
      UrlCharsAreSafe(q[1..]);
    }
  }

  lemma {:induction false} ReplaceConcat(a: string, b: string, from: char, to: char)
    ensures ReplaceAll(a + b, from, to) == ReplaceAll(a, from, to) + ReplaceAll(b, from, to)
  {
    if a == "" {
      assert a + b == b;
    } else {
      assert (a + b)[1..] == a[1..] + b;
      ReplaceConcat(a[1..], b, from, to);
    }
  }

  lemma {:induction false} UrlOfChars(q: seq<Sextet>)
    ensures ReplaceAll(ReplaceAll(Chars(q), '+', '-'), '/', '_') == UrlChars(q)
  {
    hide EncodeChar;
    if q != [] {
      UrlOfChars(q[1..]);
      var c := EncodeChar(q[0]);
      ReplaceStep(c, Chars(q[1..]), '+', '-');
      ReplaceStep(if c == '+' then '-' else c, ReplaceAll(Chars(q[1..]), '+', '-'), '/', '_');
    }
  }

  lemma {:induction false} PadUntouched(pad: string, from: char, to: char)
    requires from != '=' && forall i :: 0 <= i < |pad| ==> pad[i] == '='
    ensures ReplaceAll(pad, from, to) == pad
  {
    if pad != "" {
      PadUntouched(pad[1..], from, to);
    }
  }

  lemma {:induction false} StripsPadding(s: string, n: nat)
    requires forall i :: 0 <= i < |s| ==> s[i] != '='
    ensures StripPadding(s + Repeat('=', n)) == s
  {
    if n == 0 {
      assert s + "" == s;
    } else {
      RepeatSnoc('=', n - 1);
      var t := s + Repeat('=', n);
      assert t[|t| - 1] == '=' && t[..|t| - 1] == s + Repeat('=', n - 1);
      StripsPadding(s, n - 1);
    }
  }

  lemma {:induction false} RepeatIsPad(n: nat)
    ensures forall i :: 0 <= i < n ==> Repeat('=', n)[i] == '='
  {
    if n > 0 {
      RepeatIsPad(n - 1);
    }
  }

  /** The url form is the unpadded characters alone: every one in the safe alphabet, and none wasted. */
  lemma ToB64UrlIsSafe(data: seq<Byte>)
    ensures ToB64Url(data) == UrlChars(Sextets(data))
    ensures forall i :: 0 <= i < |ToB64Url(data)| ==> UrlSafe(ToB64Url(data)[i])
    ensures |ToB64Url(data)| == (4 * |data| + 2) / 3
  {
    var q := Sextets(data);
    var n := PadCount(|q|);
    var pad := Repeat('=', n);
    RepeatIsPad(n);
    ReplaceConcat(Chars(q), pad, '+', '-');
    ReplaceConcat(ReplaceAll(Chars(q), '+', '-'), ReplaceAll(pad, '+', '-'), '/', '_');
    PadUntouched(pad, '+', '-');
    PadUntouched(pad, '/', '_');
    UrlOfChars(q);
    UrlCharsAreSafe(q);
    StripsPadding(UrlChars(q), n);
    SextetsCount(data);
  }

  const UPPER := "ABCDEFGHIJKLMNOPQRSTUVWXYZ"
  const LOWER := "abcdefghijklmnopqrstuvwxyz"
  const OTHERS := "0123456789-_"

  lemma AlphabetAt(v: Sextet)
    ensures |UPPER| == |LOWER| == 26 && |OTHERS| == 12
    ensures UrlChar(EncodeChar(v)) == if v < 26 then UPPER[v] else if v < 52 then LOWER[v - 26] else OTHERS[v - 52]
  {
    assert forall i :: 0 <= i < 26 ==> UPPER[i] as int == 'A' as int + i;
    assert forall i :: 0 <= i < 26 ==> LOWER[i] as int == 'a' as int + i;
    assert forall i :: 0 <= i < 10 ==> OTHERS[i] as int == '0' as int + i;
  }

  lemma {:induction false} UrlCharsAt(q: seq<Sextet>, i: nat)
    requires i < |q|
    ensures UrlChars(q)[i] == UrlChar(EncodeChar(q[i]))
  {
    hide EncodeChar, UrlChar;
    if i > 0 {
      UrlCharsAt(q[1..], i - 1);
    }
  }

  /** The encoding of section 5 of RFC 4648: each three bytes, as a number in base 256, are four digits in base 64, a
      shorter group at the end is filled up with zero bits, and every digit is written by its place in the alphabet. */
  lemma EncodesByDigits(data: seq<Byte>)
    ensures var q: seq<int>, d: seq<int>, text := Sextets(data), data, ToB64Url(data);
            && |text| == |q| && |UPPER| == |LOWER| == 26 && |OTHERS| == 12
            && (forall i :: 0 <= i < |q| ==>
                  text[i] == if q[i] < 26 then UPPER[q[i]] else if q[i] < 52 then LOWER[q[i] - 26] else OTHERS[q[i] - 52])
            && (|data| >= 3 ==>
                  && |q| >= 4 && q[4..] == Sextets(data[3..])
                  && q[0] * 262144 + q[1] * 4096 + q[2] * 64 + q[3] == d[0] * 65536 + d[1] * 256 + d[2])
            && (|data| == 2 ==> |q| == 3 && q[0] * 4096 + q[1] * 64 + q[2] == (d[0] * 256 + d[1]) * 4)
            && (|data| == 1 ==> |q| == 2 && q[0] * 64 + q[1] == d[0] * 16)
            && (|data| == 0 ==> |q| == 0)
  {
    ToB64UrlIsSafe(data);
    AlphabetAt(0);
    hide EncodeChar, UrlChar, UPPER, LOWER, OTHERS;
    forall i | 0 <= i < |Sextets(data)|
      ensures var v := Sextets(data)[i];
              UrlChars(Sextets(data))[i] == if v < 26 then UPPER[v] else if v < 52 then LOWER[v - 26] else OTHERS[v - 52]
    {
      AlphabetAt(Sextets(data)[i]);
      UrlCharsAt(Sextets(data), i);
    }
  }

  lemma {:induction false} UrlCharsRestored(q: seq<Sextet>)
    ensures ReplaceAll(ReplaceAll(UrlChars(q), '-', '+'), '_', '/') == Chars(q)
  {
    if q != [] {
      UrlCharsRestored(q[1..]);
      var c := UrlChar(EncodeChar(q[0]));
      ReplaceStep(c, UrlChars(q[1..]), '-', '+');
      ReplaceStep(if c == '-' then '+' else c, ReplaceAll(UrlChars(q[1..]), '-', '+'), '_', '/');
    }
  }

  lemma {:induction false} ReadsPadded(q: seq<Sextet>, n: nat)
    ensures ReadSextets(Chars(q) + Repeat('=', n)) == q
    decreases |q|, n
  {
    var s := Chars(q) + Repeat('=', n);
    if q == [] {
      if n > 0 {
        ReadsPadded(q, n - 1);
        assert s[1..] == Chars(q) + Repeat('=', n - 1);
      }
    } else {
      ReadsPadded(q[1..], n);
      assert s[1..] == Chars(q[1..]) + Repeat('=', n);
      assert DecodeChar(EncodeChar(q[0])) == Some(q[0]);
    }
  }

  /** Decoding undoes encoding on every byte sequence. */
  lemma Base64UrlRoundTrip(data: seq<Byte>)
    ensures FromB64Url(ToB64Url(data)) == data
  {
    ToB64UrlIsSafe(data);
    var q := Sextets(data);
    UrlCharsRestored(q);
    ReadsPadded(q, PadCount(|q|));
    BytesOfSextets(data);
  }

  // ---------------------------------------------------------------- the cursor

  datatype Json =
    | JNull
    | JBool(b: bool)
    | JNumber(n: real)
    | JString(s: string)
    | JArray(items: seq<Json>)
    | JObject(fields: map<string, Json>)

  /** The bytes of `{"offset":n}`, all ASCII. */
  function CursorText(offset: nat): string {
    "{\"offset\":" + Decimal(offset) + "}"
  }

  function Ascii(s: string): (data: seq<Byte>)
    requires forall i :: 0 <= i < |s| ==> s[i] < '\U{0100}'
    ensures |data| == |s| && forall i :: 0 <= i < |s| ==> data[i] == s[i] as int
  {
    if s == "" then [] else [s[0] as int] + Ascii(s[1..])
  }

  function CursorBytes(offset: nat): seq<Byte> {
    Ascii(CursorText(offset))
  }

  function EncodeCursor(offset: nat): string {
    ToB64Url(CursorBytes(offset))
  }

  /** `parse` stands for UTF-8 decoding and `JSON.parse`; None is an exception. */
  function DecodeCursor(parse: seq<Byte> -> Option<Json>, cursor: string): nat {
    match parse(FromB64Url(cursor))
    case Some(JObject(fields)) =>
      if "offset" in fields && fields["offset"].JNumber? then
        var n := fields["offset"].n;
        if n >= 0.0 && n == n.Floor as real then n.Floor else 0
      else 0
    case _ => 0
  }

  /** What is asked of the JSON parser: it reads back the texts that cursors are made of. */
  ghost predicate ReadsCursors(parse: seq<Byte> -> Option<Json>) {
    forall n: nat :: parse(CursorBytes(n)) == Some(JObject(map["offset" := JNumber(n as real)]))
  }

  /** A cursor decodes to the offset it was made from. */
  lemma CursorRoundTrip(parse: seq<Byte> -> Option<Json>, offset: nat)
    requires ReadsCursors(parse)
    ensures DecodeCursor(parse, EncodeCursor(offset)) == offset
  {
    Base64UrlRoundTrip(CursorBytes(offset));
  }

  /** A cursor leads past the beginning exactly when its text parses to an object with that whole offset; every
      other input, parsable or not, starts from the beginning. */
  lemma CursorDecodesIff(parse: seq<Byte> -> Option<Json>, cursor: string, n: nat)
    requires n > 0
    ensures DecodeCursor(parse, cursor) == n
            <==> exists fields :: parse(FromB64Url(cursor)) == Some(JObject(fields))
                                  && "offset" in fields && fields["offset"] == JNumber(n as real)
  {
    var json := parse(FromB64Url(cursor));
    if json.Some? && json.value.JObject? && "offset" in json.value.fields {
      var fields := json.value.fields;
      assert json == Some(JObject(fields));
      if fields["offset"].JNumber? {
        assert DecodeCursor(parse, cursor) == n <==> fields["offset"].n == n as real;
      }
    }
  }

  /** The bytes under a cursor are those of a JSON object whose one field is the offset. */
  lemma CursorIsJson(offset: nat)
    ensures FromB64Url(EncodeCursor(offset)) == Ascii("{\"offset\":" + Decimal(offset) + "}")
    ensures DigitValue(Decimal(offset)) == offset
  {
    Base64UrlRoundTrip(CursorBytes(offset));
    DigitValueOfDecimal(offset);
  }
}
