/** The parts of the JavaScript runtime that the login `state` goes through:
    UTF-8 (`Buffer.from(text)` and `buf.toString()`), the unpadded base64url
    alphabet of section 5 of RFC 4648 (`'base64url'`), `JSON.stringify` of a
    string and a parser for JSON text (`JSON.parse`). Decoders here are
    strict: input that a conforming encoder would not produce is refused. */
module JsCodecs {
  import opened Common

  newtype byte = x: int | 0 <= x < 256

  // ---------------------------------------------------------------------
  // UTF-8

  predicate IsCont(b: byte) {
    0x80 <= b < 0xC0
  }

  /** The UTF-8 encoding of one Unicode scalar value. */
  function EncodeChar(c: char): (bs: seq<byte>)
    ensures 1 <= |bs| <= 4
    ensures |bs| == 1 <==> c as int < 0x80
  {
    var n := c as int;
    if n < 0x80 then [n as byte]
    else if n < 0x800 then [(0xC0 + n / 64) as byte, (0x80 + n % 64) as byte]
    else if n < 0x10000 then
      [(0xE0 + n / 4096) as byte, (0x80 + (n / 64) % 64) as byte, (0x80 + n % 64) as byte]
    else
      [(0xF0 + n / 262144) as byte, (0x80 + (n / 4096) % 64) as byte,
       (0x80 + (n / 64) % 64) as byte, (0x80 + n % 64) as byte]
  }

  function Utf8Encode(s: string): (bs: seq<byte>)
    ensures |s| <= |bs|
    decreases |s|
  {
    if s == [] then [] else EncodeChar(s[0]) + Utf8Encode(s[1..])
  }

  predicate IsScalarValue(n: int) {
    0 <= n < 0xD800 || 0xE000 <= n < 0x110000
  }

  /** The first character of `bs` and the number of bytes it takes, for a
      well-formed sequence (shortest form, no surrogates, at most U+10FFFF). */
  function DecodeChar(bs: seq<byte>): (r: Option<(char, nat)>)
    requires |bs| > 0
    ensures r.Some? ==> 1 <= r.value.1 <= |bs|
  {
    var b0 := bs[0] as int;
    if b0 < 0x80 then Some((b0 as char, 1))
    else if 0xC2 <= b0 < 0xE0 && |bs| >= 2 && IsCont(bs[1]) then
      var n := (b0 - 0xC0) * 64 + (bs[1] as int - 0x80);
      Some((n as char, 2))
    else if 0xE0 <= b0 < 0xF0 && |bs| >= 3 && IsCont(bs[1]) && IsCont(bs[2]) then
      var n := (b0 - 0xE0) * 4096 + (bs[1] as int - 0x80) * 64 + (bs[2] as int - 0x80);
      if 0x800 <= n && IsScalarValue(n) then Some((n as char, 3)) else None
    else if 0xF0 <= b0 < 0xF5 && |bs| >= 4 && IsCont(bs[1]) && IsCont(bs[2]) && IsCont(bs[3]) then
      var n := (b0 - 0xF0) * 262144 + (bs[1] as int - 0x80) * 4096
               + (bs[2] as int - 0x80) * 64 + (bs[3] as int - 0x80);
      if 0x10000 <= n < 0x110000 then Some((n as char, 4)) else None
    else None
  }

  function Utf8Decode(bs: seq<byte>): Option<string>
    decreases |bs|
  {
    if bs == [] then Some([])
    else match DecodeChar(bs)
      case None => None
      case Some((c, k)) =>
        match Utf8Decode(bs[k..])
        case None => None
        case Some(rest) => Some([c] + rest)
  }

  lemma EncodeDecodeChar(c: char, rest: seq<byte>)
    ensures DecodeChar(EncodeChar(c) + rest) == Some((c, |EncodeChar(c)|))
  {
    var n := c as int;
    if n < 0x80 {
    } else if n < 0x800 {
      TwoBytesBack(c, rest);
    } else if n < 0x10000 {
      ThreeBytesBack(c, rest);
    } else {
      FourBytesBack(c, rest);
    }
  }

  lemma TwoBytesBack(c: char, rest: seq<byte>)
    requires 0x80 <= c as int < 0x800
    ensures DecodeChar(EncodeChar(c) + rest) == Some((c, 2))
  {
    var n := c as int;
    assert (n / 64) * 64 + n % 64 == n;
  }

  lemma ThreeBytesBack(c: char, rest: seq<byte>)
    requires 0x800 <= c as int < 0x10000
    ensures DecodeChar(EncodeChar(c) + rest) == Some((c, 3))
  {
    var n := c as int;
    var hi, mid, lo := n / 4096, (n / 64) % 64, n % 64;
    assert hi * 4096 + mid * 64 + lo == n by {
      assert (n / 64) == hi * 64 + mid;
    }
  }

  lemma FourBytesBack(c: char, rest: seq<byte>)
    requires 0x10000 <= c as int
    ensures DecodeChar(EncodeChar(c) + rest) == Some((c, 4))
  {
    var n := c as int;
    var top, hi, mid, lo := n / 262144, (n / 4096) % 64, (n / 64) % 64, n % 64;
    assert top * 262144 + hi * 4096 + mid * 64 + lo == n by {
      assert n / 4096 == top * 64 + hi;
      assert n / 64 == (n / 4096) * 64 + mid;
    }
  }

  /** Decoding the UTF-8 encoding of a text gives the text back. */
  lemma {:induction false} Utf8RoundTrip(s: string)
    ensures Utf8Decode(Utf8Encode(s)) == Some(s)
    decreases |s|
  {
    if s != [] {
      var e := EncodeChar(s[0]);
      var bs := Utf8Encode(s);
      assert bs == e + Utf8Encode(s[1..]);
      EncodeDecodeChar(s[0], Utf8Encode(s[1..]));
      assert bs[|e|..] == Utf8Encode(s[1..]);
      Utf8RoundTrip(s[1..]);
      assert [s[0]] + s[1..] == s;
    }
  }

  // ---------------------------------------------------------------------
  // base64url, section 5 of RFC 4648, without padding

  function B64Char(v: int): (c: char)
    requires 0 <= v < 64
  {
    if v < 26 then ('A' as int + v) as char
    else if v < 52 then ('a' as int + (v - 26)) as char
    else if v < 62 then ('0' as int + (v - 52)) as char
    else if v == 62 then '-'
    else '_'
  }

  function B64Value(c: char): (r: Option<int>)
    ensures r.Some? ==> 0 <= r.value < 64 && B64Char(r.value) == c
  {
    if 'A' <= c <= 'Z' then Some(c as int - 'A' as int)
    else if 'a' <= c <= 'z' then Some(c as int - 'a' as int + 26)
    else if '0' <= c <= '9' then Some(c as int - '0' as int + 52)
    else if c == '-' then Some(62)
    else if c == '_' then Some(63)
    else None
  }

  lemma B64ValueOfChar(v: int)
    requires 0 <= v < 64
    ensures B64Value(B64Char(v)) == Some(v)
  {
  }

  /** Every character the encoder emits is in the URL-safe alphabet. */
  predicate IsB64Char(c: char) {
    B64Value(c).Some?
  }

  /** The four characters of one group of three bytes (the missing bytes of
      a short final group count as zero). */
  function GroupChars(b0: int, b1: int, b2: int): (s: string)
    requires 0 <= b0 < 256 && 0 <= b1 < 256 && 0 <= b2 < 256
    ensures |s| == 4 && forall i :: 0 <= i < 4 ==> IsB64Char(s[i])
  {
    B64ValueOfChar(b0 / 4);
    B64ValueOfChar((b0 % 4) * 16 + b1 / 16);
    B64ValueOfChar((b1 % 16) * 4 + b2 / 64);
    B64ValueOfChar(b2 % 64);
    [B64Char(b0 / 4), B64Char((b0 % 4) * 16 + b1 / 16),
     B64Char((b1 % 16) * 4 + b2 / 64), B64Char(b2 % 64)]
  }

  /** `buf.toString('base64url')`: no padding, so a final group of one byte
      takes two characters and one of two bytes three. */
  function B64Encode(bs: seq<byte>): (s: string)
    ensures forall i :: 0 <= i < |s| ==> IsB64Char(s[i])
    decreases |bs|
  {
    if |bs| == 0 then ""
    else if |bs| == 1 then GroupChars(bs[0] as int, 0, 0)[..2]
    else if |bs| == 2 then GroupChars(bs[0] as int, bs[1] as int, 0)[..3]
    else GroupChars(bs[0] as int, bs[1] as int, bs[2] as int) + B64Encode(bs[3..])
  }

  /** `Buffer.from(s, 'base64url')` on text in the alphabet; a text of length
      1 modulo 4 or with a character outside the alphabet is refused. */
  function B64Decode(s: string): Option<seq<byte>>
    decreases |s|
  {
    if |s| == 0 then Some([])
    else if |s| == 1 then None
    else
      var v0 := B64Value(s[0]);
      var v1 := B64Value(s[1]);
      var v2 := if |s| > 2 then B64Value(s[2]) else Some(0);
      var v3 := if |s| > 3 then B64Value(s[3]) else Some(0);
      if v0.None? || v1.None? || v2.None? || v3.None? then None
      else
        var a, b, c, d := v0.value, v1.value, v2.value, v3.value;
        var b0 := (a * 4 + b / 16) as byte;
        var b1 := ((b % 16) * 16 + c / 4) as byte;
        var b2 := ((c % 4) * 64 + d) as byte;
        if |s| == 2 then Some([b0])
        else if |s| == 3 then Some([b0, b1])
        else match B64Decode(s[4..])
          case None => None
          case Some(rest) => Some([b0, b1, b2] + rest)
  }

  /** The bytes of one group survive the trip through four sextets. */
  lemma GroupRoundTrip(b0: int, b1: int, b2: int)
    requires 0 <= b0 < 256 && 0 <= b1 < 256 && 0 <= b2 < 256
    ensures var a, b, c, d := b0 / 4, (b0 % 4) * 16 + b1 / 16, (b1 % 16) * 4 + b2 / 64, b2 % 64;
            && a * 4 + b / 16 == b0
            && (b % 16) * 16 + c / 4 == b1
            && (c % 4) * 64 + d == b2
  {
    var b, c := (b0 % 4) * 16 + b1 / 16, (b1 % 16) * 4 + b2 / 64;
    assert b / 16 == b0 % 4 && b % 16 == b1 / 16;
    assert c / 4 == b1 % 16 && c % 4 == b2 / 64;
  }

  /** A whole group followed by more text decodes to its three bytes followed
      by whatever the rest decodes to. */
  lemma GroupBack(b0: int, b1: int, b2: int, rest: string)
    requires 0 <= b0 < 256 && 0 <= b1 < 256 && 0 <= b2 < 256
    ensures B64Decode(GroupChars(b0, b1, b2) + rest) ==
            match B64Decode(rest)
            case None => None
            case Some(r) => Some([b0 as byte, b1 as byte, b2 as byte] + r)
  {
    GroupRoundTrip(b0, b1, b2);
    var g := GroupChars(b0, b1, b2);
    var s := g + rest;
    var a, b, c, d := b0 / 4, (b0 % 4) * 16 + b1 / 16, (b1 % 16) * 4 + b2 / 64, b2 % 64;
    B64ValueOfChar(a);
    B64ValueOfChar(b);
    B64ValueOfChar(c);
    B64ValueOfChar(d);
    assert s[0] == g[0] && s[1] == g[1] && s[2] == g[2] && s[3] == g[3];
    assert s[4..] == rest;
    DecodeGroup(s, a, b, c, d);
  }

  /** A text of four or more characters decodes its first group, then the
      rest. */
  lemma DecodeGroup(s: string, a: int, b: int, c: int, d: int)
    requires |s| >= 4
    requires B64Value(s[0]) == Some(a) && B64Value(s[1]) == Some(b)
    requires B64Value(s[2]) == Some(c) && B64Value(s[3]) == Some(d)
    ensures B64Decode(s) ==
            match B64Decode(s[4..])
            case None => None
            case Some(r) => Some([(a * 4 + b / 16) as byte, ((b % 16) * 16 + c / 4) as byte,
                                  ((c % 4) * 64 + d) as byte] + r)
  {
  }

  /** A final group of one or two bytes decodes to those bytes. */
  lemma ShortGroupBack(b0: int, b1: int)
    requires 0 <= b0 < 256 && 0 <= b1 < 256
    ensures B64Decode(GroupChars(b0, 0, 0)[..2]) == Some([b0 as byte])
    ensures B64Decode(GroupChars(b0, b1, 0)[..3]) == Some([b0 as byte, b1 as byte])
  {
    GroupRoundTrip(b0, 0, 0);
    GroupRoundTrip(b0, b1, 0);
    B64ValueOfChar(b0 / 4);
    B64ValueOfChar((b0 % 4) * 16);
    B64ValueOfChar((b0 % 4) * 16 + b1 / 16);
    B64ValueOfChar((b1 % 16) * 4);
  }

  /** Decoding the base64url text of some bytes gives the bytes back. */
  lemma {:induction false} B64RoundTrip(bs: seq<byte>)
    ensures B64Decode(B64Encode(bs)) == Some(bs)
    decreases |bs|
  {
    if |bs| == 1 {
      ShortGroupBack(bs[0] as int, 0);
      assert bs == [bs[0]];
    } else if |bs| == 2 {
      ShortGroupBack(bs[0] as int, bs[1] as int);
      assert bs == [bs[0], bs[1]];
    } else if |bs| > 2 {
      GroupBack(bs[0] as int, bs[1] as int, bs[2] as int, B64Encode(bs[3..]));
      B64RoundTrip(bs[3..]);
      assert bs == [bs[0], bs[1], bs[2]] + bs[3..];
    }
  }

  // ---------------------------------------------------------------------
  // JSON.stringify of a string

  const HEX: string := "0123456789abcdef"

  /** How `JSON.stringify` writes one character inside a string literal. */
  function QuoteChar(c: char): (q: string)
    ensures |q| >= 1
  {
    if c == '"' then "\\\""
    else if c == '\\' then "\\\\"
    else if c == '\U{8}' then "\\b"
    else if c == '\U{C}' then "\\f"
    else if c == '\n' then "\\n"
    else if c == '\r' then "\\r"
    else if c == '\t' then "\\t"
    else if (c as int) < 0x20 then "\\u00" + [HEX[c as int / 16], HEX[c as int % 16]]
    else [c]
  }

  /** The body of a JSON string literal, without the quotes. */
  function Quote(s: string): string
    decreases |s|
  {
    if s == [] then "" else QuoteChar(s[0]) + Quote(s[1..])
  }

  // ---------------------------------------------------------------------
  // JSON.parse

  predicate IsJsonWs(c: char) {
    c == ' ' || c == '\t' || c == '\n' || c == '\r'
  }

  function SkipWs(s: string): (r: string)
    ensures |r| <= |s|
    ensures r != [] ==> !IsJsonWs(r[0])
    decreases |s|
  {
    if s != [] && IsJsonWs(s[0]) then SkipWs(s[1..]) else s
  }

  function HexValue(c: char): Option<int> {
    if '0' <= c <= '9' then Some(c as int - '0' as int)
    else if 'a' <= c <= 'f' then Some(c as int - 'a' as int + 10)
    else if 'A' <= c <= 'F' then Some(c as int - 'A' as int + 10)
    else None
  }

  /** The value of the four hex digits at the start of `s`. */
  function Hex4(s: string): (r: Option<int>)
    ensures r.Some? ==> 0 <= r.value < 0x10000
  {
    if |s| < 4 then None
    else
      match (HexValue(s[0]), HexValue(s[1]), HexValue(s[2]), HexValue(s[3]))
      case (Some(a), Some(b), Some(c), Some(d)) =>
        assert 0 <= a < 16 && 0 <= b < 16 && 0 <= c < 16 && 0 <= d < 16 by {
          assert forall ch :: HexValue(ch).Some? ==> 0 <= HexValue(ch).value < 16;
        }
        Some(((a * 16 + b) * 16 + c) * 16 + d)
      case _ => None
  }

  /** One character of a string literal at the start of `s` (which is
      neither the closing quote nor empty): the character and the rest. A
      `\u` escape of a surrogate must be a high-low pair; a lone surrogate,
      which a text of Unicode scalar values cannot hold, is refused. */
  function StringChar(s: string): (r: Option<(char, string)>)
    requires s != [] && s[0] != '"'
    ensures r.Some? ==> |r.value.1| < |s|
  {
    if s[0] == '\\' then
      if |s| < 2 then None
      else
        var e := s[1];
        if e == '"' then Some(('"', s[2..]))
        else if e == '\\' then Some(('\\', s[2..]))
        else if e == '/' then Some(('/', s[2..]))
        else if e == 'b' then Some(('\U{8}', s[2..]))
        else if e == 'f' then Some(('\U{C}', s[2..]))
        else if e == 'n' then Some(('\n', s[2..]))
        else if e == 'r' then Some(('\r', s[2..]))
        else if e == 't' then Some(('\t', s[2..]))
        else if e == 'u' then
          match Hex4(s[2..])
          case None => None
          case Some(v) =>
            if 0xD800 <= v < 0xDC00 then
              if |s| >= 12 && s[6] == '\\' && s[7] == 'u' then
                match Hex4(s[8..])
                case Some(w) =>
                  if 0xDC00 <= w < 0xE000 then
                    Some((((v - 0xD800) * 1024 + (w - 0xDC00) + 0x10000) as char, s[12..]))
                  else None
                case None => None
              else None
            else if 0xDC00 <= v < 0xE000 then None
            else Some((v as char, s[6..]))
        else None
    else if (s[0] as int) < 0x20 then None
    else Some((s[0], s[1..]))
  }

  /** The rest of a string literal after its opening quote: its text and
      what follows the closing quote. */
  function ParseString(s: string): (r: Option<(string, string)>)
    ensures r.Some? ==> |r.value.1| < |s|
    decreases |s|
  {
    if s == [] then None
    else if s[0] == '"' then Some(([], s[1..]))
    else
      match StringChar(s)
      case None => None
      case Some((c, rest)) =>
        match ParseString(rest)
        case None => None
        case Some((t, after)) => Some(([c] + t, after))
  }

  function DigitsPrefix(s: string): (n: nat)
    ensures n <= |s| && AllDigits(s[..n])
    ensures n < |s| ==> !IsDigit(s[n])
    decreases |s|
  {
    if s != [] && IsDigit(s[0]) then
      var k := DigitsPrefix(s[1..]);
      assert s[..1 + k] == [s[0]] + s[1..][..k];
      1 + k
    else 0
  }

  /** A number: `-`? (`0` | [1-9][0-9]*) (`.` [0-9]+)? ([eE] [+-]? [0-9]+)?.
      Its value is kept as the integer part; nothing here reads the value of
      a number, only that it is not a string. */
  function ParseNumber(s: string): (r: Option<(Json, string)>)
    ensures r.Some? ==> |r.value.1| < |s|
  {
    var neg := s != [] && s[0] == '-';
    var t := if neg then s[1..] else s;
    var k := DigitsPrefix(t);
    if k == 0 || (t[0] == '0' && k > 1) then None
    else
      var ip: int := DigitsValue(t[..k]);
      var u := t[k..];
      var fracOk := !(u != [] && u[0] == '.') || DigitsPrefix(u[1..]) > 0;
      var u1 := if u != [] && u[0] == '.' then u[1 + DigitsPrefix(u[1..])..] else u;
      if !fracOk then None
      else
        var hasExp := u1 != [] && (u1[0] == 'e' || u1[0] == 'E');
        var u2 := if hasExp then (if |u1| > 1 && (u1[1] == '+' || u1[1] == '-') then u1[2..] else u1[1..]) else u1;
        if hasExp && DigitsPrefix(u2) == 0 then None
        else
          var rest := if hasExp then u2[DigitsPrefix(u2)..] else u2;
          Some((JNum(if neg then -ip else ip), rest))
  }

  /** A JSON value after optional white space, and the text after it. */
  function ParseValue(s: string): (r: Option<(Json, string)>)
    ensures r.Some? ==> |r.value.1| < |s|
    decreases |s|, 2
  {
    var t := SkipWs(s);
    if t == [] then None
    else if t[0] == '{' then ParseMembers(t[1..], [], true)
    else if t[0] == '[' then ParseItems(t[1..], [], true)
    else if t[0] == '"' then
      match ParseString(t[1..])
      case None => None
      case Some((str, rest)) => Some((JStr(str), rest))
    else if StartsWith(t, "null") then Some((JNull, t[4..]))
    else if StartsWith(t, "true") then Some((JBool(true), t[4..]))
    else if StartsWith(t, "false") then Some((JBool(false), t[5..]))
    else ParseNumber(t)
  }

  /** The members of an object after `{` (or after a `,` when `first` is
      false), appended to `acc`, up to and including the closing `}`. */
  function ParseMembers(s: string, acc: seq<(string, Json)>, first: bool): (r: Option<(Json, string)>)
    ensures r.Some? ==> |r.value.1| < |s|
    decreases |s|, 1
  {
    var t := SkipWs(s);
    if first && t != [] && t[0] == '}' then Some((JObj(acc), t[1..]))
    else if t == [] || t[0] != '"' then None
    else
      match ParseString(t[1..])
      case None => None
      case Some((key, r1)) =>
        var r2 := SkipWs(r1);
        if r2 == [] || r2[0] != ':' then None
        else
          match ParseValue(r2[1..])
          case None => None
          case Some((v, r3)) =>
            var r4 := SkipWs(r3);
            if r4 == [] then None
            else if r4[0] == '}' then Some((JObj(acc + [(key, v)]), r4[1..]))
            else if r4[0] == ',' then ParseMembers(r4[1..], acc + [(key, v)], false)
            else None
  }

  /** The items of an array after `[` (or after a `,`), up to and including
      the closing `]`. */
  function ParseItems(s: string, acc: seq<Json>, first: bool): (r: Option<(Json, string)>)
    ensures r.Some? ==> |r.value.1| < |s|
    decreases |s|, 3
  {
    var t := SkipWs(s);
    if first && t != [] && t[0] == ']' then Some((JArr(acc), t[1..]))
    else
      match ParseValue(t)
      case None => None
      case Some((v, r1)) =>
        var r2 := SkipWs(r1);
        if r2 == [] then None
        else if r2[0] == ']' then Some((JArr(acc + [v]), r2[1..]))
        else if r2[0] == ',' then ParseItems(r2[1..], acc + [v], false)
        else None
  }

  /** `JSON.parse`: one value and nothing but white space after it. */
  function JsonParse(s: string): Option<Json> {
    match ParseValue(s)
    case None => None
    case Some((v, rest)) => if SkipWs(rest) == [] then Some(v) else None
  }

  // ---------------------------------------------------------------------
  // stringify, then parse

  lemma HexDigitValue(d: int)
    requires 0 <= d < 16
    ensures HexValue(HEX[d]) == Some(d)
  {
  }

  /** One quoted character reads back as itself. */
  lemma QuoteCharBack(c: char, rest: string)
    ensures QuoteChar(c)[0] != '"'
    ensures StringChar(QuoteChar(c) + rest) == Some((c, rest))
  {
    var q := QuoteChar(c);
    var s := q + rest;
    if c == '"' || c == '\\' || c == '\U{8}' || c == '\U{C}' || c == '\n' || c == '\r' || c == '\t' {
      assert s[2..] == rest;
    } else if (c as int) < 0x20 {
      var n := c as int;
      HexDigitValue(n / 16);
      HexDigitValue(n % 16);
      assert s[2..][..4] == "00" + [HEX[n / 16], HEX[n % 16]];
      assert Hex4(s[2..]) == Some(n);
      assert s[6..] == rest;
    } else {
      assert s[1..] == rest;
    }
  }

  /** The quoted form of a text, closed by a quote, parses back to the text
      and leaves what follows the quote. */
  lemma {:induction false} QuoteRoundTrip(x: string, rest: string)
    ensures ParseString(Quote(x) + "\"" + rest) == Some((x, rest))
    decreases |x|
  {
    if x == [] {
      assert Quote(x) + "\"" + rest == "\"" + rest;
      assert ("\"" + rest)[1..] == rest;
    } else {
      var s := Quote(x) + "\"" + rest;
      var tail := Quote(x[1..]) + "\"" + rest;
      assert s == QuoteChar(x[0]) + tail;
      QuoteCharBack(x[0], tail);
      QuoteRoundTrip(x[1..], rest);
      assert [x[0]] + x[1..] == x;
    }
  }

  /** `JSON.stringify({ [key]: val })` for a string value: the key and
      the value quoted, a colon between them, in braces. */
  function ObjectText(key: string, val: string): string {
    "{" + ("\"" + (Quote(key) + "\"" + (":" + ("\"" + (Quote(val) + "\"" + "}")))))
  }

  /** The text of a one-member object parses back to that object. */
  lemma ObjectTextParses(key: string, val: string)
    ensures JsonParse(ObjectText(key, val)) == Some(JObj([(key, JStr(val))]))
  {
    var close := "}";
    var valText := "\"" + (Quote(val) + "\"" + close);
    var afterKey := ":" + valText;
    var m := "\"" + (Quote(key) + "\"" + afterKey);
    var t := "{" + m;
    QuoteRoundTrip(val, close);
    NoLeadingWs(valText);
    assert valText[1..] == Quote(val) + "\"" + close;
    assert ParseValue(valText) == Some((JStr(val), close));
    QuoteRoundTrip(key, afterKey);
    NoLeadingWs(m);
    NoLeadingWs(afterKey);
    NoLeadingWs(close);
    assert m[1..] == Quote(key) + "\"" + afterKey;
    assert afterKey[1..] == valText;
    var none: seq<(string, Json)> := [];
    assert none + [(key, JStr(val))] == [(key, JStr(val))];
    assert ParseMembers(m, [], true) == Some((JObj([(key, JStr(val))]), ""));
    NoLeadingWs(t);
    assert t[1..] == m;
    assert SkipWs("") == "";
  }

  lemma NoLeadingWs(s: string)
    requires s != [] && !IsJsonWs(s[0])
    ensures SkipWs(s) == s
  {
  }
}
