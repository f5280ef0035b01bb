/**
 * ECMAScript `encodeURIComponent`: every character outside the unreserved
 * set is written as the percent-escapes (section 2.1 of RFC 3986) of its
 * UTF-8 bytes (RFC 3629), in upper-case hex. `Decode` is
 * `decodeURIComponent`, the inverse the encoder is checked against.
 *
 * Strings are sequences of Unicode scalar values, so the lone surrogates
 * on which `encodeURIComponent` throws cannot occur.
 */
module UriEncoding {
  import opened Wrappers

  type Byte = b: int | 0 <= b < 256

  /** The characters `encodeURIComponent` copies: A-Z a-z 0-9 - _ . ! ~ * ' ( ) */
  predicate Unreserved(c: char) {
    || ('A' <= c <= 'Z') || ('a' <= c <= 'z') || ('0' <= c <= '9')
    || c == '-' || c == '_' || c == '.' || c == '!' || c == '~'
    || c == '*' || c == '\'' || c == '(' || c == ')'
  }

  /** What an encoded component may contain: unreserved characters and the `%` of an escape. */
  predicate UriSafe(c: char) {
    Unreserved(c) || c == '%'
  }

  /** Upper-case hex digit of a value below 16. */
  function HexDigit(n: int): char
    requires 0 <= n < 16
  {
    if n < 10 then ('0' as int + n) as char else ('A' as int + n - 10) as char
  }

  /** The value of a hex digit of either case. */
  function HexValue(c: char): (r: Option<int>)
    ensures r.Some? ==> 0 <= r.value < 16
  {
    if '0' <= c <= '9' then Some(c as int - '0' as int)
    else if 'A' <= c <= 'F' then Some(c as int - 'A' as int + 10)
    else if 'a' <= c <= 'f' then Some(c as int - 'a' as int + 10)
    else None
  }

  /** Hex digits read back as their values. */
  lemma HexValueOfDigit(n: int)
    requires 0 <= n < 16
    ensures HexValue(HexDigit(n)) == Some(n)
  {
  }

  /** The escape `%XY` of one byte. */
  function PercentByte(b: Byte): string {
    ['%', HexDigit(b / 16), HexDigit(b % 16)]
  }

  function PercentBytes(bs: seq<Byte>): (r: string)
    ensures |r| == 3 * |bs|
    ensures forall i | 0 <= i < |r| :: UriSafe(r[i])
  {
    if bs == [] then [] else PercentByte(bs[0]) + PercentBytes(bs[1..])
  }

  /** The UTF-8 encoding of one scalar value. */
  function Utf8(c: char): seq<Byte> {
    var v := c as int;
    if v < 0x80 then [v]
    else if v < 0x800 then [0xC0 + v / 64, 0x80 + v % 64]
    else if v < 0x10000 then [0xE0 + v / 64 / 64, 0x80 + v / 64 % 64, 0x80 + v % 64]
    else [0xF0 + v / 64 / 64 / 64, 0x80 + v / 64 / 64 % 64, 0x80 + v / 64 % 64, 0x80 + v % 64]
  }

  function EncodeChar(c: char): (r: string)
    ensures forall i | 0 <= i < |r| :: UriSafe(r[i])
  {
    if Unreserved(c) then [c] else PercentBytes(Utf8(c))
  }

  /** `encodeURIComponent`. */
  function Encode(s: string): (r: string)
    ensures forall i | 0 <= i < |r| :: UriSafe(r[i])
    ensures |r| >= |s|
  {
    if s == [] then [] else EncodeChar(s[0]) + Encode(s[1..])
  }

  /**
   * No encoded component holds a character that delimits URI parts or
   * parameters, so it can neither end its own parameter nor start another.
   */
  lemma EncodedHasNoDelimiters(s: string)
    ensures forall i | 0 <= i < |Encode(s)| ::
      Encode(s)[i] !in {' ', '&', '=', '#', '?', '\n', '\r', '+', '/', ':', ';', '@'}
  {
  }

  /** The byte written as `%XY` at index `i` of `t`, if that is what is there. */
  function EscapedByteAt(t: string, i: nat): (r: Option<Byte>)
    ensures r.Some? ==> i + 3 <= |t| && t[i] == '%'
  {
    if i + 3 <= |t| && t[i] == '%' then
      match (HexValue(t[i + 1]), HexValue(t[i + 2]))
      case (Some(h), Some(l)) => Some(h * 16 + l)
      case _ => None
    else None
  }

  /** A UTF-8 continuation byte written at `i`, as its six payload bits. */
  function ContinuationAt(t: string, i: nat): (r: Option<int>)
    ensures r.Some? ==> i + 3 <= |t| && 0 <= r.value < 64
  {
    var b :- EscapedByteAt(t, i);
    if 0x80 <= b < 0xC0 then Some(b - 0x80) else None
  }

  predicate IsScalar(v: int) {
    (0 <= v < 0xD800) || (0xE000 <= v < 0x110000)
  }

  /**
   * The first character `decodeURIComponent` reads from `t`, with the number
   * of characters of `t` it took. A bad escape, a byte that cannot start a
   * character, an overlong form, a surrogate or a value past U+10FFFF give
   * None (where `decodeURIComponent` throws).
   */
  function DecodeFirst(t: string): (r: Option<(char, nat)>)
    requires |t| > 0
    ensures r.Some? ==> 1 <= r.value.1 <= |t|
  {
    if t[0] != '%' then Some((t[0], 1))
    else
      var b0 :- EscapedByteAt(t, 0);
      if b0 < 0x80 then Some((b0 as char, 3))
      else if 0xC0 <= b0 < 0xE0 then
        var c1 :- ContinuationAt(t, 3);
        var v := (b0 - 0xC0) * 64 + c1;
        if 0x80 <= v then Some((v as char, 6)) else None
      else if 0xE0 <= b0 < 0xF0 then
        var c1 :- ContinuationAt(t, 3);
        var c2 :- ContinuationAt(t, 6);
        var v := ((b0 - 0xE0) * 64 + c1) * 64 + c2;
        if 0x800 <= v && IsScalar(v) then Some((v as char, 9)) else None
      else if 0xF0 <= b0 < 0xF8 then
        var c1 :- ContinuationAt(t, 3);
        var c2 :- ContinuationAt(t, 6);
        var c3 :- ContinuationAt(t, 9);
        var v := (((b0 - 0xF0) * 64 + c1) * 64 + c2) * 64 + c3;
        if 0x10000 <= v < 0x110000 then Some((v as char, 12)) else None
      else None
  }

  /** `decodeURIComponent`: None where it throws a URIError. */
  function Decode(t: string): Option<string>
    decreases |t|
  {
    if t == [] then Some([])
    else
      var first :- DecodeFirst(t);
      var rest :- Decode(t[first.1..]);
      Some([first.0] + rest)
  }

  /** Putting three characters in front moves every escape three places on. */
  lemma EscapeShift(x: string, u: string, i: nat)
    requires |x| == 3
    ensures EscapedByteAt(x + u, i + 3) == EscapedByteAt(u, i)
  {
    var t := x + u;
    if i + 3 <= |u| {
      assert t[i + 3] == u[i] && t[i + 4] == u[i + 1] && t[i + 5] == u[i + 2];
    }
  }

  /** The escapes of a byte sequence read back as those bytes, whatever follows them. */
  lemma {:induction false} EscapesReadBack(bs: seq<Byte>, rest: string, k: nat)
    requires k < |bs|
    ensures EscapedByteAt(PercentBytes(bs) + rest, 3 * k) == Some(bs[k])
  {
    var u := PercentBytes(bs[1..]) + rest;
    var t := PercentBytes(bs) + rest;
    assert t == PercentByte(bs[0]) + u;
    if k == 0 {
      assert t[0] == '%' && t[1] == HexDigit(bs[0] / 16) && t[2] == HexDigit(bs[0] % 16);
      HexValueOfDigit(bs[0] / 16);
      HexValueOfDigit(bs[0] % 16);
    } else {
      EscapesReadBack(bs[1..], rest, k - 1);
      EscapeShift(PercentByte(bs[0]), u, 3 * (k - 1));
      assert bs[1..][k - 1] == bs[k];
    }
  }

  /**
   * The UTF-8 bytes of a character, described by what a decoder checks:
   * the lead byte's range gives the length, the rest are continuation
   * bytes, and their payload bits put together give the scalar value back.
   */
  lemma Utf8Shape(c: char)
    ensures var bs: seq<int> := Utf8(c); var v := c as int;
      && 1 <= |bs| <= 4
      && (forall k | 1 <= k < |bs| :: 0x80 <= bs[k] < 0xC0)
      && (|bs| == 1 ==> bs[0] == v && v < 0x80)
      && (|bs| == 2 ==> 0xC0 <= bs[0] < 0xE0 && (bs[0] - 0xC0) * 64 + (bs[1] - 0x80) == v && 0x80 <= v)
      && (|bs| == 3 ==> 0xE0 <= bs[0] < 0xF0 && ((bs[0] - 0xE0) * 64 + (bs[1] - 0x80)) * 64 + (bs[2] - 0x80) == v
                        && 0x800 <= v)
      && (|bs| == 4 ==> 0xF0 <= bs[0] < 0xF8
                        && (((bs[0] - 0xF0) * 64 + (bs[1] - 0x80)) * 64 + (bs[2] - 0x80)) * 64 + (bs[3] - 0x80) == v
                        && 0x10000 <= v)
  {
    var v := c as int;
    var q1 := v / 64;
    var q2 := q1 / 64;
    assert v == q1 * 64 + v % 64;
    assert q1 == q2 * 64 + q1 % 64;
    assert q2 == q2 / 64 * 64 + q2 % 64;
  }

  /** The continuation bytes of an escaped UTF-8 sequence read back as their payload bits. */
  lemma ContinuationsReadBack(c: char, rest: string, k: nat)
    requires 1 <= k < |Utf8(c)|
    ensures ContinuationAt(PercentBytes(Utf8(c)) + rest, 3 * k) == Some(Utf8(c)[k] - 0x80)
  {
    Utf8Shape(c);
    EscapesReadBack(Utf8(c), rest, k);
  }

  /** An escaped one-byte character reads back as itself. */
  lemma DecodeFirstOneByte(c: char, rest: string)
    requires |Utf8(c)| == 1
    ensures DecodeFirst(PercentBytes(Utf8(c)) + rest) == Some((c, 3))
  {
    var t := PercentBytes(Utf8(c)) + rest;
    Utf8Shape(c);
    EscapesReadBack(Utf8(c), rest, 0);
    assert t[0] == '%';
  }

  /** An escaped two-byte character reads back as itself. */
  lemma DecodeFirstTwoBytes(c: char, rest: string)
    requires |Utf8(c)| == 2
    ensures DecodeFirst(PercentBytes(Utf8(c)) + rest) == Some((c, 6))
  {
    var bs: seq<int> := Utf8(c);
    var t := PercentBytes(Utf8(c)) + rest;
    Utf8Shape(c);
    EscapesReadBack(Utf8(c), rest, 0);
    ContinuationsReadBack(c, rest, 1);
    assert t[0] == '%';
    assert (bs[0] - 0xC0) * 64 + (bs[1] - 0x80) == c as int;
  }

  /** An escaped three-byte character reads back as itself. */
  lemma DecodeFirstThreeBytes(c: char, rest: string)
    requires |Utf8(c)| == 3
    ensures DecodeFirst(PercentBytes(Utf8(c)) + rest) == Some((c, 9))
  {
    var bs: seq<int> := Utf8(c);
    var t := PercentBytes(Utf8(c)) + rest;
    Utf8Shape(c);
    EscapesReadBack(Utf8(c), rest, 0);
    ContinuationsReadBack(c, rest, 1);
    ContinuationsReadBack(c, rest, 2);
    assert t[0] == '%';
    assert IsScalar(c as int);
  }

  /** An escaped four-byte character reads back as itself. */
  lemma DecodeFirstFourBytes(c: char, rest: string)
    requires |Utf8(c)| == 4
    ensures DecodeFirst(PercentBytes(Utf8(c)) + rest) == Some((c, 12))
  {
    var bs: seq<int> := Utf8(c);
    var t := PercentBytes(Utf8(c)) + rest;
    Utf8Shape(c);
    EscapesReadBack(Utf8(c), rest, 0);
    ContinuationsReadBack(c, rest, 1);
    ContinuationsReadBack(c, rest, 2);
    ContinuationsReadBack(c, rest, 3);
    assert t[0] == '%';
    assert c as int < 0x110000;
  }

  /** `decodeURIComponent` reads the encoding of one character back as that character. */
  lemma DecodeFirstOfEncodeChar(c: char, rest: string)
    ensures |EncodeChar(c)| > 0
    ensures DecodeFirst(EncodeChar(c) + rest) == Some((c, |EncodeChar(c)|))
  {
    if !Unreserved(c) {
      Utf8Shape(c);
      var n := |Utf8(c)|;
      if n == 1 {
        DecodeFirstOneByte(c, rest);
      } else if n == 2 {
        DecodeFirstTwoBytes(c, rest);
      } else if n == 3 {
        DecodeFirstThreeBytes(c, rest);
      } else {
        DecodeFirstFourBytes(c, rest);
      }
    }
  }

  /** Round trip: `decodeURIComponent(encodeURIComponent(s)) == s` for every string. */
  lemma {:induction false} DecodeEncode(s: string)
    ensures Decode(Encode(s)) == Some(s)
  {
    if s != [] {
      var e := EncodeChar(s[0]);
      DecodeFirstOfEncodeChar(s[0], Encode(s[1..]));
      assert Encode(s)[|e|..] == Encode(s[1..]);
      DecodeEncode(s[1..]);
      assert [s[0]] + s[1..] == s;
    }
  }

  /** Encoding changes nothing exactly when every character is unreserved. */
  lemma {:induction false} EncodeIdentityIffUnreserved(s: string)
    ensures Encode(s) == s <==> forall i | 0 <= i < |s| :: Unreserved(s[i])
  {
    if s != [] {
      EncodeIdentityIffUnreserved(s[1..]);
      if Unreserved(s[0]) {
        assert Encode(s) == [s[0]] + Encode(s[1..]);
        if Encode(s) == s {
          assert Encode(s[1..]) == Encode(s)[1..];
        }
        assert forall i | 1 <= i < |s| :: s[i] == s[1..][i - 1];
      } else {
        assert |EncodeChar(s[0])| >= 3;
      }
    }
  }
}
