/**
 * ECMAScript `encodeURIComponent` and its inverse `decodeURIComponent`
 * (ECMA-262, URI Handling Functions, section 19.2.6), over strings of Unicode
 * scalar values, with the round trip between them.
 */
module UriComponent {
  import opened Wrappers

  type Byte = b: int | 0 <= b < 256

  /** The characters `encodeURIComponent` leaves alone: A-Z a-z 0-9 - _ . ! ~ * ' ( ) */
  predicate IsUnreserved(c: char) {
    ('A' <= c <= 'Z') || ('a' <= c <= 'z') || ('0' <= c <= '9')
    || c == '-' || c == '_' || c == '.' || c == '!' || c == '~' || c == '*' || c == '\'' || c == '(' || c == ')'
  }

  /** UTF-8 encoding of one scalar value (RFC 3629): one to four bytes. */
  function Utf8(c: char): (bs: seq<Byte>)
    ensures 1 <= |bs| <= 4
  {
    var cp := c as int;
    var q1 := cp / 64;
    var q2 := q1 / 64;
    var q3 := q2 / 64;
    if cp < 0x80 then [cp]
    else if cp < 0x800 then [0xC0 + q1, 0x80 + cp % 64]
    else if cp < 0x10000 then [0xE0 + q2, 0x80 + q1 % 64, 0x80 + cp % 64]
    else [0xF0 + q3, 0x80 + q2 % 64, 0x80 + q1 % 64, 0x80 + cp % 64]
  }

  /** An upper-case hexadecimal digit. */
  function HexDigit(n: int): (c: char)
    requires 0 <= n < 16
    ensures IsUnreserved(c)
  {
    if n < 10 then ('0' as int + n) as char else ('A' as int + n - 10) as char
  }

  /** The value of a hexadecimal digit of either case. */
  function HexValue(c: char): Option<int>
  {
    if '0' <= c <= '9' then Some(c as int - '0' as int)
    else if 'A' <= c <= 'F' then Some(c as int - 'A' as int + 10)
    else if 'a' <= c <= 'f' then Some(c as int - 'a' as int + 10)
    else None
  }

  /** One byte as `%XY`. */
  function PercentByte(b: Byte): string
  {
    ['%', HexDigit(b / 16), HexDigit(b % 16)]
  }

  function PercentBytes(bs: seq<Byte>): (r: string)
    ensures |r| == 3 * |bs|
    ensures forall c :: c in r ==> IsUnreserved(c) || c == '%'
  {
    if bs == [] then "" else PercentByte(bs[0]) + PercentBytes(bs[1..])
  }

  function EncodeChar(c: char): (r: string)
    ensures forall d :: d in r ==> IsUnreserved(d) || d == '%'
  {
    if IsUnreserved(c) then [c] else PercentBytes(Utf8(c))
  }

  /**
   * `encodeURIComponent(s)`: unreserved characters are kept, every other
   * character becomes the `%XY` escapes of its UTF-8 bytes. The result uses
   * only unreserved characters and `%`, so it holds no quote, line feed,
   * `$`, `&`, `#`, `?` or `/`.
   */
  function EncodeURIComponent(s: string): (r: string)
    ensures forall c :: c in r ==> IsUnreserved(c) || c == '%'
  {
    if s == [] then "" else EncodeChar(s[0]) + EncodeURIComponent(s[1..])
  }

  /** The byte written as `%XY` at index `i` of `s`, if there is one. */
  function PercentByteAt(s: string, i: nat): Option<Byte>
  {
    if i + 3 <= |s| && s[i] == '%' then
      match (HexValue(s[i + 1]), HexValue(s[i + 2]))
      case (Some(h), Some(l)) => if 0 <= h < 16 && 0 <= l < 16 then Some(h * 16 + l) else None
      case _ => None
    else None
  }

  /** The low six bits of the continuation byte written at index `i`, if it is one. */
  function ContinuationAt(s: string, i: nat): Option<int>
  {
    match PercentByteAt(s, i)
    case Some(b) => if 0x80 <= b < 0xC0 then Some(b - 0x80) else None
    case None => None
  }

  /**
   * Decodes the escape sequence that starts `s` (which starts with `%`): the
   * character and the number of string characters it used. `None` is a URIError:
   * a malformed escape, a bad lead or continuation byte, an overlong form,
   * a surrogate or a value beyond U+10FFFF.
   */
  function DecodeEscape(s: string): (r: Option<(char, nat)>)
    ensures r.Some? ==> 3 <= r.value.1 <= |s|
  {
    match PercentByteAt(s, 0)
    case None => None
    case Some(b0) =>
      if b0 < 0x80 then Some((b0 as char, 3))
      else if 0xC0 <= b0 < 0xE0 then
        match ContinuationAt(s, 3)
        case None => None
        case Some(c1) =>
          var cp := (b0 - 0xC0) * 64 + c1;
          if 0x80 <= cp then Some((cp as char, 6)) else None
      else if 0xE0 <= b0 < 0xF0 then
        match (ContinuationAt(s, 3), ContinuationAt(s, 6))
        case (Some(c1), Some(c2)) =>
          var cp := ((b0 - 0xE0) * 64 + c1) * 64 + c2;
          if 0x800 <= cp && !(0xD800 <= cp < 0xE000) then Some((cp as char, 9)) else None
        case _ => None
      else if 0xF0 <= b0 < 0xF8 then
        match (ContinuationAt(s, 3), ContinuationAt(s, 6), ContinuationAt(s, 9))
        case (Some(c1), Some(c2), Some(c3)) =>
          var cp := (((b0 - 0xF0) * 64 + c1) * 64 + c2) * 64 + c3;
          if 0x10000 <= cp < 0x110000 then Some((cp as char, 12)) else None
        case _ => None
      else None
  }

  /** `decodeURIComponent(s)`; `None` is a URIError. */
  function DecodeURIComponent(s: string): Option<string>
    decreases |s|
  {
    if s == [] then Some("")
    else if s[0] != '%' then
      match DecodeURIComponent(s[1..])
      case Some(t) => Some([s[0]] + t)
      case None => None
    else
      match DecodeEscape(s)
      case None => None
      case Some((c, n)) =>
        match DecodeURIComponent(s[n..])
        case Some(t) => Some([c] + t)
        case None => None
  }

  lemma HexRoundTrip(n: int)
    requires 0 <= n < 16
    ensures HexValue(HexDigit(n)) == Some(n)
  {
  }

  /** The escape written for byte `b` reads back as `b`, whatever follows it. */
  lemma PercentByteRoundTrip(b: Byte, rest: string)
    ensures PercentByteAt(PercentByte(b) + rest, 0) == Some(b)
  {
    HexRoundTrip(b / 16);
    HexRoundTrip(b % 16);
  }

  /** The `k`-th escape of `PercentBytes(bs)` reads back as `bs[k]`. */
  lemma {:induction false} PercentBytesAt(bs: seq<Byte>, rest: string, k: nat)
    requires k < |bs|
    ensures PercentByteAt(PercentBytes(bs) + rest, 3 * k) == Some(bs[k])
    decreases k
  {
    var s := PercentBytes(bs) + rest;
    var tail := PercentBytes(bs[1..]) + rest;
    assert s == PercentByte(bs[0]) + tail;
    if k == 0 {
      PercentByteRoundTrip(bs[0], tail);
    } else {
      PercentBytesAt(bs[1..], rest, k - 1);
      PercentByteAtShift(PercentByte(bs[0]), tail, 3 * (k - 1));
    }
  }

  /** Reading an escape behind a prefix is reading it at the shifted index. */
  lemma PercentByteAtShift(prefix: string, s: string, i: nat)
    ensures PercentByteAt(prefix + s, |prefix| + i) == PercentByteAt(s, i)
  {
    var t := prefix + s;
    if i + 3 <= |s| {
      assert t[|prefix| + i] == s[i] && t[|prefix| + i + 1] == s[i + 1] && t[|prefix| + i + 2] == s[i + 2];
    }
  }

  /** Each escape of an encoded character reads back as the UTF-8 byte it was written for. */
  lemma EscapesReadBack(c: char, rest: string)
    requires !IsUnreserved(c)
    ensures forall k :: 0 <= k < |Utf8(c)| ==> PercentByteAt(EncodeChar(c) + rest, 3 * k) == Some(Utf8(c)[k])
  {
    forall k | 0 <= k < |Utf8(c)| ensures PercentByteAt(EncodeChar(c) + rest, 3 * k) == Some(Utf8(c)[k]) {
      PercentBytesAt(Utf8(c), rest, k);
    }
  }

  /** Two escapes holding the UTF-8 form of `c` decode to `c`. */
  lemma DecodeTwoBytes(c: char, s: string)
    requires 0x80 <= c as int < 0x800
    requires PercentByteAt(s, 0) == Some(Utf8(c)[0]) && PercentByteAt(s, 3) == Some(Utf8(c)[1])
    ensures DecodeEscape(s) == Some((c, 6))
  {
    var cp := c as int;
    assert cp == (cp / 64) * 64 + cp % 64;
    assert ContinuationAt(s, 3) == Some(cp % 64);
  }

  /** Three escapes holding the UTF-8 form of `c` decode to `c`. */
  lemma DecodeThreeBytes(c: char, s: string)
    requires 0x800 <= c as int < 0x10000
    requires PercentByteAt(s, 0) == Some(Utf8(c)[0]) && PercentByteAt(s, 3) == Some(Utf8(c)[1])
    requires PercentByteAt(s, 6) == Some(Utf8(c)[2])
    ensures DecodeEscape(s) == Some((c, 9))
  {
    var cp := c as int;
    var q1 := cp / 64;
    assert cp == q1 * 64 + cp % 64;
    assert q1 == (q1 / 64) * 64 + q1 % 64;
    assert ContinuationAt(s, 3) == Some(q1 % 64);
    assert ContinuationAt(s, 6) == Some(cp % 64);
  }

  /** Four escapes holding the UTF-8 form of `c` decode to `c`. */
  lemma DecodeFourBytes(c: char, s: string)
    requires 0x10000 <= c as int
    requires PercentByteAt(s, 0) == Some(Utf8(c)[0]) && PercentByteAt(s, 3) == Some(Utf8(c)[1])
    requires PercentByteAt(s, 6) == Some(Utf8(c)[2]) && PercentByteAt(s, 9) == Some(Utf8(c)[3])
    ensures DecodeEscape(s) == Some((c, 12))
  {
    var cp := c as int;
    var q1 := cp / 64;
    var q2 := q1 / 64;
    assert cp == q1 * 64 + cp % 64;
    assert q1 == q2 * 64 + q1 % 64;
    assert q2 == (q2 / 64) * 64 + q2 % 64;
    assert ContinuationAt(s, 3) == Some(q2 % 64);
    assert ContinuationAt(s, 6) == Some(q1 % 64);
    assert ContinuationAt(s, 9) == Some(cp % 64);
  }

  /** Decoding the escapes of one encoded character gives that character back. */
  lemma DecodeEncodedChar(c: char, rest: string)
    requires !IsUnreserved(c)
    ensures DecodeEscape(EncodeChar(c) + rest) == Some((c, |EncodeChar(c)|))
  {
    var s := EncodeChar(c) + rest;
    EscapesReadBack(c, rest);
    var cp := c as int;
    if cp < 0x80 {
      assert PercentByteAt(s, 0) == Some(cp);
    } else if cp < 0x800 {
      DecodeTwoBytes(c, s);
    } else if cp < 0x10000 {
      DecodeThreeBytes(c, s);
    } else {
      DecodeFourBytes(c, s);
    }
  }

  /** `decodeURIComponent(encodeURIComponent(s)) == s` */
  lemma {:induction false} DecodeEncode(s: string)
    ensures DecodeURIComponent(EncodeURIComponent(s)) == Some(s)
    decreases |s|
  {
    if s != [] {
      var head := EncodeChar(s[0]);
      var tail := EncodeURIComponent(s[1..]);
      var e := head + tail;
      assert EncodeURIComponent(s) == e;
      DecodeEncode(s[1..]);
      if IsUnreserved(s[0]) {
        assert e[0] == s[0] && e[1..] == tail;
      } else {
        DecodeEncodedChar(s[0], tail);
        assert e[0] == '%';
        assert e[|head|..] == tail;
      }
      assert s == [s[0]] + s[1..];
    }
  }
}
