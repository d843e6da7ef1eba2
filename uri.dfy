/** `encodeURIComponent`, which the payment link applies to the painting title, and the
    matching `decodeURIComponent`, which reads it back. Characters are Unicode scalar
    values; each one that is not unreserved is written as the `%XX` triples of its UTF-8 bytes. */
module Uri {
  import opened Wrappers
  import opened Js

  /** The characters `encodeURIComponent` leaves as they are. */
  predicate IsUnreserved(c: char) {
    ('A' <= c <= 'Z') || ('a' <= c <= 'z') || ('0' <= c <= '9')
    || c == '-' || c == '_' || c == '.' || c == '!' || c == '~' || c == '*' || c == '\'' || c == '(' || c == ')'
  }

  predicate IsUpperHexDigit(c: char) {
    ('0' <= c <= '9') || ('A' <= c <= 'F')
  }

  function HexUpper(d: int): (c: char)
    requires 0 <= d < 16
    ensures IsUpperHexDigit(c) && DigitValue(c) == d
  {
    "0123456789ABCDEF"[d]
  }

  predicate IsByte(b: int) { 0 <= b < 256 }

  /** The UTF-8 encoding of one scalar value. */
  function Utf8(c: char): (bytes: seq<int>)
    ensures 1 <= |bytes| <= 4
    ensures forall i :: 0 <= i < |bytes| ==> IsByte(bytes[i])
  {
    var v := c as int;
    if v < 0x80 then [v]
    else if v < 0x800 then [0xC0 + v / 64, 0x80 + v % 64]
    else if v < 0x10000 then [0xE0 + v / 4096, 0x80 + (v / 64) % 64, 0x80 + v % 64]
    else [0xF0 + v / 262144, 0x80 + (v / 4096) % 64, 0x80 + (v / 64) % 64, 0x80 + v % 64]
  }

  /** `%XX` for one byte, with upper-case hexadecimal digits. */
  function Percent(b: int): string
    requires IsByte(b)
  {
    ['%', HexUpper(b / 16), HexUpper(b % 16)]
  }

  function PercentAll(bytes: seq<int>): (r: string)
    requires forall i :: 0 <= i < |bytes| ==> IsByte(bytes[i])
    ensures |r| == 3 * |bytes|
  {
    if |bytes| == 0 then "" else Percent(bytes[0]) + PercentAll(bytes[1..])
  }

  function EncodeChar(c: char): string {
    if IsUnreserved(c) then [c] else PercentAll(Utf8(c))
  }

  /** `encodeURIComponent(s)`. What comes out is made only of unreserved characters,
      `%` and upper-case hex digits, so it can never end a query value (`&`), start a
      fragment (`#`) or assign a parameter (`=`). */
  function EncodeURIComponent(s: string): (r: string)
    ensures forall i :: 0 <= i < |r| ==> IsUnreserved(r[i]) || r[i] == '%' || IsUpperHexDigit(r[i])
    ensures |r| >= |s|
  {
    if |s| == 0 then ""
    else
      var head := EncodeChar(s[0]);
      assert forall i :: 0 <= i < |head| ==> IsUnreserved(head[i]) || head[i] == '%' || IsUpperHexDigit(head[i]) by {
        if !IsUnreserved(s[0]) { PercentAllCharset(Utf8(s[0])); }
      }
      head + EncodeURIComponent(s[1..])
  }

  lemma {:induction false} PercentAllCharset(bytes: seq<int>)
    requires forall i :: 0 <= i < |bytes| ==> IsByte(bytes[i])
    ensures forall i :: 0 <= i < |PercentAll(bytes)| ==> PercentAll(bytes)[i] == '%' || IsUpperHexDigit(PercentAll(bytes)[i])
  {
    if |bytes| > 0 {
      PercentAllCharset(bytes[1..]);
    }
  }

  /** A string made only of unreserved characters is its own encoding. */
  lemma {:induction false} EncodeUnreservedIsIdentity(s: string)
    requires forall i :: 0 <= i < |s| ==> IsUnreserved(s[i])
    ensures EncodeURIComponent(s) == s
  {
    if |s| > 0 {
      EncodeUnreservedIsIdentity(s[1..]);
      assert [s[0]] + s[1..] == s;
    }
  }

  // ---------------------------------------------------------------- decoding

  /** The byte written as `%XX` at position `p` of `r`, if there is one. */
  function ByteAt(r: string, p: nat): Option<int> {
    if p + 3 <= |r| && r[p] == '%' && IsDigitIn(r[p + 1], 16) && IsDigitIn(r[p + 2], 16)
    then Some(DigitValue(r[p + 1]) * 16 + DigitValue(r[p + 2]))
    else None
  }

  predicate IsContinuation(b: Option<int>) {
    b.Some? && 0x80 <= b.value < 0xC0
  }

  predicate IsScalar(v: int) {
    (0 <= v < 0xD800) || (0xE000 <= v < 0x110000)
  }

  /** Decodes the UTF-8 sequence written as `%XX` triples at the start of `r`: the character
      and the number of characters of `r` it took, or None for a malformed sequence. An
      overlong form, a surrogate or a value past U+10FFFF is malformed. */
  function DecodeEscape(r: string): (res: Option<(char, nat)>)
    ensures res.Some? ==> 3 <= res.value.1 <= |r|
  {
    var b0 := ByteAt(r, 0);
    if b0.None? then None
    else if b0.value < 0x80 then Some((b0.value as char, 3))
    else if 0xC0 <= b0.value < 0xE0 then
      var b1 := ByteAt(r, 3);
      if !IsContinuation(b1) then None
      else
        var v := (b0.value - 0xC0) * 64 + (b1.value - 0x80);
        if 0x80 <= v && IsScalar(v) then Some((v as char, 6)) else None
    else if 0xE0 <= b0.value < 0xF0 then
      var b1, b2 := ByteAt(r, 3), ByteAt(r, 6);
      if !IsContinuation(b1) || !IsContinuation(b2) then None
      else
        var v := (b0.value - 0xE0) * 4096 + (b1.value - 0x80) * 64 + (b2.value - 0x80);
        if 0x800 <= v && IsScalar(v) then Some((v as char, 9)) else None
    else if 0xF0 <= b0.value < 0xF8 then
      var b1, b2, b3 := ByteAt(r, 3), ByteAt(r, 6), ByteAt(r, 9);
      if !IsContinuation(b1) || !IsContinuation(b2) || !IsContinuation(b3) then None
      else
        var v := (b0.value - 0xF0) * 262144 + (b1.value - 0x80) * 4096 + (b2.value - 0x80) * 64 + (b3.value - 0x80);
        if 0x10000 <= v && IsScalar(v) then Some((v as char, 12)) else None
    else None
  }

  /** `decodeURIComponent(r)`, with None where it would throw a URIError. */
  function DecodeURIComponent(r: string): Option<string>
    decreases |r|
  {
    if |r| == 0 then Some("")
    else if r[0] != '%' then
      match DecodeURIComponent(r[1..])
      case Some(t) => Some([r[0]] + t)
      case None => None
    else
      match DecodeEscape(r)
      case None => None
      case Some((c, k)) =>
        match DecodeURIComponent(r[k..])
        case Some(t) => Some([c] + t)
        case None => None
  }

  /** The overlong two-byte form of U+0000 is refused, as `decodeURIComponent` refuses it. */
  lemma OverlongRefused()
    ensures DecodeURIComponent("%C0%80") == None
  {
    assert ByteAt("%C0%80", 0) == Some(0xC0) && ByteAt("%C0%80", 3) == Some(0x80);
  }

  lemma ByteAtPercent(b: int)
    requires IsByte(b)
    ensures ByteAt(Percent(b), 0) == Some(b)
  {
  }

  /** An escape that lies inside `x` is read the same whatever follows `x`. */
  lemma ByteAtPrefix(x: string, y: string, p: nat)
    requires p + 3 <= |x|
    ensures ByteAt(x + y, p) == ByteAt(x, p)
  {
    assert (x + y)[p] == x[p] && (x + y)[p + 1] == x[p + 1] && (x + y)[p + 2] == x[p + 2];
  }

  /** The escape at position `p` of `y` is read the same after a prefix `x`. */
  lemma ByteAtShift(x: string, y: string, p: nat)
    ensures ByteAt(x + y, |x| + p) == ByteAt(y, p)
  {
    if p + 3 <= |y| {
      assert (x + y)[|x| + p] == y[p] && (x + y)[|x| + p + 1] == y[p + 1] && (x + y)[|x| + p + 2] == y[p + 2];
    }
  }

  /** The `k`-th triple of `PercentAll(bytes)` reads back as the `k`-th byte. */
  lemma {:induction false} ByteAtPercentSeq(bytes: seq<int>, k: nat)
    requires forall i :: 0 <= i < |bytes| ==> IsByte(bytes[i])
    requires k < |bytes|
    ensures ByteAt(PercentAll(bytes), 3 * k) == Some(bytes[k])
  {
    var tail := PercentAll(bytes[1..]);
    assert PercentAll(bytes) == Percent(bytes[0]) + tail;
    if k == 0 {
      ByteAtPrefix(Percent(bytes[0]), tail, 0);
      ByteAtPercent(bytes[0]);
    } else {
      ByteAtPercentSeq(bytes[1..], k - 1);
      ByteAtShift(Percent(bytes[0]), tail, 3 * (k - 1));
    }
  }

  lemma ByteAtPercentAll(bytes: seq<int>, rest: string, k: nat)
    requires forall i :: 0 <= i < |bytes| ==> IsByte(bytes[i])
    requires k < |bytes|
    ensures ByteAt(PercentAll(bytes) + rest, 3 * k) == Some(bytes[k])
  {
    ByteAtPercentSeq(bytes, k);
    ByteAtPrefix(PercentAll(bytes), rest, 3 * k);
  }

  /** The arithmetic behind UTF-8: the bytes of a scalar value combine back to it. */
  lemma Utf8Combines(v: int)
    requires 0 <= v < 0x110000
    ensures v >= 0x800 ==> (v / 4096) * 4096 + ((v / 64) % 64) * 64 + v % 64 == v
    ensures v >= 0x10000 ==> (v / 262144) * 262144 + ((v / 4096) % 64) * 4096 + ((v / 64) % 64) * 64 + v % 64 == v
  {
    var q := v / 64;
    assert q * 64 + v % 64 == v;
    assert (q / 64) * 64 + q % 64 == q;
    assert v / 4096 == q / 64;
    var q2 := q / 64;
    assert (q2 / 64) * 64 + q2 % 64 == q2;
    assert v / 262144 == q2 / 64;
  }

  /** Decoding the escapes of a character that is not unreserved gives that character back
      and consumes exactly its escapes. */
  lemma {:induction false} DecodeEscapeOfChar(c: char, rest: string)
    requires !IsUnreserved(c)
    ensures DecodeEscape(EncodeChar(c) + rest) == Some((c, |EncodeChar(c)|))
  {
    var bytes := Utf8(c);
    var v := c as int;
    if v < 0x80 {
      ByteAtPercentAll(bytes, rest, 0);
    } else if v < 0x800 {
      DecodeTwoOf(bytes, rest, v);
    } else if v < 0x10000 {
      DecodeThreeOf(bytes, rest, v);
    } else {
      DecodeFourOf(bytes, rest, v);
    }
  }

  lemma DecodeTwoOf(bytes: seq<int>, rest: string, v: int)
    requires 0x80 <= v < 0x800
    requires bytes == [0xC0 + v / 64, 0x80 + v % 64]
    ensures DecodeEscape(PercentAll(bytes) + rest) == Some((v as char, 6))
  {
    ByteAtPercentAll(bytes, rest, 0);
    ByteAtPercentAll(bytes, rest, 1);
    DecodeTwo(PercentAll(bytes) + rest, bytes[0], bytes[1]);
  }

  lemma DecodeThreeOf(bytes: seq<int>, rest: string, v: int)
    requires 0x800 <= v < 0x10000 && IsScalar(v)
    requires bytes == [0xE0 + v / 4096, 0x80 + (v / 64) % 64, 0x80 + v % 64]
    ensures DecodeEscape(PercentAll(bytes) + rest) == Some((v as char, 9))
  {
    ThreeBytes(v);
    var b0, b1, b2 := bytes[0], bytes[1], bytes[2];
    ByteAtPercentAll(bytes, rest, 0);
    ByteAtPercentAll(bytes, rest, 1);
    ByteAtPercentAll(bytes, rest, 2);
    DecodeThree(PercentAll(bytes) + rest, b0, b1, b2);
  }

  /** The three-byte form of `v` is in range and combines back to `v`. */
  lemma ThreeBytes(v: int)
    requires 0x800 <= v < 0x10000
    ensures 0xE0 <= 0xE0 + v / 4096 < 0xF0
    ensures (v / 4096) * 4096 + ((v / 64) % 64) * 64 + v % 64 == v
  {
    Utf8Combines(v);
  }

  lemma DecodeFourOf(bytes: seq<int>, rest: string, v: int)
    requires 0x10000 <= v < 0x110000
    requires bytes == [0xF0 + v / 262144, 0x80 + (v / 4096) % 64, 0x80 + (v / 64) % 64, 0x80 + v % 64]
    ensures DecodeEscape(PercentAll(bytes) + rest) == Some((v as char, 12))
  {
    FourBytes(v);
    var b0, b1, b2, b3 := bytes[0], bytes[1], bytes[2], bytes[3];
    ByteAtPercentAll(bytes, rest, 0);
    ByteAtPercentAll(bytes, rest, 1);
    ByteAtPercentAll(bytes, rest, 2);
    ByteAtPercentAll(bytes, rest, 3);
    DecodeFour(PercentAll(bytes) + rest, b0, b1, b2, b3);
  }

  /** The four-byte form of `v` is in range and combines back to `v`. */
  lemma FourBytes(v: int)
    requires 0x10000 <= v < 0x110000
    ensures 0xF0 <= 0xF0 + v / 262144 < 0xF8
    ensures (v / 262144) * 262144 + ((v / 4096) % 64) * 4096 + ((v / 64) % 64) * 64 + v % 64 == v
  {
    Utf8Combines(v);
  }

  lemma DecodeTwo(r: string, b0: int, b1: int)
    requires ByteAt(r, 0) == Some(b0) && ByteAt(r, 3) == Some(b1)
    requires 0xC0 <= b0 < 0xE0 && 0x80 <= b1 < 0xC0
    requires 0x80 <= (b0 - 0xC0) * 64 + (b1 - 0x80) && IsScalar((b0 - 0xC0) * 64 + (b1 - 0x80))
    ensures DecodeEscape(r) == Some((((b0 - 0xC0) * 64 + (b1 - 0x80)) as char, 6))
  {
  }

  lemma DecodeThree(r: string, b0: int, b1: int, b2: int)
    requires ByteAt(r, 0) == Some(b0) && ByteAt(r, 3) == Some(b1) && ByteAt(r, 6) == Some(b2)
    requires 0xE0 <= b0 < 0xF0 && 0x80 <= b1 < 0xC0 && 0x80 <= b2 < 0xC0
    requires 0x800 <= (b0 - 0xE0) * 4096 + (b1 - 0x80) * 64 + (b2 - 0x80)
    requires IsScalar((b0 - 0xE0) * 4096 + (b1 - 0x80) * 64 + (b2 - 0x80))
    ensures DecodeEscape(r) == Some((((b0 - 0xE0) * 4096 + (b1 - 0x80) * 64 + (b2 - 0x80)) as char, 9))
  {
  }

  lemma DecodeFour(r: string, b0: int, b1: int, b2: int, b3: int)
    requires ByteAt(r, 0) == Some(b0) && ByteAt(r, 3) == Some(b1) && ByteAt(r, 6) == Some(b2) && ByteAt(r, 9) == Some(b3)
    requires 0xF0 <= b0 < 0xF8 && 0x80 <= b1 < 0xC0 && 0x80 <= b2 < 0xC0 && 0x80 <= b3 < 0xC0
    requires 0x10000 <= (b0 - 0xF0) * 262144 + (b1 - 0x80) * 4096 + (b2 - 0x80) * 64 + (b3 - 0x80)
    requires IsScalar((b0 - 0xF0) * 262144 + (b1 - 0x80) * 4096 + (b2 - 0x80) * 64 + (b3 - 0x80))
    ensures DecodeEscape(r) == Some((((b0 - 0xF0) * 262144 + (b1 - 0x80) * 4096 + (b2 - 0x80) * 64 + (b3 - 0x80)) as char, 12))
  {
  }

  /** `decodeURIComponent(encodeURIComponent(s)) == s`: the encoding loses nothing, so the
      payment page can recover the exact title. */
  lemma {:induction false} DecodeEncode(s: string)
    ensures DecodeURIComponent(EncodeURIComponent(s)) == Some(s)
    decreases |s|
  {
    if |s| > 0 {
      var head := EncodeChar(s[0]);
      var tail := EncodeURIComponent(s[1..]);
      var r := head + tail;
      DecodeEncode(s[1..]);
      if IsUnreserved(s[0]) {
        assert r[1..] == tail;
      } else {
        DecodeEscapeOfChar(s[0], tail);
        assert r[|head|..] == tail;
        assert r[0] == '%';
      }
      assert [s[0]] + s[1..] == s;
    }
  }
}
