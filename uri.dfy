/** JavaScript's `encodeURIComponent`, used by both search routes to put a
    place name into a maps link, with the decoding that undoes it. */
module Uri {
  import opened Js

  /** The characters `encodeURIComponent` leaves unescaped. */
  predicate IsUnreserved(c: char) {
    ('A' <= c <= 'Z') || ('a' <= c <= 'z') || ('0' <= c <= '9')
    || c == '-' || c == '_' || c == '.' || c == '!' || c == '~'
    || c == '*' || c == '\'' || c == '(' || c == ')'
  }

  /** An upper-case hexadecimal digit. */
  function HexDigit(d: nat): (c: char)
    requires d < 16
    ensures IsUnreserved(c)
  {
    if d < 10 then ('0' as int + d) as char else ('A' as int + d - 10) as char
  }

  /** The value of a hexadecimal digit of either case. */
  function HexValue(c: char): Option<nat> {
    if '0' <= c <= '9' then Some(c as int - '0' as int)
    else if 'A' <= c <= 'F' then Some(c as int - 'A' as int + 10)
    else if 'a' <= c <= 'f' then Some(c as int - 'a' as int + 10)
    else None
  }

  lemma HexRoundTrip(d: nat)
    requires d < 16
    ensures HexValue(HexDigit(d)) == Some(d)
  {
  }

  predicate IsByte(b: int) { 0 <= b < 256 }

  /** The UTF-8 encoding of a Unicode scalar value. */
  function Utf8(cp: nat): (bs: seq<int>)
    requires cp < 0x11_0000
    ensures 1 <= |bs| <= 4
    ensures forall i :: 0 <= i < |bs| ==> IsByte(bs[i])
  {
    if cp < 0x80 then [cp]
    else if cp < 0x800 then [0xC0 + cp / 64, 0x80 + cp % 64]
    else if cp < 0x1_0000 then
      var q := cp / 64;
      [0xE0 + q / 64, 0x80 + q % 64, 0x80 + cp % 64]
    else
      var q := cp / 64;
      var q2 := q / 64;
      [0xF0 + q2 / 64, 0x80 + q2 % 64, 0x80 + q % 64, 0x80 + cp % 64]
  }

  /** `%XY` for one byte. */
  function PercentByte(b: int): (r: string)
    requires IsByte(b)
    ensures |r| == 3 && r[0] == '%' && IsUnreserved(r[1]) && IsUnreserved(r[2])
  {
    ['%', HexDigit(b / 16), HexDigit(b % 16)]
  }

  function PercentBytes(bs: seq<int>): (r: string)
    requires forall i :: 0 <= i < |bs| ==> IsByte(bs[i])
    ensures |r| == 3 * |bs|
    ensures bs != [] ==> r[0] == '%'
    ensures forall i :: 0 <= i < |r| ==> IsUnreserved(r[i]) || r[i] == '%'
  {
    if bs == [] then [] else PercentByte(bs[0]) + PercentBytes(bs[1..])
  }

  /** How `encodeURIComponent` writes one character. */
  function EncodeChar(c: char): (r: string)
    ensures r != []
    ensures r[0] == '%' || r == [c]
    ensures forall i :: 0 <= i < |r| ==> IsUnreserved(r[i]) || r[i] == '%'
  {
    if IsUnreserved(c) then [c] else PercentBytes(Utf8(c as int))
  }

  /** `encodeURIComponent(s)`: every character outside the unreserved set
      becomes the `%XY` escapes of its UTF-8 bytes. */
  function EncodeURIComponent(s: string): (r: string)
    ensures forall i :: 0 <= i < |r| ==> IsUnreserved(r[i]) || r[i] == '%'
    ensures |s| <= |r|
  {
    if s == [] then [] else EncodeChar(s[0]) + EncodeURIComponent(s[1..])
  }

  // ---------------------------------------------------------------------------
  // Decoding

  /** The byte written as `%XY` at position `i` of `s`, if there is one. */
  function ReadByte(s: string, i: nat): (r: Option<int>)
    ensures r.Some? ==> IsByte(r.value) && i + 3 <= |s|
  {
    if i + 3 <= |s| && s[i] == '%' && HexValue(s[i + 1]).Some? && HexValue(s[i + 2]).Some?
    then Some(16 * HexValue(s[i + 1]).value + HexValue(s[i + 2]).value)
    else None
  }

  /** A UTF-8 continuation byte `10xxxxxx` at position `i`, giving its six payload bits. */
  function ReadContinuation(s: string, i: nat): (r: Option<int>)
    ensures r.Some? ==> 0 <= r.value < 64 && i + 3 <= |s|
  {
    match ReadByte(s, i)
    case Some(b) => if 0x80 <= b < 0xC0 then Some(b - 0x80) else None
    case None => None
  }

  /** A decoded code point, if it is a Unicode scalar value in the range that
      an encoding of `n` bytes is allowed to carry (no overlong forms). */
  function ScalarOf(cp: int, n: nat): Option<char> {
    var least := if n == 2 then 0x80 else if n == 3 then 0x800 else 0x1_0000;
    if least <= cp < 0x11_0000 && !(0xD800 <= cp < 0xE000) then Some(cp as char) else None
  }

  /** Decodes the escapes of one character at the start of `s`, which begins with `%`,
      giving the character and how many characters of `s` it used. */
  function DecodeEscaped(s: string): (r: Option<(char, nat)>)
    ensures r.Some? ==> 0 < r.value.1 <= |s|
  {
    match ReadByte(s, 0)
    case None => None
    case Some(b0) =>
      if b0 < 0x80 then Some((b0 as char, 3))
      else if 0xC0 <= b0 < 0xE0 then
        match ReadContinuation(s, 3)
        case None => None
        case Some(x1) =>
          match ScalarOf((b0 - 0xC0) * 64 + x1, 2)
          case None => None
          case Some(c) => Some((c, 6))
      else if 0xE0 <= b0 < 0xF0 then
        match (ReadContinuation(s, 3), ReadContinuation(s, 6))
        case (Some(x1), Some(x2)) =>
          (match ScalarOf((b0 - 0xE0) * 4096 + x1 * 64 + x2, 3)
           case None => None
           case Some(c) => Some((c, 9)))
        case _ => None
      else if 0xF0 <= b0 < 0xF8 then
        match (ReadContinuation(s, 3), ReadContinuation(s, 6), ReadContinuation(s, 9))
        case (Some(x1), Some(x2), Some(x3)) =>
          (match ScalarOf((b0 - 0xF0) * 262144 + x1 * 4096 + x2 * 64 + x3, 4)
           case None => None
           case Some(c) => Some((c, 12)))
        case _ => None
      else None
  }

  function Prepend(c: char, r: Option<string>): Option<string> {
    match r
    case None => None
    case Some(t) => Some([c] + t)
  }

  /** `decodeURIComponent(s)`, with `None` where it would throw a `URIError`. */
  function DecodeURIComponent(s: string): Option<string>
    decreases |s|
  {
    if s == [] then Some([])
    else if s[0] != '%' then Prepend(s[0], DecodeURIComponent(s[1..]))
    else
      match DecodeEscaped(s)
      case None => None
      case Some(d) => Prepend(d.0, DecodeURIComponent(s[d.1..]))
  }

  // ---------------------------------------------------------------------------
  // Round trip

  lemma ReadPercentByte(b: int, rest: string)
    requires IsByte(b)
    ensures ReadByte(PercentByte(b) + rest, 0) == Some(b)
  {
    HexRoundTrip(b / 16);
    HexRoundTrip(b % 16);
  }

  lemma ReadPercentByteAt(bs: seq<int>, k: nat, rest: string)
    requires forall i :: 0 <= i < |bs| ==> IsByte(bs[i])
    requires k < |bs|
    ensures ReadByte(PercentBytes(bs) + rest, 3 * k) == Some(bs[k])
    decreases k
  {
    if k == 0 {
      assert PercentBytes(bs) + rest == PercentByte(bs[0]) + (PercentBytes(bs[1..]) + rest);
      ReadPercentByte(bs[0], PercentBytes(bs[1..]) + rest);
    } else {
      var tail := PercentBytes(bs[1..]) + rest;
      assert PercentBytes(bs) + rest == PercentByte(bs[0]) + tail;
      ReadPercentByteAt(bs[1..], k - 1, rest);
      ReadAfter(PercentByte(bs[0]), tail, 3 * k);
    }
  }

  /** `ReadByte` only looks at the three characters it reads, so text in front only shifts it. */
  lemma ReadAfter(p: string, t: string, i: nat)
    requires |p| <= i
    ensures ReadByte(p + t, i) == ReadByte(t, i - |p|)
  {
    var s := p + t;
    if i + 3 <= |s| {
      assert s[i] == t[i - |p|] && s[i + 1] == t[i - |p| + 1] && s[i + 2] == t[i - |p| + 2];
    }
  }

  /** The UTF-8 bytes of a code point carry its bits back: one lemma per length. */
  lemma Utf8Payload2(cp: nat)
    requires 0x80 <= cp < 0x800
    ensures var bs := Utf8(cp);
      |bs| == 2 && 0xC0 <= bs[0] < 0xE0 && 0x80 <= bs[1] < 0xC0
      && (bs[0] - 0xC0) * 64 + (bs[1] - 0x80) == cp
  {
  }

  lemma Utf8Payload3(cp: nat)
    requires 0x800 <= cp < 0x1_0000
    ensures var bs := Utf8(cp);
      |bs| == 3 && 0xE0 <= bs[0] < 0xF0 && 0x80 <= bs[1] < 0xC0 && 0x80 <= bs[2] < 0xC0
      && (bs[0] - 0xE0) * 4096 + (bs[1] - 0x80) * 64 + (bs[2] - 0x80) == cp
  {
    var q := cp / 64;
    assert cp == q * 64 + cp % 64;
    assert q == (q / 64) * 64 + q % 64;
  }

  lemma Utf8Payload4(cp: nat)
    requires 0x1_0000 <= cp < 0x11_0000
    ensures var bs := Utf8(cp);
      |bs| == 4 && 0xF0 <= bs[0] < 0xF8
      && 0x80 <= bs[1] < 0xC0 && 0x80 <= bs[2] < 0xC0 && 0x80 <= bs[3] < 0xC0
      && (bs[0] - 0xF0) * 262144 + (bs[1] - 0x80) * 4096 + (bs[2] - 0x80) * 64 + (bs[3] - 0x80) == cp
  {
    var q := cp / 64;
    var q2 := q / 64;
    assert cp == q * 64 + cp % 64;
    assert q == q2 * 64 + q % 64;
    assert q2 == (q2 / 64) * 64 + q2 % 64;
  }

  lemma DecodeTwo(s: string, b0: int, b1: int)
    requires ReadByte(s, 0) == Some(b0) && ReadByte(s, 3) == Some(b1)
    requires 0xC0 <= b0 < 0xE0 && 0x80 <= b1 < 0xC0
    ensures DecodeEscaped(s) == match ScalarOf((b0 - 0xC0) * 64 + (b1 - 0x80), 2)
      case None => None
      case Some(c) => Some((c, 6))
  {
  }

  lemma DecodeThree(s: string, b0: int, b1: int, b2: int)
    requires ReadByte(s, 0) == Some(b0) && ReadByte(s, 3) == Some(b1) && ReadByte(s, 6) == Some(b2)
    requires 0xE0 <= b0 < 0xF0 && 0x80 <= b1 < 0xC0 && 0x80 <= b2 < 0xC0
    ensures DecodeEscaped(s) == match ScalarOf((b0 - 0xE0) * 4096 + (b1 - 0x80) * 64 + (b2 - 0x80), 3)
      case None => None
      case Some(c) => Some((c, 9))
  {
  }

  lemma DecodeFour(s: string, b0: int, b1: int, b2: int, b3: int)
    requires ReadByte(s, 0) == Some(b0) && ReadByte(s, 3) == Some(b1)
    requires ReadByte(s, 6) == Some(b2) && ReadByte(s, 9) == Some(b3)
    requires 0xF0 <= b0 < 0xF8 && 0x80 <= b1 < 0xC0 && 0x80 <= b2 < 0xC0 && 0x80 <= b3 < 0xC0
    ensures DecodeEscaped(s) ==
      match ScalarOf((b0 - 0xF0) * 262144 + (b1 - 0x80) * 4096 + (b2 - 0x80) * 64 + (b3 - 0x80), 4)
      case None => None
      case Some(c) => Some((c, 12))
  {
  }

  lemma DecodeEscapedChar(c: char, rest: string)
    requires !IsUnreserved(c)
    ensures DecodeEscaped(EncodeChar(c) + rest) == Some((c, |EncodeChar(c)|))
  {
    var cp := c as int;
    assert EncodeChar(c) == PercentBytes(Utf8(cp));
    if cp < 0x80 {
      DecodeEscaped1(c, rest);
    } else if cp < 0x800 {
      DecodeEscaped2(c, rest);
    } else if cp < 0x1_0000 {
      DecodeEscaped3(c, rest);
    } else {
      DecodeEscaped4(c, rest);
    }
  }

  lemma DecodeEscaped1(c: char, rest: string)
    requires c as int < 0x80
    ensures DecodeEscaped(PercentBytes(Utf8(c as int)) + rest) == Some((c, 3))
  {
    ReadPercentByteAt(Utf8(c as int), 0, rest);
  }

  lemma DecodeEscaped2(c: char, rest: string)
    requires 0x80 <= c as int < 0x800
    ensures DecodeEscaped(PercentBytes(Utf8(c as int)) + rest) == Some((c, 6))
  {
    var cp := c as int;
    var bs := Utf8(cp);
    Utf8Payload2(cp);
    ReadPercentByteAt(bs, 0, rest);
    ReadPercentByteAt(bs, 1, rest);
    DecodeTwo(PercentBytes(bs) + rest, bs[0], bs[1]);
    assert ScalarOf(cp, 2) == Some(c);
  }

  lemma DecodeEscaped3(c: char, rest: string)
    requires 0x800 <= c as int < 0x1_0000
    ensures DecodeEscaped(PercentBytes(Utf8(c as int)) + rest) == Some((c, 9))
  {
    var cp := c as int;
    var bs := Utf8(cp);
    Utf8Payload3(cp);
    ReadPercentByteAt(bs, 0, rest);
    ReadPercentByteAt(bs, 1, rest);
    ReadPercentByteAt(bs, 2, rest);
    DecodeThree(PercentBytes(bs) + rest, bs[0], bs[1], bs[2]);
    assert ScalarOf(cp, 3) == Some(c);
  }

  lemma DecodeEscaped4(c: char, rest: string)
    requires 0x1_0000 <= c as int
    ensures DecodeEscaped(PercentBytes(Utf8(c as int)) + rest) == Some((c, 12))
  {
    var cp := c as int;
    var bs := Utf8(cp);
    Utf8Payload4(cp);
    ReadPercentByteAt(bs, 0, rest);
    ReadPercentByteAt(bs, 1, rest);
    ReadPercentByteAt(bs, 2, rest);
    ReadPercentByteAt(bs, 3, rest);
    DecodeFour(PercentBytes(bs) + rest, bs[0], bs[1], bs[2], bs[3]);
    assert ScalarOf(cp, 4) == Some(c);
  }

  /** Decoding one encoded character in front of any text yields that character in front of the decoded text. */
  lemma DecodeOneChar(c: char, rest: string)
    ensures DecodeURIComponent(EncodeChar(c) + rest) == Prepend(c, DecodeURIComponent(rest))
  {
    var e := EncodeChar(c);
    if IsUnreserved(c) {
      assert (e + rest)[1..] == rest;
    } else {
      DecodeEscapedChar(c, rest);
      assert (e + rest)[0] == '%';
      assert (e + rest)[|e|..] == rest;
    }
  }

  /** Decoding undoes `encodeURIComponent`, so the encoding loses nothing. */
  lemma {:induction false} DecodeEncode(s: string)
    ensures DecodeURIComponent(EncodeURIComponent(s)) == Some(s)
    decreases |s|
  {
    if s != [] {
      assert EncodeURIComponent(s) == EncodeChar(s[0]) + EncodeURIComponent(s[1..]);
      DecodeOneChar(s[0], EncodeURIComponent(s[1..]));
      DecodeEncode(s[1..]);
      assert [s[0]] + s[1..] == s;
    }
  }

  /** Two different names never share an encoded form. */
  lemma EncodeInjective(s: string, t: string)
    requires EncodeURIComponent(s) == EncodeURIComponent(t)
    ensures s == t
  {
    DecodeEncode(s);
    DecodeEncode(t);
  }
}
