/** Unicode scalar values in UTF-8 (RFC 3629, section 3) and UTF-16 (RFC 2781, sections 2.1 and 2.2). */
module Unicode {
  import opened Bits

  type scalar = n: int | 0 <= n < 0xD800 || 0xE000 <= n < 0x110000
  type unit16 = n: int | 0 <= n < 0x10000

  const REPLACEMENT: scalar := 0xFFFD

  function Utf8(c: scalar): seq<byte> {
    if c < 0x80 then [c]
    else if c < 0x800 then [0xC0 + c / 0x40, 0x80 + c % 0x40]
    else if c < 0x10000 then [0xE0 + c / 0x1000, 0x80 + c / 0x40 % 0x40, 0x80 + c % 0x40]
    else [0xF0 + c / 0x40000, 0x80 + c / 0x1000 % 0x40, 0x80 + c / 0x40 % 0x40, 0x80 + c % 0x40]
  }

  function Utf8Text(text: seq<scalar>): seq<byte> {
    if text == [] then [] else Utf8(text[0]) + Utf8Text(text[1..])
  }

  function Utf16(c: scalar): seq<unit16> {
    if c < 0x10000 then [c] else [0xD800 + (c - 0x10000) / 0x400, 0xDC00 + (c - 0x10000) % 0x400]
  }

  function Utf16Text(text: seq<scalar>): seq<unit16> {
    if text == [] then [] else Utf16(text[0]) + Utf16Text(text[1..])
  }

  predicate IsSurrogate(u: unit16) { 0xD800 <= u < 0xE000 }

  predicate IsTrailing(u: unit16) { 0xDC00 <= u < 0xE000 }

  /** Whether two units start the input that stand for one character. */
  predicate IsPair(units: seq<unit16>) {
    |units| >= 2 && 0xD800 <= units[0] < 0xDC00 && IsTrailing(units[1])
  }

  /** The first character of a nonempty input; a surrogate out of place counts as one replacement character. */
  function FirstChar(units: seq<unit16>): scalar
    requires units != []
  {
    if !IsSurrogate(units[0]) then units[0]
    else if IsPair(units) then 0x10000 + (units[0] - 0xD800) * 0x400 + (units[1] - 0xDC00)
    else REPLACEMENT
  }

  function FirstWidth(units: seq<unit16>): (n: nat)
    requires units != []
    ensures 1 <= n <= |units|
  {
    if IsPair(units) then 2 else 1
  }

  function DecodeUtf16(units: seq<unit16>): seq<scalar> {
    if units == [] then [] else [FirstChar(units)] + DecodeUtf16(units[FirstWidth(units)..])
  }

  // ---- UTF-8 read back

  predicate IsTail(b: byte) { 0x80 <= b < 0xC0 }

  /** The low bits of a byte. */
  function Low(b: byte, width: nat): nat
    requires width > 0
  {
    b % width
  }

  /** The character a well-formed sequence stands for, by the bits of its bytes, and how many bytes it takes. */
  function ReadUtf8(bytes: seq<byte>): (nat, nat)
    requires bytes != []
  {
    var lead := bytes[0];
    if lead < 0x80 || |bytes| < 2 then (lead, 1)
    else if lead < 0xE0 || |bytes| < 3 then (Low(lead, 0x20) * 0x40 + Low(bytes[1], 0x40), 2)
    else if lead < 0xF0 || |bytes| < 4 then
      ((Low(lead, 0x10) * 0x40 + Low(bytes[1], 0x40)) * 0x40 + Low(bytes[2], 0x40), 3)
    else
      (((Low(lead, 8) * 0x40 + Low(bytes[1], 0x40)) * 0x40 + Low(bytes[2], 0x40)) * 0x40 + Low(bytes[3], 0x40), 4)
  }

  lemma LowOfTail(n: nat)
    requires n < 0x40
    ensures Low(0x80 + n, 0x40) == n
  {}

  lemma SixBits(c: nat)
    ensures c / 0x40 * 0x40 + c % 0x40 == c && c / 0x1000 == c / 0x40 / 0x40 && c / 0x40000 == c / 0x1000 / 0x40
  {}

  lemma TwoBytesRead(c: scalar, rest: seq<byte>)
    requires 0x80 <= c < 0x800
    ensures ReadUtf8(Utf8(c) + rest) == (c as nat, 2)
  {
    SixBits(c);
    LowOfTail(c % 0x40);
    assert Low(0xC0 + c / 0x40, 0x20) == c / 0x40;
  }

  lemma ThreeBytesRead(c: scalar, rest: seq<byte>)
    requires 0x800 <= c < 0x10000
    ensures ReadUtf8(Utf8(c) + rest) == (c as nat, 3)
  {
    SixBits(c); SixBits(c / 0x40);
    LowOfTail(c / 0x40 % 0x40); LowOfTail(c % 0x40);
    assert Low(0xE0 + c / 0x1000, 0x10) == c / 0x1000;
  }

  lemma FourBytesRead(c: scalar, rest: seq<byte>)
    requires 0x10000 <= c
    ensures ReadUtf8(Utf8(c) + rest) == (c as nat, 4)
  {
    SixBits(c); SixBits(c / 0x40); SixBits(c / 0x1000);
    LowOfTail(c / 0x1000 % 0x40); LowOfTail(c / 0x40 % 0x40); LowOfTail(c % 0x40);
    assert Low(0xF0 + c / 0x40000, 8) == c / 0x40000;
  }

  /** A character's bytes are a lead byte and tail bytes, as few as the standard allows, and read back as the
      character whatever follows. */
  lemma Utf8ReadsBack(c: scalar, rest: seq<byte>)
    ensures ReadUtf8(Utf8(c) + rest) == (c as nat, |Utf8(c)|)
    ensures |Utf8(c)| == (if c < 0x80 then 1 else if c < 0x800 then 2 else if c < 0x10000 then 3 else 4)
    ensures !IsTail(Utf8(c)[0]) && forall i :: 1 <= i < |Utf8(c)| ==> IsTail(Utf8(c)[i])
  {
    if 0x80 <= c < 0x800 { TwoBytesRead(c, rest); }
    if 0x800 <= c < 0x10000 { ThreeBytesRead(c, rest); }
    if 0x10000 <= c { FourBytesRead(c, rest); }
  }

  /** Different texts have different UTF-8 forms. */
  lemma {:induction false} Utf8TextDiffers(a: seq<scalar>, b: seq<scalar>)
    requires Utf8Text(a) == Utf8Text(b)
    ensures a == b
  {
    if a != [] && b != [] {
      var x, y := Utf8Text(a[1..]), Utf8Text(b[1..]);
      Utf8ReadsBack(a[0], x);
      Utf8ReadsBack(b[0], y);
      assert x == (Utf8(a[0]) + x)[|Utf8(a[0])|..] && y == (Utf8(b[0]) + y)[|Utf8(b[0])|..];
      Utf8TextDiffers(a[1..], b[1..]);
      assert a == [a[0]] + a[1..] && b == [b[0]] + b[1..];
    }
  }

  // ---- UTF-16 read back

  /** A surrogate without its partner is read as U+FFFD, and only that one unit. */
  lemma LoneSurrogateIsReplaced(u: unit16, rest: seq<unit16>)
    requires 0xDC00 <= u < 0xE000 || (0xD800 <= u < 0xDC00 && (rest == [] || !(0xDC00 <= rest[0] < 0xE000)))
    ensures DecodeUtf16([u] + rest) == [0xFFFD] + DecodeUtf16(rest)
  {
    assert ([u] + rest)[1..] == rest;
  }

  lemma FirstCharOfUtf16(c: scalar, rest: seq<unit16>)
    ensures FirstChar(Utf16(c) + rest) == c
    ensures (Utf16(c) + rest)[FirstWidth(Utf16(c) + rest)..] == rest
  {}

  lemma {:induction false} DecodeInvertsUtf16(text: seq<scalar>)
    ensures DecodeUtf16(Utf16Text(text)) == text
  {
    if text != [] {
      FirstCharOfUtf16(text[0], Utf16Text(text[1..]));
      DecodeInvertsUtf16(text[1..]);
    }
  }

  lemma {:induction false} Utf16HasNoZero(text: seq<scalar>)
    requires 0 !in text
    ensures 0 !in Utf16Text(text)
  {
    if text != [] {
      assert text[0] in text && forall c :: c in text[1..] ==> c in text;
      Utf16HasNoZero(text[1..]);
    }
  }

  lemma {:induction false} Utf16Concat(a: seq<scalar>, b: seq<scalar>)
    ensures Utf16Text(a + b) == Utf16Text(a) + Utf16Text(b)
  {
    if a == [] {
      assert a + b == b;
    } else {
      assert (a + b)[1..] == a[1..] + b;
      Utf16Concat(a[1..], b);
    }
  }

  /** The part of a text before its first U+0000. */
  function BeforeNul(text: seq<scalar>): (p: seq<scalar>)
    ensures 0 !in p
    ensures p <= text && (|p| < |text| ==> text[|p|] == 0)
    ensures 0 !in text ==> p == text
  {
    if text == [] || text[0] == 0 then [] else [text[0]] + BeforeNul(text[1..])
  }
}
