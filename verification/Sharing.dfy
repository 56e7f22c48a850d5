/** Recovery shares: Shamir's scheme with threshold 2 of 3 over GF(256), printed and parsed. */
module Sharing {
  import opened Bits
  import opened Gf256
  import opened Results
  import opened Text

  const MAX_SECRET := 1024
  const MAX_SHARE_TEXT := 2080

  // ---- Lines over the field

  /** The value at x of the line with the given slope and intercept. */
  function Line(slope: byte, secret: byte, x: byte): byte {
    Add(Mul(slope, x), secret)
  }

  function Points(secret: seq<byte>, slopes: seq<byte>, x: byte): (ys: seq<byte>)
    requires |slopes| == |secret|
    ensures |ys| == |secret|
  {
    seq(|secret|, i requires 0 <= i < |secret| => Line(slopes[i], secret[i], x))
  }

  /** The value at zero of the line through two points. */
  function Intercept(x1: byte, y1: byte, x2: byte, y2: byte): byte {
    Div(Add(Mul(x2, y1), Mul(x1, y2)), Add(x1, x2))
  }

  lemma SumNonzero(a: byte, b: byte)
    requires a != b
    ensures Add(a, b) != 0
  {
    if Add(a, b) == 0 { XorOnlyEqual(a, b); }
  }

  /** The cross products of two points of one line add up to the intercept times the gap. */
  lemma CrossProducts(slope: byte, s: byte, x1: byte, x2: byte)
    ensures Add(Mul(x2, Line(slope, s, x1)), Mul(x1, Line(slope, s, x2))) == Mul(s, Add(x1, x2))
  {
    var p := Mul(x2, Mul(slope, x1));
    Distributes(x2, Mul(slope, x1), s);
    Distributes(x1, Mul(slope, x2), s);
    MulAssoc(x2, slope, x1); MulComm(x2, slope); MulComm(Mul(slope, x2), x1);
    assert Mul(x1, Mul(slope, x2)) == p;
    XorSwap(p, Mul(x2, s), p, Mul(x1, s));
    XorSelf(p); XorZero(Add(Mul(x2, s), Mul(x1, s)));
    MulComm(x2, s); MulComm(x1, s); XorComm(Mul(s, x2), Mul(s, x1));
    Distributes(s, x1, x2);
  }

  lemma InterceptOfLine(slope: byte, s: byte, x1: byte, x2: byte)
    requires x1 != x2
    ensures Intercept(x1, Line(slope, s, x1), x2, Line(slope, s, x2)) == s
  {
    CrossProducts(slope, s, x1, x2);
    SumNonzero(x1, x2);
    DivUndoesMul(s, Add(x1, x2));
  }

  /** The slope of the line through (0, s) and (x, y). */
  function Slope(x: byte, y: byte, s: byte): byte {
    Div(Add(y, s), x)
  }

  lemma SlopeIsUnique(x: byte, y: byte, s: byte, slope: byte)
    requires x != 0
    ensures Line(slope, s, x) == y <==> slope == Slope(x, y, s)
  {
    DivUndoesMul(Add(y, s), x);
    XorCancel(y, s);
    if Line(slope, s, x) == y {
      XorCancel(Mul(slope, x), s);
      DivUndoesMul(slope, x);
    }
  }

  /** One share says nothing about the secret: whatever it holds, every candidate secret of its length
      is explained by exactly one choice of slopes. */
  lemma OneShareFitsEverySecret(x: byte, ys: seq<byte>, candidate: seq<byte>, slopes: seq<byte>)
    requires x != 0 && |ys| == |candidate| == |slopes|
    ensures Points(candidate, slopes, x) == ys <==>
            slopes == seq(|ys|, i requires 0 <= i < |ys| => Slope(x, ys[i], candidate[i]))
  {
    var unique := seq(|ys|, i requires 0 <= i < |ys| => Slope(x, ys[i], candidate[i]));
    forall i | 0 <= i < |ys|
      ensures Points(candidate, slopes, x)[i] == ys[i] <==> slopes[i] == unique[i]
    {
      SlopeIsUnique(x, ys[i], candidate[i], slopes[i]);
    }
    if slopes == unique { assert Points(candidate, slopes, x) == ys; }
    if Points(candidate, slopes, x) == ys { assert slopes == unique; }
  }

  // ---- Share texts

  const DIGITS := "0123456789abcdef"

  function HexDigit(n: nat): char
    requires n < 16
  {
    DIGITS[n]
  }

  function Hex(bytes: seq<byte>): string {
    if bytes == [] then "" else [HexDigit(bytes[0] / 16), HexDigit(bytes[0] % 16)] + Hex(bytes[1..])
  }

  function HexValue(c: char): (v: Option<nat>)
    ensures v.Some? ==> v.value < 16
  {
    if '0' <= c <= '9' then Some(c as int - '0' as int)
    else if 'a' <= c <= 'f' then Some(c as int - 'a' as int + 10)
    else None
  }

  /** The strict lower-case decoder: whole bytes only, nothing but hexadecimal digits. */
  function UnHex(s: string): Option<seq<byte>> {
    if s == [] then Some([])
    else if |s| == 1 || HexValue(s[0]).None? || HexValue(s[1]).None? then None
    else
      var rest := UnHex(s[2..]);
      if rest.None? then None else Some([16 * HexValue(s[0]).value + HexValue(s[1]).value] + rest.value)
  }

  lemma HexDigitValue(c: char, n: nat)
    requires n < 16
    ensures HexValue(c) == Some(n) <==> c == HexDigit(n)
  {}

  lemma UnHexCons(s: string, high: nat, low: nat, rest: seq<byte>)
    requires |s| >= 2 && HexValue(s[0]) == Some(high) && HexValue(s[1]) == Some(low) && UnHex(s[2..]) == Some(rest)
    ensures UnHex(s) == Some([16 * high + low] + rest)
  {}

  lemma {:induction false} UnHexOfHex(bytes: seq<byte>)
    ensures UnHex(Hex(bytes)) == Some(bytes)
  {
    if bytes != [] {
      UnHexOfHex(bytes[1..]);
      var s := Hex(bytes);
      HexDigitValue(s[0], bytes[0] / 16);
      HexDigitValue(s[1], bytes[0] % 16);
      assert s[2..] == Hex(bytes[1..]);
      UnHexCons(s, bytes[0] / 16, bytes[0] % 16, bytes[1..]);
      assert [bytes[0]] + bytes[1..] == bytes;
    }
  }

  lemma {:induction false} HexOfUnHex(s: string)
    requires UnHex(s).Some?
    ensures Hex(UnHex(s).value) == s
  {
    if s != [] {
      HexOfUnHex(s[2..]);
      var bytes := UnHex(s).value;
      var high, low := HexValue(s[0]).value, HexValue(s[1]).value;
      assert bytes[0] / 16 == high && bytes[0] % 16 == low;
      HexDigitValue(s[0], high);
      HexDigitValue(s[1], low);
      assert bytes[1..] == UnHex(s[2..]).value;
      assert s == [s[0], s[1]] + s[2..];
    }
  }

  /** A share as printed: prefix, coordinate and lower-case hexadecimal values, around two hyphens. */
  function Print(prefix: string, share: Share): string
    requires 1 <= share.x <= 3
  {
    prefix + "-" + (("SHARE" + [HexDigit(share.x)]) + "-" + Hex(share.ys))
  }

  function ParseDigit(c: char): Option<nat> {
    if '0' <= c <= '9' then Some(c as int - '0' as int) else None
  }

  datatype Share = Share(x: byte, ys: seq<byte>)

  predicate Announced(upper: string) {
    StartsWith(upper, "YNTRA-SHARE") || StartsWith(upper, "SL-SHARE")
  }

  function ParseShare(text: string): Result<Share> {
    if Utf8Len(text) > MAX_SHARE_TEXT then Err("Recovery share too long")
    else
      var trimmed := Trim(text);
      if !Announced(Upper(trimmed)) then Err("Share must start with YNTRA-SHARE or SL-SHARE")
      else
        var parts := Split(trimmed, '-');
        if |parts| != 3 then Err("Invalid share string format") else ParsePieces(Upper(parts[1]), parts[2])
  }

  function ParsePieces(coord: string, hex: string): Result<Share> {
    if Utf8Len(coord) != 6 || !StartsWith(coord, "SHARE") then Err("Invalid share identifier")
    else ParseBody(coord[5..], hex)
  }

  function ParseBody(digit: string, hex: string): Result<Share> {
    if |digit| != 1 || ParseDigit(digit[0]).None? then Err("Invalid share coordinate")
    else
      var x := ParseDigit(digit[0]).value;
      if !(1 <= x <= 3) then Err("Share coordinate must be between 1 and 3")
      else
        var bytes := UnHex(Lower(hex));
        if bytes.None? then Err("Invalid share hex")
        else if !(1 <= |bytes.value| <= MAX_SECRET) then Err("Share data must be between 1 and 1024 bytes")
        else Ok(Share(x, bytes.value))
  }

  /** The text is a print of the share: in any letter case, under the current or the older prefix,
      between any white space. */
  predicate Shows(text: string, share: Share) {
    && 1 <= share.x <= 3
    && (Upper(Trim(text)) == Upper(Print("YNTRA", share)) || Upper(Trim(text)) == Upper(Print("SL", share)))
  }

  lemma UpperOfThree(p: string, q: string, r: string)
    ensures Upper(p + "-" + (q + "-" + r)) == Upper(p) + "-" + (Upper(q) + "-" + Upper(r))
  {
    UpperConcat(p + "-", q + "-" + r); UpperConcat(p, "-"); UpperConcat(q + "-", r); UpperConcat(q, "-");
  }

  lemma {:induction false} HexHasNoHyphen(bytes: seq<byte>)
    ensures '-' !in Hex(bytes)
  {
    if bytes != [] {
      HexHasNoHyphen(bytes[1..]);
      assert HexDigit(bytes[0] / 16) != '-' && HexDigit(bytes[0] % 16) != '-';
    }
  }

  /** A text that equals p-q-r up to letter case falls into three pieces that equal p, q and r. */
  lemma PiecesOfVariant(t: string, p: string, q: string, r: string) returns (p': string, q': string, r': string)
    requires Upper(t) == Upper(p + "-" + (q + "-" + r))
    requires '-' !in p && '-' !in q && '-' !in r
    ensures Upper(p') == Upper(p) && Upper(q') == Upper(q) && Upper(r') == Upper(r)
    ensures Split(t, '-') == [p', q', r']
  {
    UpperOfThree(p, q, r);
    var u := Upper(t);
    var m, n := |p|, |p| + 1 + |q|;
    p', q', r' := t[..m], t[m + 1..n], t[n + 1..];
    assert Upper(p') == u[..m] == Upper(p);
    assert Upper(q') == u[m + 1..n] == Upper(q);
    assert Upper(r') == u[n + 1..] == Upper(r);
    assert u[m] == '-' && u[n] == '-';
    assert t[m] == '-' && t[n] == '-';
    assert t == p' + "-" + (q' + "-" + r');
    UpperKeepsHyphen(p); UpperKeepsHyphen(p'); UpperKeepsHyphen(q); UpperKeepsHyphen(q');
    UpperKeepsHyphen(r); UpperKeepsHyphen(r');
    SplitThree(p', q', r', '-');
  }

  lemma {:induction false} HexIsLower(bytes: seq<byte>)
    ensures Lower(Hex(bytes)) == Hex(bytes)
  {
    if bytes != [] {
      HexIsLower(bytes[1..]);
      assert LowerChar(HexDigit(bytes[0] / 16)) == HexDigit(bytes[0] / 16);
      assert LowerChar(HexDigit(bytes[0] % 16)) == HexDigit(bytes[0] % 16);
      forall i | 0 <= i < |Hex(bytes)| ensures LowerChar(Hex(bytes)[i]) == Hex(bytes)[i] {
        if i >= 2 { assert LowerChar(Hex(bytes[1..])[i - 2]) == Lower(Hex(bytes[1..]))[i - 2]; }
      }
    }
  }

  lemma ParsesBodyVariant(share: Share, hex: string)
    requires 1 <= share.x <= 3 && 1 <= |share.ys| <= MAX_SECRET
    requires Upper(hex) == Upper(Hex(share.ys))
    ensures ParseBody([HexDigit(share.x)], hex) == Ok(share)
  {
    UpperOfLower(hex); UpperOfLower(Hex(share.ys));
    HexIsLower(share.ys);
    UnHexOfHex(share.ys);
  }

  lemma Identifier(x: byte)
    requires 1 <= x <= 3
    ensures var q := "SHARE" + [HexDigit(x)];
            Upper(q) == q && q[5..] == [HexDigit(x)] && '-' !in q && Utf8Len(q) == 6 && StartsWith(q, "SHARE")
  {
    var q := "SHARE" + [HexDigit(x)];
    AsciiSize(q);
    assert HexDigit(x) in "123";
  }

  lemma StartsJoined(head: string, word: string, q: string, rest: string)
    requires StartsWith(q, word)
    ensures StartsWith(head + (q + rest), head + word)
  {
    assert q == word + q[|word|..];
    assert head + (q + rest) == (head + word) + (q[|word|..] + rest);
  }

  lemma AnnouncedWords(prefix: string, word: string)
    requires (prefix == "YNTRA" || prefix == "SL") && word == "SHARE"
    ensures Upper(prefix) == prefix
    ensures (prefix + "-") + word == (if prefix == "SL" then "SL-SHARE" else "YNTRA-SHARE")
  {}

  lemma VariantStart(t: string, prefix: string, q: string, rest: string)
    requires prefix == "YNTRA" || prefix == "SL"
    requires Upper(t) == Upper(prefix + "-" + (q + "-" + rest)) && Upper(q) == q && StartsWith(q, "SHARE")
    ensures Announced(Upper(t))
  {
    var word := "SHARE";
    UpperOfThree(prefix, q, rest);
    AnnouncedWords(prefix, word);
    StartsJoined(prefix + "-", word, q, "-" + Upper(rest));
    assert q + "-" + Upper(rest) == q + ("-" + Upper(rest));
  }

  lemma ParsesPieces(text: string, p: string, q: string, hex: string)
    requires Utf8Len(text) <= MAX_SHARE_TEXT && Split(Trim(text), '-') == [p, q, hex]
    requires Announced(Upper(Trim(text)))
    ensures ParseShare(text) == ParsePieces(Upper(q), hex)
  {}

  lemma ParsesIdentified(share: Share, q: string, hex: string)
    requires 1 <= share.x <= 3 && 1 <= |share.ys| <= MAX_SECRET
    requires q == "SHARE" + [HexDigit(share.x)] && Upper(hex) == Upper(Hex(share.ys))
    ensures ParsePieces(q, hex) == Ok(share)
  {
    Identifier(share.x);
    ParsesBodyVariant(share, hex);
  }

  lemma VariantPieces(t: string, prefix: string, q: string, hex: string) returns (p: string, q': string, hex': string)
    requires prefix == "YNTRA" || prefix == "SL"
    requires Upper(t) == Upper(prefix + "-" + (q + "-" + hex)) && Upper(q) == q && StartsWith(q, "SHARE")
    requires '-' !in q && '-' !in hex
    ensures Announced(Upper(t)) && Split(t, '-') == [p, q', hex'] && Upper(q') == q && Upper(hex') == Upper(hex)
  {
    VariantStart(t, prefix, q, hex);
    p, q', hex' := PiecesOfVariant(t, prefix, q, hex);
  }

  lemma ParsesVariant(text: string, prefix: string, share: Share)
    requires prefix == "YNTRA" || prefix == "SL"
    requires 1 <= share.x <= 3 && 1 <= |share.ys| <= MAX_SECRET && Utf8Len(text) <= MAX_SHARE_TEXT
    requires Upper(Trim(text)) == Upper(Print(prefix, share))
    ensures ParseShare(text) == Ok(share)
  {
    var hex, q := Hex(share.ys), "SHARE" + [HexDigit(share.x)];
    Identifier(share.x);
    HexHasNoHyphen(share.ys);
    var p, q', hex' := VariantPieces(Trim(text), prefix, q, hex);
    ParsesPieces(text, p, q', hex');
    ParsesIdentified(share, q, hex');
  }

  lemma FirstPiece(p: string, rest: string, prefix: string)
    requires '-' !in p && '-' !in prefix
    requires StartsWith(Upper(p + "-" + rest), prefix + "-SHARE")
    ensures Upper(p) == prefix
  {
    var t := p + "-" + rest;
    var u, head := Upper(t), prefix + "-SHARE";
    assert u[|prefix|] == head[|prefix|] == '-';
    assert t[|p|] == '-' && u[|p|] == '-';
    assert forall i | 0 <= i < |p| :: t[i] == p[i] && t[i] != '-';
    assert forall i | 0 <= i < |prefix| :: u[i] == prefix[i] && u[i] != '-';
    assert t[|prefix|] == '-';
    assert |p| == |prefix|;
    assert u[..|p|] == Upper(p);
    assert head[..|p|] == prefix;
  }

  lemma OnlyPrintsBodyParse(digit: string, hex: string, share: Share)
    requires ParseBody(digit, hex) == Ok(share)
    ensures 1 <= share.x <= 3 && 1 <= |share.ys| <= MAX_SECRET
    ensures digit == [HexDigit(share.x)] && Upper(hex) == Upper(Hex(share.ys))
  {
    HexOfUnHex(Lower(hex));
    UpperOfLower(hex);
  }

  lemma IdentifierOf(coord: string, digit: char)
    requires StartsWith(coord, "SHARE") && coord[5..] == [digit]
    ensures coord == "SHARE" + [digit]
  {
    assert coord == coord[..5] + coord[5..];
  }

  lemma PiecesOfParsed(text: string, share: Share) returns (prefix: string, p: string, q: string, hex: string)
    requires ParseShare(text) == Ok(share)
    ensures Utf8Len(text) <= MAX_SHARE_TEXT
    ensures prefix == "YNTRA" || prefix == "SL"
    ensures Trim(text) == p + "-" + (q + "-" + hex) && '-' !in p
    ensures StartsWith(Upper(Trim(text)), prefix + "-SHARE")
    ensures StartsWith(Upper(q), "SHARE") && ParseBody(Upper(q)[5..], hex) == Ok(share)
  {
    var t := Trim(text);
    var parts := Split(t, '-');
    p, q, hex := parts[0], parts[1], parts[2];
    SplitJoins(t, '-'); JoinThree(p, q, hex, '-');
    assert parts == [p, q, hex];
    ParsesPieces(text, p, q, hex);
    prefix := PrefixOf(Upper(t));
  }

  lemma PrefixOf(upper: string) returns (prefix: string)
    requires Announced(upper)
    ensures (prefix == "YNTRA" || prefix == "SL") && StartsWith(upper, prefix + "-SHARE")
  {
    if StartsWith(upper, "YNTRA-SHARE") {
      prefix := "YNTRA";
      assert prefix + "-SHARE" == "YNTRA-SHARE";
    } else {
      prefix := "SL";
      assert prefix + "-SHARE" == "SL-SHARE";
    }
  }

  lemma SamePieces(p: string, q: string, r: string, p': string, q': string, r': string)
    requires Upper(p) == Upper(p') && Upper(q) == Upper(q') && Upper(r) == Upper(r')
    ensures Upper(p + "-" + (q + "-" + r)) == Upper(p' + "-" + (q' + "-" + r'))
  {
    UpperOfThree(p, q, r);
    UpperOfThree(p', q', r');
  }

  lemma PiecesShow(text: string, share: Share, prefix: string, p: string, q: string, hex: string)
    requires prefix == "YNTRA" || prefix == "SL"
    requires Trim(text) == p + "-" + (q + "-" + hex) && '-' !in p
    requires StartsWith(Upper(Trim(text)), prefix + "-SHARE")
    requires StartsWith(Upper(q), "SHARE") && ParseBody(Upper(q)[5..], hex) == Ok(share)
    ensures Shows(text, share) && 1 <= |share.ys| <= MAX_SECRET
  {
    FirstPiece(p, q + "-" + hex, prefix);
    OnlyPrintsBodyParse(Upper(q)[5..], hex, share);
    IdentifierOf(Upper(q), HexDigit(share.x));
    Identifier(share.x);
    assert Upper(prefix) == prefix;
    SamePieces(p, q, hex, prefix, "SHARE" + [HexDigit(share.x)], Hex(share.ys));
  }

  lemma OnlyPrintsParse(text: string, share: Share)
    requires ParseShare(text) == Ok(share)
    ensures Shows(text, share) && 1 <= |share.ys| <= MAX_SECRET && Utf8Len(text) <= MAX_SHARE_TEXT
  {
    var prefix, p, q, hex := PiecesOfParsed(text, share);
    PiecesShow(text, share, prefix, p, q, hex);
  }

  /** The parser accepts exactly the prints of shares, in any letter case, under either prefix and between
      any white space, that fit the length limits; and it returns the share that was printed. */
  lemma ParseAcceptsExactlyPrints(text: string, share: Share)
    ensures ParseShare(text) == Ok(share) <==>
      Shows(text, share) && 1 <= |share.ys| <= 1024 && Utf8Len(text) <= 2080
  {
    if ParseShare(text) == Ok(share) {
      OnlyPrintsParse(text, share);
    } else if Shows(text, share) && 1 <= |share.ys| <= MAX_SECRET && Utf8Len(text) <= MAX_SHARE_TEXT {
      ParsesVariant(text, if Upper(Trim(text)) == Upper(Print("YNTRA", share)) then "YNTRA" else "SL", share);
    }
  }

  // ---- Splitting and reconstructing

  function ShareAt(secret: seq<byte>, slopes: seq<byte>, x: byte): Share
    requires |slopes| == |secret|
  {
    Share(x, Points(secret, slopes, x))
  }

  /** Splits a secret, given the random slope drawn for each of its bytes. */
  method SplitSecret(secret: seq<byte>, slopes: seq<byte>) returns (r: Result<seq<string>>)
    requires |slopes| == |secret|
    ensures r.Ok? <==> 1 <= |secret| <= 1024
    ensures r.Ok? ==> |r.value| == 3
    ensures r.Ok? ==> forall x :: 1 <= x <= 3 ==> r.value[x - 1] == Print("YNTRA", ShareAt(secret, slopes, x))
  {
    if |secret| == 0 || |secret| > MAX_SECRET {
      return Err("Secret length must be between 1 and 1024 bytes");
    }
    var ys1: seq<byte>, ys2: seq<byte>, ys3: seq<byte> := [], [], [];
    for i := 0 to |secret|
      invariant ys1 == Points(secret, slopes, 1)[..i]
      invariant ys2 == Points(secret, slopes, 2)[..i]
      invariant ys3 == Points(secret, slopes, 3)[..i]
    {
      var a, s := slopes[i], secret[i];
      var p1 := GfMul(a, 1);
      var p2 := GfMul(a, 2);
      var p3 := GfMul(a, 3);
      ys1, ys2, ys3 := ys1 + [Add(p1, s)], ys2 + [Add(p2, s)], ys3 + [Add(p3, s)];
    }
    assert ys1 == Points(secret, slopes, 1) && ys2 == Points(secret, slopes, 2) && ys3 == Points(secret, slopes, 3);
    var text1, text2 := Print("YNTRA", Share(1, ys1)), Print("YNTRA", Share(2, ys2));
    var text3 := Print("YNTRA", Share(3, ys3));
    r := Ok([text1, text2, text3]);
  }

  function Interpolated(s: Share, t: Share): Result<seq<byte>> {
    if s.x == t.x then Err("Cannot reconstruct using identical shares")
    else if |s.ys| != |t.ys| then Err("Share byte lengths do not match")
    else Ok(seq(|s.ys|, i requires 0 <= i < |s.ys| => Intercept(s.x, s.ys[i], t.x, t.ys[i])))
  }

  /** What two share texts reconstruct: the first error met, or the intercepts of the lines. */
  function Reconstructed(a: string, b: string): Result<seq<byte>> {
    match ParseShare(a)
    case Err(message) => Err(message)
    case Ok(s) =>
      match ParseShare(b)
      case Err(message) => Err(message)
      case Ok(t) => Interpolated(s, t)
  }

  method Interpolate(s: Share, t: Share) returns (r: Result<seq<byte>>)
    ensures r == Interpolated(s, t)
  {
    if s.x == t.x { return Err("Cannot reconstruct using identical shares"); }
    if |s.ys| != |t.ys| { return Err("Share byte lengths do not match"); }
    SumNonzero(s.x, t.x);
    ghost var whole := Interpolated(s, t).value;
    var secret: seq<byte> := [];
    for i := 0 to |s.ys|
      invariant secret == whole[..i]
    {
      var p := GfMul(t.x, s.ys[i]);
      var q := GfMul(s.x, t.ys[i]);
      // The divisor is not zero, so the division does not report an error.
      var quotient := GfDiv(Add(p, q), Add(s.x, t.x));
      secret := secret + [quotient.value];
    }
    assert secret == whole;
    r := Ok(secret);
  }

  method ReconstructSecret(a: string, b: string) returns (r: Result<seq<byte>>)
    ensures r == Reconstructed(a, b)
  {
    var s, t := ParseShare(a), ParseShare(b);
    if s.Err? { return Err(s.message); }
    if t.Err? { return Err(t.message); }
    r := Interpolate(s.value, t.value);
  }

  lemma InterpolatesLines(secret: seq<byte>, slopes: seq<byte>, x1: byte, x2: byte)
    requires |slopes| == |secret| && x1 != x2
    ensures Interpolated(ShareAt(secret, slopes, x1), ShareAt(secret, slopes, x2)) == Ok(secret)
  {
    var s, t := ShareAt(secret, slopes, x1), ShareAt(secret, slopes, x2);
    forall i | 0 <= i < |secret| ensures Intercept(x1, s.ys[i], x2, t.ys[i]) == secret[i] {
      InterceptOfLine(slopes[i], secret[i], x1, x2);
    }
    assert Interpolated(s, t).value == secret;
  }

  /** Any two distinct shares give the secret back, whatever slopes were drawn, in either order, and
      however the letter case, the prefix or the surrounding white space of their texts changed. */
  lemma TwoSharesReconstruct(secret: seq<byte>, slopes: seq<byte>, x1: byte, x2: byte, a: string, b: string)
    requires 1 <= |secret| <= MAX_SECRET && |slopes| == |secret| && x1 != x2
    requires Shows(a, ShareAt(secret, slopes, x1)) && Utf8Len(a) <= MAX_SHARE_TEXT
    requires Shows(b, ShareAt(secret, slopes, x2)) && Utf8Len(b) <= MAX_SHARE_TEXT
    ensures Reconstructed(a, b) == Ok(secret)
  {
    ParseAcceptsExactlyPrints(a, ShareAt(secret, slopes, x1));
    ParseAcceptsExactlyPrints(b, ShareAt(secret, slopes, x2));
    InterpolatesLines(secret, slopes, x1, x2);
  }

  /** Two texts reconstruct something exactly when both show shares, of different coordinates and equal lengths; a
      share and its own copy reconstruct nothing. */
  lemma ReconstructsIff(a: string, b: string)
    ensures Reconstructed(a, b).Ok?
            <==> (&& ParseShare(a).Ok? && ParseShare(b).Ok? && ParseShare(a).value.x != ParseShare(b).value.x
                  && |ParseShare(a).value.ys| == |ParseShare(b).value.ys|)
  {}

  lemma {:induction false} HexIsPlain(bytes: seq<byte>)
    ensures |Hex(bytes)| == 2 * |bytes|
    ensures forall c :: c in Hex(bytes) ==> c in DIGITS
  {
    if bytes != [] { HexIsPlain(bytes[1..]); }
  }

  lemma PrintIsPlain(prefix: string, share: Share)
    requires prefix == "YNTRA" || prefix == "SL"
    requires 1 <= share.x <= 3
    ensures var text := Print(prefix, share);
            |text| == |prefix| + 8 + 2 * |share.ys| && (forall c :: c in text ==> 0x20 < c as int < 0x80)
  {
    HexIsPlain(share.ys);
    var head, hex := prefix + "-SHARE" + [HexDigit(share.x)] + "-", Hex(share.ys);
    assert Print(prefix, share) == head + hex;
    assert HexDigit(share.x) in "123";
    forall c | c in head ensures 0x20 < c as int < 0x80 {}
    forall c | c in hex ensures 0x20 < c as int < 0x80 { assert c in DIGITS; }
  }

  /** A share as printed passes the length gate, and shows the share. */
  lemma PrintFits(prefix: string, share: Share)
    requires prefix == "YNTRA" || prefix == "SL"
    requires 1 <= share.x <= 3 && 1 <= |share.ys| <= MAX_SECRET
    ensures Shows(Print(prefix, share), share)
    ensures Utf8Len(Print(prefix, share)) == |prefix| + 8 + 2 * |share.ys| <= MAX_SHARE_TEXT
  {
    var text := Print(prefix, share);
    PrintIsPlain(prefix, share);
    assert text[0] in text && text[|text| - 1] in text;
    TrimKeeps(text);
    AsciiSize(text);
  }

  /** The printed shares of a split reconstruct the secret. */
  lemma PrintedSharesReconstruct(secret: seq<byte>, slopes: seq<byte>, x1: byte, x2: byte)
    requires 1 <= |secret| <= MAX_SECRET && |slopes| == |secret|
    requires 1 <= x1 <= 3 && 1 <= x2 <= 3 && x1 != x2
    ensures Reconstructed(Print("YNTRA", ShareAt(secret, slopes, x1)), Print("YNTRA", ShareAt(secret, slopes, x2)))
         == Ok(secret)
  {
    PrintFits("YNTRA", ShareAt(secret, slopes, x1));
    PrintFits("YNTRA", ShareAt(secret, slopes, x2));
    TwoSharesReconstruct(secret, slopes, x1, x2,
      Print("YNTRA", ShareAt(secret, slopes, x1)), Print("YNTRA", ShareAt(secret, slopes, x2)));
  }
}
