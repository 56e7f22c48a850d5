/** The SSH wire format: section 5 of RFC 4251, as far as the key parser and the agent use it. */
module SshWire {
  import opened Bits
  import opened Results

  const WORD: nat := 0x1_0000_0000

  // ---- Words and strings

  /** A length cast to 32 bits, big end first. */
  function Word(n: nat): (b: seq<byte>)
    ensures |b| == 4
  {
    var w := n % WORD;
    var (w1, w2, w3) := (w / 0x100, w / 0x1_0000, w / 0x100_0000);
    [w3, w2 % 0x100, w1 % 0x100, w % 0x100]
  }

  function WordOf(b: seq<byte>): (n: nat)
    requires |b| == 4
    ensures n < WORD
  {
    var (b0: int, b1: int, b2: int, b3: int) := (b[0], b[1], b[2], b[3]);
    ((b0 * 0x100 + b1) * 0x100 + b2) * 0x100 + b3
  }

  lemma WordReadsBack(n: nat)
    ensures WordOf(Word(n)) == n % WORD
  {
    var w := n % WORD;
    assert w / 0x100 / 0x100 == w / 0x1_0000 && w / 0x1_0000 / 0x100 == w / 0x100_0000;
  }

  lemma WordWritesBack(b: seq<byte>)
    requires |b| == 4
    ensures Word(WordOf(b)) == b
  {
    var n := WordOf(b);
    var (b0: int, b1: int, b2: int) := (b[0], b[1], b[2]);
    assert n / 0x100 == (b0 * 0x100 + b1) * 0x100 + b2;
    assert n / 0x1_0000 == b0 * 0x100 + b1;
    assert n / 0x100_0000 == b0;
  }

  /** A length-prefixed string. */
  function Str(bytes: seq<byte>): seq<byte> {
    Word(|bytes|) + bytes
  }

  method EncodeSshString(bytes: seq<byte>) returns (out: seq<byte>)
    ensures out == Str(bytes)
  {
    out := [];
    out := out + Word(|bytes|);
    out := out + bytes;
  }

  /** What a reader takes off the front of a buffer, and the buffer behind it. */
  datatype Taken<+T> = Taken(item: T, rest: seq<byte>)

  function TakeWord(buf: seq<byte>): Option<Taken<nat>> {
    if |buf| < 4 then None else Some(Taken(WordOf(buf[..4]), buf[4..]))
  }

  function TakeString(buf: seq<byte>): Option<Taken<seq<byte>>> {
    match TakeWord(buf)
    case None => None
    case Some(t) =>
      if |t.rest| < t.item then None else Some(Taken(t.rest[..t.item], t.rest[t.item..]))
  }

  lemma WordIsTaken(n: nat, rest: seq<byte>)
    requires n < WORD
    ensures TakeWord(Word(n) + rest) == Some(Taken(n, rest))
  {
    WordReadsBack(n);
    assert (Word(n) + rest)[..4] == Word(n) && (Word(n) + rest)[4..] == rest;
  }

  /** A string shorter than 4 GiB is read back, and exactly the string is consumed. */
  lemma StringIsTaken(s: seq<byte>, rest: seq<byte>)
    requires |s| < WORD
    ensures TakeString(Str(s) + rest) == Some(Taken(s, rest))
  {
    assert Str(s) + rest == Word(|s|) + (s + rest);
    WordIsTaken(|s|, s + rest);
    assert (s + rest)[..|s|] == s && (s + rest)[|s|..] == rest;
  }

  lemma TakenWordWasThere(buf: seq<byte>)
    requires TakeWord(buf).Some?
    ensures var t := TakeWord(buf).value; t.item < WORD && buf == Word(t.item) + t.rest
  {
    WordWritesBack(buf[..4]);
  }

  /** Whatever is read is a string that stood at the front of the buffer. */
  lemma TakenStringWasThere(buf: seq<byte>)
    requires TakeString(buf).Some?
    ensures var t := TakeString(buf).value; |t.item| < WORD && buf == Str(t.item) + t.rest
  {
    TakenWordWasThere(buf);
    var w := TakeWord(buf).value;
    assert w.rest == w.rest[..w.item] + w.rest[w.item..];
  }

  /** The strings are a prefix-free code: a buffer starts with at most one of them. */
  lemma StringsDelimitThemselves(s: seq<byte>, a: seq<byte>, t: seq<byte>, b: seq<byte>)
    requires |s| < WORD && |t| < WORD && Str(s) + a == Str(t) + b
    ensures s == t && a == b
  {
    StringIsTaken(s, a);
    StringIsTaken(t, b);
  }

  /** Reads a word and moves the cursor behind it; a failed read leaves the cursor. */
  method ReadU32(buf: seq<byte>, cursor: nat) returns (val: Option<nat>, after: nat)
    requires cursor <= |buf|
    ensures cursor <= after <= |buf|
    ensures match TakeWord(buf[cursor..])
            case None => val == None && after == cursor
            case Some(t) => val == Some(t.item) && buf[after..] == t.rest
  {
    after := cursor;
    var end := cursor + 4;
    if end > |buf| {
      return None, after;
    }
    assert buf[cursor..][..4] == buf[cursor..end] && buf[cursor..][4..] == buf[end..];
    val := Some(WordOf(buf[cursor..end]));
    after := end;
  }

  /** Reads a string and moves the cursor behind it; on any bytes the cursor only grows and stays
      inside the buffer. */
  method ReadSshString(buf: seq<byte>, cursor: nat) returns (val: Option<seq<byte>>, after: nat)
    requires cursor <= |buf|
    ensures cursor <= after <= |buf|
    ensures match TakeString(buf[cursor..])
            case None => val == None
            case Some(t) => val == Some(t.item) && buf[after..] == t.rest && after == cursor + 4 + |t.item|
  {
    var len;
    len, after := ReadU32(buf, cursor);
    if len.None? {
      return None, after;
    }
    assert after == cursor + 4 by { assert |buf[after..]| == |buf[cursor..]| - 4; }
    var end := after + len.value;
    if end > |buf| {
      return None, after;
    }
    assert buf[after..][..len.value] == buf[after..end] && buf[after..][len.value..] == buf[end..];
    val := Some(buf[after..end]);
    after := end;
  }

  // ---- Unsigned numbers as mpints

  function Power(k: nat): (p: nat)
    ensures p > 0
  {
    if k == 0 then 1 else 0x100 * Power(k - 1)
  }

  /** The number whose big-endian bytes are given. */
  function Magnitude(b: seq<byte>): nat {
    if b == [] then 0 else 0x100 * Magnitude(b[..|b| - 1]) + b[|b| - 1]
  }

  /** The number a two's complement byte string stands for. */
  function Signed(b: seq<byte>): int {
    Magnitude(b) - (if b != [] && b[0] >= 0x80 then Power(|b|) else 0)
  }

  function Significant(b: seq<byte>): (s: seq<byte>)
    ensures s != [] ==> s[0] != 0
  {
    if b != [] && b[0] == 0 then Significant(b[1..]) else b
  }

  function Mpint(b: seq<byte>): seq<byte> {
    var s := Significant(b);
    if s != [] && s[0] >= 0x80 then [0] + s else s
  }

  method EncodeSshMpint(scalar: seq<byte>) returns (out: seq<byte>)
    ensures out == Str(Mpint(scalar))
  {
    var start := 0;
    while start < |scalar| && scalar[start] == 0
      invariant start <= |scalar|
      invariant Significant(scalar[start..]) == Significant(scalar)
    {
      assert scalar[start..][1..] == scalar[start + 1..];
      start := start + 1;
    }
    if start == |scalar| {
      assert Word(0) == [0, 0, 0, 0];
      return [0, 0, 0, 0];
    }
    var significant := scalar[start..];
    var needsPadding := significant[0] >= 0x80;
    var len := if needsPadding then |significant| + 1 else |significant|;
    out := Word(len);
    if needsPadding {
      out := out + [0];
    }
    out := out + significant;
    assert Word(len) + [0] + significant == Word(len) + ([0] + significant);
  }

  lemma {:induction false} PowerSum(a: nat, b: nat)
    ensures Power(a + b) == Power(a) * Power(b)
  {
    if b > 0 { PowerSum(a, b - 1); assert Power(a) * Power(b) == 0x100 * (Power(a) * Power(b - 1)); }
  }

  lemma {:induction false} MagnitudeCons(d: byte, b: seq<byte>)
    ensures Magnitude([d] + b) == d * Power(|b|) + Magnitude(b)
  {
    var s := [d] + b;
    if b == [] {
      assert s[..0] == [];
    } else {
      assert s[..|s| - 1] == [d] + b[..|b| - 1];
      MagnitudeCons(d, b[..|b| - 1]);
    }
  }

  lemma {:induction false} MagnitudeBound(b: seq<byte>)
    ensures Magnitude(b) < Power(|b|)
  {
    if b != [] { MagnitudeBound(b[..|b| - 1]); }
  }

  lemma LeadingByte(b: seq<byte>)
    requires b != []
    ensures var d: int := b[0]; d * Power(|b| - 1) <= Magnitude(b) < (d + 1) * Power(|b| - 1)
  {
    assert b == [b[0]] + b[1..];
    MagnitudeCons(b[0], b[1..]);
    MagnitudeBound(b[1..]);
  }

  lemma {:induction false} MagnitudeOnce(a: seq<byte>, b: seq<byte>)
    requires |a| == |b| && Magnitude(a) == Magnitude(b)
    ensures a == b
  {
    if a != [] {
      MagnitudeOnce(a[..|a| - 1], b[..|b| - 1]);
      assert a == a[..|a| - 1] + [a[|a| - 1]] && b == b[..|b| - 1] + [b[|b| - 1]];
    }
  }

  lemma {:induction false} SignificantKeepsValue(b: seq<byte>)
    ensures Magnitude(Significant(b)) == Magnitude(b)
  {
    if b != [] && b[0] == 0 {
      SignificantKeepsValue(b[1..]);
      assert b == [b[0]] + b[1..];
      MagnitudeCons(b[0], b[1..]);
    }
  }

  /** The encoding stands for the unsigned value of the scalar, whatever its length or top bit. */
  lemma MpintKeepsValue(b: seq<byte>)
    ensures Signed(Mpint(b)) == Magnitude(b) == Magnitude(Mpint(b))
  {
    SignificantKeepsValue(b);
    var s := Significant(b);
    if s != [] && s[0] >= 0x80 { MagnitudeCons(0, s); }
  }

  lemma {:induction false} PowerGrows(a: nat, b: nat)
    requires a <= b
    ensures Power(a) <= Power(b)
  {
    if a < b { PowerGrows(a, b - 1); }
  }

  /** A two's complement string standing for at least half of 256 to the k needs more than k bytes. */
  lemma NonNegativeRoom(t: seq<byte>, k: nat)
    requires Signed(t) >= 0 && 2 * Signed(t) >= Power(k)
    ensures |t| > k
  {
    if t != [] {
      MagnitudeBound(t);
      LeadingByte(t);
      Scaled(t[0] as int + 1, 0x80, Power(|t| - 1));
      if |t| <= k { PowerGrows(|t|, k); }
    }
  }

  lemma Scaled(x: nat, y: nat, p: nat)
    requires x <= y
    ensures x * p <= y * p
  {}

  /** No two's complement string for the same number is shorter, and none of the same length differs:
      the encoding is the minimal one. */
  lemma MpintIsShortest(b: seq<byte>, t: seq<byte>)
    requires Signed(t) == Magnitude(b)
    ensures |Mpint(b)| <= |t|
    ensures |Mpint(b)| == |t| ==> Mpint(b) == t
  {
    SignificantKeepsValue(b);
    MpintKeepsValue(b);
    MagnitudeBound(t);
    var s := Significant(b);
    if s != [] {
      LeadingByte(s);
      Scaled(1, s[0], Power(|s| - 1));
      if s[0] >= 0x80 {
        Scaled(0x80, s[0], Power(|s| - 1));
        NonNegativeRoom(t, |s|);
      } else {
        Scaled(2, 0x100, Power(|s| - 1));
        if |t| < |s| { PowerGrows(|t|, |s| - 1); }
      }
    }
    if |Mpint(b)| == |t| { MagnitudeOnce(Mpint(b), t); }
  }

  /** A length is written big end first: read as a big-endian number, its four bytes are the length. */
  lemma WordIsBigEndian(n: nat)
    requires n < WORD
    ensures Magnitude(Word(n)) == n
  {
    var b := Word(n);
    assert b[..3][..2][..1][..0] == [];
    assert b[..3][..2][..1][0] == b[0] && b[..3][..2][1] == b[1] && b[..3][2] == b[2];
    assert Magnitude(b[..3][..2][..1]) == b[0];
    var (b0: int, b1: int) := (b[0], b[1]);
    assert Magnitude(b[..3][..2]) == 0x100 * b0 + b1;
    WordReadsBack(n);
  }

  /** Two scalars of any lengths have the same encoding exactly when they are the same number. */
  lemma MpintsEqualIffValuesEqual(a: seq<byte>, b: seq<byte>)
    ensures Str(Mpint(a)) == Str(Mpint(b)) <==> Magnitude(a) == Magnitude(b)
  {
    MpintKeepsValue(a);
    MpintKeepsValue(b);
    if Str(Mpint(a)) == Str(Mpint(b)) {
      assert Str(Mpint(a))[4..] == Mpint(a) && Str(Mpint(b))[4..] == Mpint(b);
    }
    if Magnitude(a) == Magnitude(b) {
      MpintIsShortest(a, Mpint(b));
      MpintIsShortest(b, Mpint(a));
    }
  }

  // ---- Key and signature blobs

  // ASCII: "ssh-ed25519", "ecdsa-sha2-nistp256" and "nistp256"
  const ED25519: seq<byte> := [115, 115, 104, 45, 101, 100, 50, 53, 53, 49, 57]
  const P256: seq<byte> := [101, 99, 100, 115, 97, 45, 115, 104, 97, 50, 45, 110, 105, 115, 116, 112, 50, 53, 54]
  const CURVE: seq<byte> := [110, 105, 115, 116, 112, 50, 53, 54]

  function Code(c: char): byte
    requires c as int < 0x80
  {
    c as int
  }

  /** The bytes of an ASCII text. */
  function Ascii(text: string): seq<byte>
    requires forall i :: 0 <= i < |text| ==> text[i] as int < 0x80
  {
    seq(|text|, i requires 0 <= i < |text| => Code(text[i]))
  }

  lemma NamesSpelled()
    ensures ED25519 == Ascii("ssh-ed25519") && P256 == Ascii("ecdsa-sha2-nistp256") && CURVE == Ascii("nistp256")
  {}

  method EncodeEd25519Pubkey(pubkey: seq<byte>) returns (out: seq<byte>)
    requires |pubkey| == 32
    ensures out == Str(ED25519) + Str(pubkey) && |out| == 51
  {
    out := EncodeSshString(ED25519);
    var part := EncodeSshString(pubkey);
    out := out + part;
  }

  function P256Blob(point: seq<byte>): seq<byte> {
    Str(P256) + (Str(CURVE) + Str(point))
  }

  method EncodeP256Pubkey(sec1: seq<byte>) returns (out: seq<byte>)
    ensures out == P256Blob(sec1)
    ensures |sec1| == 65 ==> |out| == 104
  {
    out := EncodeSshString(P256);
    var part := EncodeSshString(CURVE);
    out := out + part;
    part := EncodeSshString(sec1);
    out := out + part;
    assert Str(P256) + Str(CURVE) + Str(sec1) == P256Blob(sec1);
  }

  function P256Signature(r: seq<byte>, s: seq<byte>): seq<byte> {
    Str(P256) + Str(Str(Mpint(r)) + Str(Mpint(s)))
  }

  method EncodeP256Signature(r: seq<byte>, s: seq<byte>) returns (out: seq<byte>)
    ensures out == P256Signature(r, s)
  {
    var inner := EncodeSshMpint(r);
    var part := EncodeSshMpint(s);
    inner := inner + part;
    out := EncodeSshString(P256);
    part := EncodeSshString(inner);
    out := out + part;
  }

  /** A key blob determines the point it was made from. */
  lemma PointReadsBack(point: seq<byte>)
    requires |point| < WORD
    ensures TakeString(P256Blob(point)) == Some(Taken(P256, Str(CURVE) + Str(point)))
    ensures TakeString(Str(CURVE) + Str(point)) == Some(Taken(CURVE, Str(point)))
    ensures TakeString(Str(point)) == Some(Taken(point, []))
  {
    StringIsTaken(P256, Str(CURVE) + Str(point));
    StringIsTaken(CURVE, Str(point));
    StringIsTaken(point, []);
    assert Str(point) + [] == Str(point);
  }

  lemma MpintSize(b: seq<byte>)
    ensures |Mpint(b)| <= |b| + 1
  {
    SignificantSize(b);
  }

  lemma {:induction false} SignificantSize(b: seq<byte>)
    ensures |Significant(b)| <= |b|
  {
    if b != [] && b[0] == 0 { SignificantSize(b[1..]); }
  }

  /** A verifier that takes a signature blob apart finds the two numbers it was made from. */
  lemma SignatureReadsBack(r: seq<byte>, s: seq<byte>)
    requires |r| + |s| + 10 < WORD
    ensures var inner := Str(Mpint(r)) + Str(Mpint(s));
            && TakeString(P256Signature(r, s)) == Some(Taken(P256, Str(inner)))
            && TakeString(Str(inner)) == Some(Taken(inner, []))
            && TakeString(inner) == Some(Taken(Mpint(r), Str(Mpint(s))))
            && TakeString(Str(Mpint(s))) == Some(Taken(Mpint(s), []))
    ensures Signed(Mpint(r)) == Magnitude(r) && Signed(Mpint(s)) == Magnitude(s)
  {
    MpintSize(r);
    MpintSize(s);
    var inner := Str(Mpint(r)) + Str(Mpint(s));
    StringIsTaken(P256, Str(inner));
    StringIsTaken(inner, []);
    StringIsTaken(Mpint(r), Str(Mpint(s)));
    StringIsTaken(Mpint(s), []);
    assert Str(inner) + [] == Str(inner) && Str(Mpint(s)) + [] == Str(Mpint(s));
    MpintKeepsValue(r);
    MpintKeepsValue(s);
  }
}
