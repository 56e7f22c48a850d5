/** The checksum of YubiKey frames: the 16-bit frame check sequence of RFC 1662, appendix C.2, without
    its final complement, and what it detects. */
module YubiKeyCrc {
  import opened Bits
  import opened Results

  const START: nat := 0xFFFF
  const POLY: nat := 0x8408

  function Flag(bit: bool): nat { if bit then 1 else 0 }

  /** One bit through the shift register. */
  function Feed(s: nat, bit: bool): nat {
    if (s % 2 == 1) != bit then Xor(s / 2, POLY) else s / 2
  }

  function FeedAll(s: nat, bits: seq<bool>): nat
    decreases |bits|
  {
    if bits == [] then s else FeedAll(Feed(s, bits[0]), bits[1..])
  }

  /** The n lowest bits of a number, lowest first. */
  function LowBits(b: nat, n: nat): (bits: seq<bool>)
    ensures |bits| == n
    decreases n
  {
    if n == 0 then [] else [b % 2 == 1] + LowBits(b / 2, n - 1)
  }

  /** A message as it is sent: byte after byte, lowest bit first. */
  function MessageBits(m: seq<byte>): (bits: seq<bool>)
    ensures |bits| == 8 * |m|
  {
    if m == [] then [] else LowBits(m[0], 8) + MessageBits(m[1..])
  }

  /** The checksum of a message: its bits through the register, one at a time. */
  function Crc(m: seq<byte>): nat {
    FeedAll(START, MessageBits(m))
  }

  lemma {:induction false} FeedConcat(s: nat, a: seq<bool>, b: seq<bool>)
    ensures FeedAll(s, a + b) == FeedAll(FeedAll(s, a), b)
    decreases |a|
  {
    if a == [] {
      assert a + b == b;
    } else {
      assert (a + b)[1..] == a[1..] + b;
      FeedConcat(Feed(s, a[0]), a[1..], b);
    }
  }

  // ---- The byte loop of the source is the bit-serial register

  /** The inner loop body: shift right, fold the polynomial in when a one falls out. */
  function Shift(s: nat): nat {
    if s % 2 == 1 then Xor(s / 2, POLY) else s / 2
  }

  function Shifts(s: nat, n: nat): nat
    decreases n
  {
    if n == 0 then s else Shifts(Shift(s), n - 1)
  }

  lemma ShiftFeeds(s: nat, b: nat)
    ensures Shift(Xor(s, b)) == Xor(Feed(s, b % 2 == 1), b / 2)
  {
    XorStep(s, b);
    XorAssoc(s / 2, b / 2, POLY); XorComm(b / 2, POLY); XorAssoc(s / 2, POLY, b / 2);
  }

  lemma {:induction false} ShiftsFeed(s: nat, b: nat, n: nat)
    requires b < Pow2(n)
    ensures Shifts(Xor(s, b), n) == FeedAll(s, LowBits(b, n))
    decreases n
  {
    if n == 0 {
      XorZero(s);
    } else {
      ShiftFeeds(s, b);
      ShiftsFeed(Feed(s, b % 2 == 1), b / 2, n - 1);
      assert LowBits(b, n)[1..] == LowBits(b / 2, n - 1);
    }
  }

  lemma {:induction false} ShiftsSplit(s: nat, n: nat)
    ensures Shifts(s, n + 1) == Shift(Shifts(s, n))
    decreases n
  {
    if n > 0 { ShiftsSplit(Shift(s), n - 1); }
  }

  lemma {:induction false} MessageBitsConcat(m: seq<byte>, t: seq<byte>)
    ensures MessageBits(m + t) == MessageBits(m) + MessageBits(t)
  {
    if m == [] {
      assert m + t == t;
    } else {
      assert (m + t)[1..] == m[1..] + t;
      MessageBitsConcat(m[1..], t);
    }
  }

  lemma OneByte(b: byte)
    ensures MessageBits([b]) == LowBits(b, 8)
  {
    assert [b][1..] == [];
  }

  /** The inner loop: one byte folded in and shifted out. */
  method FeedByte(before: nat, b: byte) returns (crc: nat)
    requires before < 0x10000
    ensures crc == FeedAll(before, LowBits(b, 8)) < 0x10000
  {
    ghost var n: nat := 8;
    assert Pow2(16) == 0x10000 && Pow2(8) == 256;
    XorBound(before, b, 16);
    crc := Xor(before, b);
    for k := 0 to 8
      invariant crc == Shifts(Xor(before, b), k) && crc < 0x10000
    {
      ShiftsSplit(Xor(before, b), k);
      var j := crc % 2;
      crc := crc / 2;
      if j != 0 {
        XorBound(crc, POLY, 16);
        crc := Xor(crc, POLY);
      }
    }
    ShiftsFeed(before, b, n);
  }

  method YubikeyCrc(buf: seq<byte>) returns (crc: nat)
    ensures crc == Crc(buf) < 0x10000
  {
    crc := START;
    for i := 0 to |buf|
      invariant crc == Crc(buf[..i]) < 0x10000
    {
      var b := buf[i];
      crc := FeedByte(crc, b);
      assert buf[..i + 1] == buf[..i] + [b];
      MessageBitsConcat(buf[..i], [b]);
      OneByte(b);
      FeedConcat(START, MessageBits(buf[..i]), LowBits(b, 8));
    }
    assert buf[..|buf|] == buf;
  }

  // ---- The register is linear

  function XorBits(a: seq<bool>, b: seq<bool>): (d: seq<bool>)
    requires |a| == |b|
    ensures |d| == |a|
  {
    seq(|a|, i requires 0 <= i < |a| => a[i] != b[i])
  }

  lemma FeedLinear(s: nat, t: nat, a: bool, b: bool)
    ensures Feed(Xor(s, t), a != b) == Xor(Feed(s, a), Feed(t, b))
  {
    var fs, ft := if (s % 2 == 1) != a then POLY else 0, if (t % 2 == 1) != b then POLY else 0;
    XorStep(s, t);
    XorSwap(s / 2, fs, t / 2, ft);
    XorSelf(POLY); XorZero(POLY); XorZero(0); XorZero(s / 2); XorZero(t / 2); XorZero(Xor(s / 2, t / 2));
  }

  lemma {:induction false} FeedAllLinear(s: nat, t: nat, a: seq<bool>, b: seq<bool>)
    requires |a| == |b|
    ensures FeedAll(Xor(s, t), XorBits(a, b)) == Xor(FeedAll(s, a), FeedAll(t, b))
    decreases |a|
  {
    if a != [] {
      FeedLinear(s, t, a[0], b[0]);
      assert XorBits(a, b)[1..] == XorBits(a[1..], b[1..]);
      FeedAllLinear(Feed(s, a[0]), Feed(t, b[0]), a[1..], b[1..]);
    }
  }

  /** Two messages of one length share their checksum exactly when the difference of their bits, fed to an
      empty register, leaves it empty: detection depends on the error alone, not on the message. */
  lemma SameCrcIffErrorVanishes(m: seq<byte>, t: seq<byte>)
    requires |m| == |t|
    ensures Crc(m) == Crc(t) <==> FeedAll(0, XorBits(MessageBits(m), MessageBits(t))) == 0
  {
    XorSelf(START);
    FeedAllLinear(START, START, MessageBits(m), MessageBits(t));
    XorSelf(Crc(m));
    if FeedAll(0, XorBits(MessageBits(m), MessageBits(t))) == 0 { XorOnlyEqual(Crc(m), Crc(t)); }
  }

  // ---- What empties the register

  /** The number whose lowest bits are given, lowest first. */
  function Word(bits: seq<bool>): nat {
    if bits == [] then 0 else Flag(bits[0]) + 2 * Word(bits[1..])
  }

  lemma {:induction false} WordBound(bits: seq<bool>)
    ensures Word(bits) < Pow2(|bits|)
  {
    if bits != [] { WordBound(bits[1..]); }
  }

  lemma {:induction false} Pow2Monotone(j: nat, k: nat)
    requires j <= k
    ensures Pow2(j) <= Pow2(k)
    decreases k
  {
    if j < k { Pow2Monotone(j, k - 1); }
  }

  lemma WordRange()
    ensures Pow2(16) == 0x10000
  {
    assert Pow2(8) == 256 && Pow2(12) == 4096;
  }

  lemma FeedRange(s: nat, bit: bool)
    requires s < 0x10000
    ensures Feed(s, bit) < 0x10000
    ensures Feed(s, bit) < 0x8000 <==> (s % 2 == 1) == bit
  {
    assert Pow2(15) == 0x8000 && Pow2(16) == 0x10000;
    XorTop(s / 2, POLY, 15);
  }

  /** At most sixteen bits empty the register exactly when they spell its content. */
  lemma {:induction false} EmptiedByItself(s: nat, bits: seq<bool>)
    requires s < 0x10000 && |bits| <= 16
    ensures FeedAll(s, bits) == 0 <==> s == Word(bits)
    decreases |bits|
  {
    if bits != [] {
      var rest := bits[1..];
      FeedRange(s, bits[0]);
      EmptiedByItself(Feed(s, bits[0]), rest);
      WordBelow(rest, 15);
      if (s % 2 == 1) == bits[0] { assert Feed(s, bits[0]) == s / 2; }
    }
  }

  lemma WordBelow(bits: seq<bool>, n: nat)
    requires |bits| <= n == 15
    ensures Word(bits) < 0x8000
  {
    WordBound(bits);
    Pow2Monotone(|bits|, n);
    assert Pow2(15) == 0x8000;
  }

  lemma {:induction false} WordConcat(a: seq<bool>, b: seq<bool>)
    ensures Word(a + b) == Word(a) + Pow2(|a|) * Word(b)
  {
    if a == [] {
      assert a + b == b;
    } else {
      assert (a + b)[1..] == a[1..] + b;
      WordConcat(a[1..], b);
    }
  }

  lemma {:induction false} WordOfLowBits(b: nat, n: nat)
    requires b < Pow2(n)
    ensures Word(LowBits(b, n)) == b
    decreases n
  {
    if n > 0 {
      WordOfLowBits(b / 2, n - 1);
      assert LowBits(b, n)[1..] == LowBits(b / 2, n - 1);
    }
  }

  lemma {:induction false} FeedAllRange(s: nat, bits: seq<bool>)
    requires s < 0x10000
    ensures FeedAll(s, bits) < 0x10000
    decreases |bits|
  {
    if bits != [] {
      FeedRange(s, bits[0]);
      FeedAllRange(Feed(s, bits[0]), bits[1..]);
    }
  }

  lemma WordOfTwoBytes(low: byte, high: byte)
    ensures Word(MessageBits([low, high])) == low + 256 * high
  {
    assert [low, high] == [low] + [high];
    MessageBitsConcat([low], [high]);
    OneByte(low); OneByte(high);
    WordConcat(LowBits(low, 8), LowBits(high, 8));
    var n := 8;
    assert Pow2(n) == 256;
    WordOfLowBits(low, n); WordOfLowBits(high, n);
  }

  /** Two appended bytes leave residue zero exactly when they are the checksum, low byte first. */
  lemma ResidueZeroIffChecksum(m: seq<byte>, low: byte, high: byte)
    ensures Crc(m + [low, high]) == 0 <==> Crc(m) == low + 256 * high
  {
    MessageBitsConcat(m, [low, high]);
    FeedConcat(START, MessageBits(m), MessageBits([low, high]));
    FeedAllRange(START, MessageBits(m));
    EmptiedByItself(Crc(m), MessageBits([low, high]));
    WordOfTwoBytes(low, high);
  }

  // ---- Detected errors

  predicate Silent(bits: seq<bool>) { forall i :: 0 <= i < |bits| ==> !bits[i] }

  lemma {:induction false} WordZero(bits: seq<bool>)
    ensures Word(bits) == 0 <==> Silent(bits)
  {
    if bits != [] {
      WordZero(bits[1..]);
      if Silent(bits[1..]) && !bits[0] {
        forall i | 0 <= i < |bits| ensures !bits[i] { if i > 0 { assert !bits[1..][i - 1]; } }
      }
      if Silent(bits) {
        assert !bits[0];
        forall i | 0 <= i < |bits| - 1 ensures !bits[1..][i] { assert !bits[i + 1]; }
      }
    }
  }

  /** Zero bits never empty a register, and never fill an empty one. */
  lemma {:induction false} SilenceKeeps(s: nat, bits: seq<bool>)
    requires s < 0x10000 && Silent(bits)
    ensures FeedAll(s, bits) == 0 <==> s == 0
    decreases |bits|
  {
    if bits != [] {
      assert !bits[0];
      forall i | 0 <= i < |bits| - 1 ensures !bits[1..][i] { assert !bits[i + 1]; }
      FeedRange(s, false);
      SilenceKeeps(Feed(s, bits[0]), bits[1..]);
    }
  }

  /** All set bits lie within sixteen consecutive places. */
  predicate Burst(bits: seq<bool>, start: nat) {
    forall i :: 0 <= i < |bits| && !(start <= i < start + 16) ==> !bits[i]
  }

  lemma BurstVanishesIffSilent(d: seq<bool>, start: nat)
    requires Burst(d, start)
    ensures FeedAll(0, d) == 0 <==> Silent(d)
  {
    var from := if start <= |d| then start else |d|;
    var to := if start + 16 <= |d| then start + 16 else |d|;
    var head, burst, tail := d[..from], d[from..to], d[to..];
    assert d == head + (burst + tail);
    FeedConcat(0, head, burst + tail);
    FeedConcat(FeedAll(0, head), burst, tail);
    assert Silent(head) && Silent(tail);
    SilenceKeeps(0, head);
    FeedAllRange(0, burst);
    SilenceKeeps(FeedAll(0, burst), tail);
    EmptiedByItself(0, burst);
    WordZero(burst);
    if Silent(burst) {
      forall i | 0 <= i < |d| ensures !d[i] { if from <= i < to { assert !burst[i - from]; } }
    }
    if Silent(d) {
      forall i | 0 <= i < |burst| ensures !burst[i] { assert !d[from + i]; }
    }
  }

  lemma SilentDifference(a: seq<bool>, b: seq<bool>)
    requires |a| == |b|
    ensures Silent(XorBits(a, b)) <==> a == b
  {
    if Silent(XorBits(a, b)) {
      forall i | 0 <= i < |a| ensures a[i] == b[i] { assert !XorBits(a, b)[i]; }
    }
  }

  lemma ConcatCancels(a: seq<bool>, b: seq<bool>, c: seq<bool>, d: seq<bool>)
    requires |a| == |c| && a + b == c + d
    ensures a == c && b == d
  {
    assert a == (a + b)[..|a|] && c == (c + d)[..|a|];
    assert b == (a + b)[|a|..] && d == (c + d)[|a|..];
  }

  lemma EqualBitsEqualByte(a: byte, b: byte, n: nat)
    requires n == 8 && LowBits(a, n) == LowBits(b, n)
    ensures a == b
  {
    assert Pow2(n) == 256;
    WordOfLowBits(a, n); WordOfLowBits(b, n);
  }

  lemma {:induction false} EqualBitsEqualBytes(m: seq<byte>, t: seq<byte>)
    requires |m| == |t| && MessageBits(m) == MessageBits(t)
    ensures m == t
  {
    if m != [] {
      var a, b := LowBits(m[0], 8), LowBits(t[0], 8);
      ConcatCancels(a, MessageBits(m[1..]), b, MessageBits(t[1..]));
      EqualBitsEqualBytes(m[1..], t[1..]);
      EqualBitsEqualByte(m[0], t[0], 8);
      assert m == [m[0]] + m[1..] && t == [t[0]] + t[1..];
    }
  }

  /** Messages of one length, however long, that differ, and differ only within sixteen consecutive bits,
      have different checksums. */
  lemma BurstChangesCrc(m: seq<byte>, t: seq<byte>, start: nat)
    requires |m| == |t| && m != t
    requires Burst(XorBits(MessageBits(m), MessageBits(t)), start)
    ensures Crc(m) != Crc(t)
  {
    SameCrcIffErrorVanishes(m, t);
    BurstVanishesIffSilent(XorBits(MessageBits(m), MessageBits(t)), start);
    SilentDifference(MessageBits(m), MessageBits(t));
    if MessageBits(m) == MessageBits(t) { EqualBitsEqualBytes(m, t); }
  }

  /** The bits of the generator, one more than a burst may span. */
  function Generator(): (bits: seq<bool>) {
    [true] + LowBits(POLY, 16)
  }

  lemma OwnBitsEmpty(s: nat, n: nat)
    requires n == 16 && s < 0x10000
    ensures FeedAll(s, LowBits(s, n)) == 0
  {
    WordRange();
    WordOfLowBits(s, n);
    EmptiedByItself(s, LowBits(s, n));
  }

  lemma OneBitFills(rest: seq<bool>)
    ensures FeedAll(0, [true] + rest) == FeedAll(POLY, rest)
  {
    var bits := [true] + rest;
    assert bits[1..] == rest;
    XorZero(POLY);
  }

  /** Sixteen is the exact limit: an error that spells the generator, seventeen bits wide, anywhere in a
      message goes unseen. */
  lemma GeneratorGoesUnseen(m: seq<byte>, t: seq<byte>, before: seq<bool>, after: seq<bool>)
    requires |m| == |t| && Silent(before) && Silent(after)
    requires XorBits(MessageBits(m), MessageBits(t)) == before + (Generator() + after)
    ensures Crc(m) == Crc(t)
  {
    SameCrcIffErrorVanishes(m, t);
    FeedConcat(0, before, Generator() + after);
    FeedConcat(FeedAll(0, before), Generator(), after);
    SilenceKeeps(0, before);
    OneBitFills(LowBits(POLY, 16));
    OwnBitsEmpty(POLY, 16);
    SilenceKeeps(0, after);
  }

  /** Whether a number has an odd number of set bits. */
  predicate Odd(n: nat) {
    n != 0 && ((n % 2 == 1) != Odd(n / 2))
  }

  predicate OddBits(bits: seq<bool>) {
    bits != [] && (bits[0] != OddBits(bits[1..]))
  }

  lemma {:induction false} OddXor(a: nat, b: nat)
    ensures Odd(Xor(a, b)) == (Odd(a) != Odd(b))
  {
    if a != 0 || b != 0 {
      XorStep(a, b);
      OddXor(a / 2, b / 2);
      if Xor(a, b) == 0 { XorOnlyEqual(a, b); }
    }
  }

  lemma PolyIsOdd()
    ensures Odd(POLY)
  {
    assert Odd(0x84) == Odd(0x21) && Odd(0x21) == (true != Odd(0x10)) && Odd(0x10) == Odd(0x1);
    assert Odd(0x8408) == Odd(0x1081) && Odd(0x1081) == (true != Odd(0x840)) && Odd(0x840) == Odd(0x84);
  }

  lemma {:induction false} FeedAllParity(s: nat, bits: seq<bool>)
    ensures Odd(FeedAll(s, bits)) == (Odd(s) != OddBits(bits))
    decreases |bits|
  {
    if bits != [] {
      PolyIsOdd();
      OddXor(s / 2, POLY);
      FeedAllParity(Feed(s, bits[0]), bits[1..]);
    }
  }

  /** An odd number of wrong bits, wherever they are, always changes the checksum. */
  lemma OddErrorsChangeCrc(m: seq<byte>, t: seq<byte>)
    requires |m| == |t| && OddBits(XorBits(MessageBits(m), MessageBits(t)))
    ensures Crc(m) != Crc(t)
  {
    SameCrcIffErrorVanishes(m, t);
    FeedAllParity(0, XorBits(MessageBits(m), MessageBits(t)));
  }

  // ---- The check of a response

  const RESPONSE := 20

  predicate AllZero(m: seq<byte>) { forall b :: b in m ==> b == 0 }

  /** The last step of a challenge: what the bytes collected from the device are worth. */
  function CheckResponse(data: seq<byte>): Result<seq<byte>> {
    if |data| >= RESPONSE + 2 then
      if Crc(data[..RESPONSE]) != data[RESPONSE] as int + 256 * (data[RESPONSE + 1] as int)
      then Err("YubiKey response CRC check failed")
      else if AllZero(data[..RESPONSE]) then Err("YubiKey returned an empty response frame")
      else Ok(data[..RESPONSE])
    else if |data| >= RESPONSE then
      if AllZero(data[..RESPONSE]) then Err("YubiKey returned an empty response frame")
      else Ok(data[..RESPONSE])
    else Err("YubiKey communication timeout")
  }

  /** With twenty-two bytes or more, acceptance means residue zero. */
  lemma AcceptedIffResidueZero(data: seq<byte>)
    requires |data| >= RESPONSE + 2
    ensures CheckResponse(data).Ok? <==> Crc(data[..RESPONSE + 2]) == 0 && !AllZero(data[..RESPONSE])
  {
    assert data[..RESPONSE + 2] == data[..RESPONSE] + [data[RESPONSE], data[RESPONSE + 1]];
    ResidueZeroIffChecksum(data[..RESPONSE], data[RESPONSE], data[RESPONSE + 1]);
  }

  /** What is accepted, and what is returned for it: the first twenty bytes, when one of them is not zero and the
      two behind them, if both are there, are their checksum, low byte first. */
  lemma ReturnedIff(data: seq<byte>, response: seq<byte>)
    ensures CheckResponse(data) == Ok(response)
            <==> (&& |response| == 20 && response <= data && (exists i :: 0 <= i < 20 && response[i] != 0)
                  && (|data| >= 22 ==> Crc(response) == data[20] as int + 256 * data[21] as int))
  {
    if |response| == 20 && response <= data {
      assert response == data[..20];
      if AllZero(response) {
        forall i | 0 <= i < 20 ensures response[i] == 0 { assert response[i] in response; }
      } else {
        var b :| b in response && b != 0;
        var i :| 0 <= i < |response| && response[i] == b;
      }
    }
  }

  /** A damaged copy of an accepted response is refused, however many reports either came in, when both have
      their checksum bytes and the damage to those first bytes is an odd number of bits or lies within sixteen
      consecutive bits. */
  lemma DamagedResponseRefused(sent: seq<byte>, got: seq<byte>, start: nat)
    requires |sent| >= RESPONSE + 2 && |got| >= RESPONSE + 2 && CheckResponse(sent).Ok?
    requires sent[..RESPONSE + 2] != got[..RESPONSE + 2]
    requires var error := XorBits(MessageBits(sent[..RESPONSE + 2]), MessageBits(got[..RESPONSE + 2]));
             Burst(error, start) || OddBits(error)
    ensures CheckResponse(got).Err?
  {
    var m, t := sent[..RESPONSE + 2], got[..RESPONSE + 2];
    AcceptedIffResidueZero(sent);
    AcceptedIffResidueZero(got);
    if Burst(XorBits(MessageBits(m), MessageBits(t)), start) {
      BurstChangesCrc(m, t, start);
    } else {
      OddErrorsChangeCrc(m, t);
    }
  }

  /** The device answers in reports of seven bytes. The checksum guards what is accepted exactly when four of
      them arrived: three carry twenty-one bytes, which are accepted without it. */
  lemma GuardedIffFourReports(reports: nat)
    requires reports >= 3
    ensures reports >= 4 <==> (forall d: seq<byte> :: |d| == 7 * reports && CheckResponse(d).Ok? ==> ChecksumHolds(d))
  {
    if reports >= 4 {
      forall d: seq<byte> | |d| == 7 * reports && CheckResponse(d).Ok? ensures ChecksumHolds(d) {
        AcceptedIffResidueZero(d);
      }
    } else {
      var d: seq<byte> := seq(7 * reports, _ => 1);
      assert d[0] in d[..RESPONSE];
      assert CheckResponse(d).Ok? && !ChecksumHolds(d);
    }
  }

  predicate ChecksumHolds(data: seq<byte>) {
    |data| >= RESPONSE + 2 && Crc(data[..RESPONSE + 2]) == 0
  }
}
