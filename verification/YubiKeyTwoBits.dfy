/** Two wrong bits in a YubiKey frame: the period of the shift register. */
module YubiKeyTwoBits {
  import opened Bits
  import opened Results
  import opened YubiKeyCrc

  // ---- Two wrong bits vanish when the register returns to where it was

  predicate OnlyAt(bits: seq<bool>, i: nat, j: nat) {
    forall k :: 0 <= k < |bits| ==> (bits[k] <==> k == i || k == j)
  }

  lemma {:induction false} SilenceShifts(s: nat, bits: seq<bool>)
    requires Silent(bits)
    ensures FeedAll(s, bits) == Shifts(s, |bits|)
    decreases |bits|
  {
    if bits != [] {
      assert !bits[0];
      forall i | 0 <= i < |bits| - 1 ensures !bits[1..][i] { assert !bits[i + 1]; }
      SilenceShifts(Shift(s), bits[1..]);
    }
  }

  lemma {:induction false} ShiftsRange(s: nat, n: nat)
    requires s < 0x10000
    ensures Shifts(s, n) < 0x10000
    decreases n
  {
    if n > 0 {
      FeedRange(s, false);
      ShiftsRange(Shift(s), n - 1);
    }
  }

  lemma TwoBitsSpan(between: seq<bool>)
    requires Silent(between)
    ensures FeedAll(0, [true] + between + [true]) == 0 <==> Shifts(1, |between| + 1) == 1
  {
    assert [true] + between + [true] == [true] + (between + [true]);
    OneBitFills(between + [true]);
    FeedConcat(POLY, between, [true]);
    SilenceShifts(POLY, between);
    XorZero(POLY);
    assert Shift(1) == POLY;
    ShiftsRange(POLY, |between|);
    EmptiedByItself(Shifts(POLY, |between|), [true]);
    assert Word([true]) == 1 by { assert [true][1..] == []; }
  }

  lemma TwoBitsVanishIff(d: seq<bool>, i: nat, j: nat)
    requires i < j < |d| && OnlyAt(d, i, j)
    ensures FeedAll(0, d) == 0 <==> Shifts(1, j - i) == 1
  {
    var head, between, tail := d[..i], d[i + 1..j], d[j + 1..];
    var middle := [true] + between + [true];
    assert d == head + (middle + tail);
    assert Silent(head) && Silent(between) && Silent(tail);
    FeedConcat(0, head, middle + tail);
    SilenceKeeps(0, head);
    FeedConcat(0, middle, tail);
    FeedAllRange(0, middle);
    SilenceKeeps(FeedAll(0, middle), tail);
    TwoBitsSpan(between);
  }

  // ---- Shifting often is applying a polynomial

  /** A polynomial over GF(2), its coefficients from the constant term up. */
  type Poly = bv32

  function Picked(p: Poly, s: nat): nat { if p & 1 == 1 then s else 0 }

  /** A polynomial applied to the shift of a register. */
  function Apply(p: Poly, s: nat): nat
    decreases p
  {
    if p == 0 then 0 else Xor(Picked(p, s), Apply(p >> 1, Shift(s)))
  }

  lemma ApplyStep(p: Poly, s: nat)
    ensures Apply(p, s) == Xor(Picked(p, s), Apply(p >> 1, Shift(s)))
  {
    XorZero(0);
  }

  lemma ShiftLinear(s: nat, t: nat)
    ensures Shift(Xor(s, t)) == Xor(Shift(s), Shift(t))
  {
    FeedLinear(s, t, false, false);
  }

  lemma {:induction false} ApplyLinear(p: Poly, s: nat, t: nat)
    ensures Apply(p, Xor(s, t)) == Xor(Apply(p, s), Apply(p, t))
    decreases p
  {
    XorZero(0);
    if p != 0 {
      ShiftLinear(s, t);
      ApplyLinear(p >> 1, Shift(s), Shift(t));
      XorSwap(Picked(p, s), Picked(p, t), Apply(p >> 1, Shift(s)), Apply(p >> 1, Shift(t)));
    }
  }

  lemma Halves(p: Poly, q: Poly)
    ensures (p ^ q) >> 1 == (p >> 1) ^ (q >> 1)
    ensures ((p ^ q) & 1 == 1) == ((p & 1 == 1) != (q & 1 == 1))
  {}

  lemma PickedAdds(p: Poly, q: Poly, s: nat)
    ensures Picked(p ^ q, s) == Xor(Picked(p, s), Picked(q, s))
  {
    Halves(p, q);
    XorZero(0); XorZero(s); XorSelf(s);
  }

  lemma {:induction false} ApplyAdds(p: Poly, q: Poly, s: nat)
    ensures Apply(p ^ q, s) == Xor(Apply(p, s), Apply(q, s))
    decreases p, q
  {
    if p == 0 {
      XorZero(Apply(q, s));
    } else {
      Halves(p, q);
      ApplyAdds(p >> 1, q >> 1, Shift(s));
      ApplyStep(p ^ q, s); ApplyStep(p, s); ApplyStep(q, s);
      PickedAdds(p, q, s);
      XorSwap(Picked(p, s), Picked(q, s), Apply(p >> 1, Shift(s)), Apply(q >> 1, Shift(s)));
    }
  }

  function Plus(p: Poly, q: Poly): Poly { p ^ q }

  lemma ApplyPlus(p: Poly, q: Poly, s: nat)
    ensures Apply(Plus(p, q), s) == Xor(Apply(p, s), Apply(q, s))
  {
    ApplyAdds(p, q, s);
  }

  lemma {:induction false} ApplyShift(p: Poly, s: nat)
    ensures Apply(p, Shift(s)) == Shift(Apply(p, s))
    decreases p
  {
    if p != 0 {
      ApplyShift(p >> 1, Shift(s));
      ShiftLinear(Picked(p, s), Apply(p >> 1, Shift(s)));
    }
  }

  lemma {:induction false} ApplyShifts(p: Poly, s: nat, n: nat)
    ensures Apply(p, Shifts(s, n)) == Shifts(Apply(p, s), n)
    decreases n
  {
    if n > 0 {
      ApplyShift(p, s);
      ApplyShifts(p, Shift(s), n - 1);
    }
  }

  lemma {:induction false} ShiftsAdd(s: nat, m: nat, n: nat)
    ensures Shifts(s, m + n) == Shifts(Shifts(s, m), n)
    decreases m
  {
    if m > 0 { ShiftsAdd(Shift(s), m - 1, n); }
  }

  /** The square of a polynomial over GF(2): its coefficients spread out. */
  function Spread(p: Poly): Poly {
    var a := (p | (p << 8)) & 0x00FF00FF;
    var b := (a | (a << 4)) & 0x0F0F0F0F;
    var c := (b | (b << 2)) & 0x33333333;
    (c | (c << 1)) & 0x55555555
  }

  lemma SpreadStep(p: Poly)
    requires p < 0x10000
    ensures Spread(p) & 1 == p & 1 && (Spread(p) >> 1) & 1 == 0 && (Spread(p) >> 1) >> 1 == Spread(p >> 1)
    ensures p >> 1 < 0x10000
  {}

  lemma TwiceStep(p: Poly, s: nat)
    ensures Apply(p, Apply(p, s)) == Xor(Picked(p, s), Apply(p >> 1, Apply(p >> 1, Shift(Shift(s)))))
  {
    var h, t, b := p >> 1, Shift(s), Picked(p, s);
    var u := Apply(h, t);
    var v := Apply(h, Shift(u));
    ApplyStep(p, s);
    ApplyStep(p, Apply(p, s));
    ApplyShift(h, t);
    ShiftLinear(b, u);
    ApplyLinear(h, Shift(b), Shift(u));
    if p & 1 == 1 {
      XorAssoc(s, u, Xor(u, v)); XorCancel(u, v);
    } else {
      XorZero(u); XorZero(0); XorZero(v);
      ApplyShift(h, 0);
      ApplyZero(h);
    }
  }

  lemma {:induction false} ApplyZero(p: Poly)
    ensures Apply(p, 0) == 0
    decreases p
  {
    if p != 0 { ApplyZero(p >> 1); }
  }

  lemma WideStep(p: Poly, wide: Poly, rest: Poly, s: nat)
    requires wide & 1 == p & 1 && (wide >> 1) & 1 == 0 && (wide >> 1) >> 1 == rest
    ensures Apply(wide, s) == Xor(Picked(p, s), Apply(rest, Shift(Shift(s))))
  {
    ApplyStep(wide, s);
    ApplyStep(wide >> 1, Shift(s));
    XorZero(Apply(rest, Shift(Shift(s))));
  }

  predicate IsSquare(p: Poly, wide: Poly)
    decreases p
  {
    if p == 0 then wide == 0
    else wide & 1 == p & 1 && (wide >> 1) & 1 == 0 && IsSquare(p >> 1, (wide >> 1) >> 1)
  }

  lemma {:induction false} SpreadIsSquare(p: Poly)
    requires p < 0x10000
    ensures IsSquare(p, Spread(p))
    decreases p
  {
    SpreadStep(p);
    if p != 0 { SpreadIsSquare(p >> 1); }
  }

  /** Applying a polynomial twice is applying its square. */
  lemma {:induction false} ApplyTwice(p: Poly, wide: Poly, s: nat)
    requires IsSquare(p, wide)
    ensures Apply(p, Apply(p, s)) == Apply(wide, s)
    decreases p
  {
    if p != 0 {
      TwiceStep(p, s);
      ApplyTwice(p >> 1, (wide >> 1) >> 1, Shift(Shift(s)));
      WideStep(p, wide, (wide >> 1) >> 1, s);
    }
  }

  // ---- Multiples of the generator change nothing

  /** The register that stands for the polynomial one. */
  const UNIT: nat := Pow2(15)

  lemma {:induction false} Halved(j: nat, k: nat)
    ensures Shifts(Pow2(j + k), k) == Pow2(j)
    decreases k
  {
    if k > 0 {
      assert Pow2(j + k) == 2 * Pow2(j + k - 1) && Shift(Pow2(j + k)) == Pow2(j + (k - 1));
      Halved(j, k - 1);
    }
  }

  /** A multiple of the generator x^16 + x^12 + x^5 + 1. */
  function Multiple(h: Poly): Poly {
    FourTerms(h, h << 5, h << 12, h << 16)
  }

  function FourTerms(a: Poly, b: Poly, c: Poly, d: Poly): Poly {
    Plus(Plus(a, b), Plus(c, d))
  }

  lemma PolySpelled(i: nat, j: nat, k: nat)
    requires i == 15 && j == 10 && k == 3
    ensures Xor(Xor(Pow2(i), Pow2(j)), Pow2(k)) == POLY
  {
    var a, b, c := Pow2(i), Pow2(j), Pow2(k);
    assert Pow2(3) == 8 && Pow2(10) == 0x400 && Pow2(15) == 0x8000;
    XorAssoc(a, b, c);
    XorLower(c, j);
    XorLower(b + c, i);
  }

  lemma UnitWraps(i: nat)
    requires i == 15
    ensures Shifts(Pow2(i), i) == 1 && Shifts(Pow2(i), i + 1) == POLY
  {
    Halved(0, i);
    ShiftsSplit(Pow2(i), i);
    XorZero(POLY);
  }

  lemma UnitShifts(i: nat, j: nat, k: nat, m: nat, n: nat)
    requires i == 15 && j == 10 && k == 3 && m == 5 && n == 12
    ensures Shifts(Pow2(i), m) == Pow2(j) && Shifts(Pow2(i), n) == Pow2(k)
  {
    Halved(j, m); Halved(k, n);
  }

  lemma ApplyDouble(p: Poly, half: Poly, s: nat)
    requires p & 1 == 0 && p >> 1 == half
    ensures Apply(p, s) == Apply(half, Shift(s))
  {
    ApplyStep(p, s);
    XorZero(Apply(half, Shift(s)));
  }

  /** The polynomial q is p times x to the k. */
  predicate Raised(p: Poly, q: Poly, k: nat)
    decreases k
  {
    if k == 0 then q == p else q & 1 == 0 && Raised(p, q >> 1, k - 1)
  }

  lemma {:induction false} ApplyRaised(p: Poly, q: Poly, k: nat, s: nat)
    requires Raised(p, q, k)
    ensures Apply(q, s) == Apply(p, Shifts(s, k))
    decreases k
  {
    if k > 0 {
      ApplyDouble(q, q >> 1, s);
      ApplyRaised(p, q >> 1, k - 1, Shift(s));
    }
  }

  lemma {:induction false} RaisedTwice(p: Poly, q: Poly, r: Poly, j: nat, k: nat)
    requires Raised(p, q, j) && Raised(q, r, k)
    ensures Raised(p, r, j + k)
    decreases k
  {
    if k > 0 { RaisedTwice(p, q, r >> 1, j, k - 1); }
  }

  lemma RaisedByFive(p: Poly, k: nat) returns (q: Poly)
    requires p < 0x10000 && k == 5
    ensures Raised(p, q, k) && q == p << 5
  {
    q := p << 5;
  }

  lemma RaisedByTwelve(p: Poly, k: nat) returns (q: Poly)
    requires p < 0x10000 && k == 12
    ensures Raised(p, q, k) && q == p << 12
  {
    q := p << 12;
  }

  lemma RaisedByFourMore(p: Poly, q: Poly, k: nat) returns (r: Poly)
    requires p < 0x10000 && q == p << 12 && k == 4
    ensures Raised(q, r, k) && r == p << 16
  {
    r := p << 16;
  }

  lemma RaisedBySixteen(p: Poly, q: Poly, r: Poly)
    requires Raised(p, q, 12) && Raised(q, r, 4)
    ensures Raised(p, r, 16)
  {
    RaisedTwice(p, q, r, 12, 4);
  }

  lemma MultipleTerms(h: Poly, five: nat, twelve: nat, four: nat) returns (a: Poly, b: Poly, c: Poly)
    requires h < 0x10000 && five == 5 && twelve == 12 && four == 4
    ensures Raised(h, a, five) && Raised(h, b, twelve) && Raised(b, c, four)
    ensures a == h << 5 && b == h << 12 && c == h << 16
  {
    a := RaisedByFive(h, five);
    b := RaisedByTwelve(h, twelve);
    c := RaisedByFourMore(h, b, four);
  }

  predicate Vanishes(p: Poly) { Apply(p, UNIT) == 0 }

  lemma TermsVanish(h: Poly, a: Poly, b: Poly, c: Poly, s: nat, t: nat, u: nat, v: nat)
    requires Apply(a, s) == Apply(h, t) && Apply(b, s) == Apply(h, u) && Apply(c, s) == Apply(h, v)
    requires Xor(Xor(s, t), Xor(u, v)) == 0
    ensures Apply(FourTerms(h, a, b, c), s) == 0
  {
    ApplyPlus(Plus(h, a), Plus(b, c), s);
    ApplyPlus(h, a, s); ApplyPlus(b, c, s);
    ApplyLinear(h, Xor(s, t), Xor(u, v));
    ApplyLinear(h, s, t); ApplyLinear(h, u, v);
    ApplyZero(h);
  }

  lemma MultipleVanishes(h: Poly, five: Poly, twelve: Poly, sixteen: Poly)
    requires Raised(h, five, 5) && Raised(h, twelve, 12) && Raised(h, sixteen, 16)
    ensures Vanishes(FourTerms(h, five, twelve, sixteen))
  {
    var i, j, k := 15, 10, 3;
    UnitWraps(i);
    UnitShifts(i, j, k, 5, 12);
    PolySpelled(i, j, k);
    XorAssoc(Xor(Pow2(i), Pow2(j)), Pow2(k), POLY);
    XorSelf(POLY);
    ApplyRaised(h, five, 5, UNIT); ApplyRaised(h, twelve, 12, UNIT); ApplyRaised(h, sixteen, i + 1, UNIT);
    TermsVanish(h, five, twelve, sixteen, UNIT, Pow2(j), Pow2(k), POLY);
  }

  lemma GeneratorVanishes(h: Poly)
    requires h < 0x10000
    ensures Vanishes(Multiple(h))
  {
    var a, b, c := MultipleTerms(h, 5, 12, 4);
    RaisedBySixteen(h, b, c);
    MultipleVanishes(h, a, b, c);
  }

  // ---- Shifting n times as a polynomial

  /** The polynomial is x to the n, modulo the generator. */
  predicate Amounts(n: nat, p: Poly) { Shifts(UNIT, n) == Apply(p, UNIT) }

  /** Twice as many shifts: the square, less what vanishes. */
  lemma Doubles(n: nat, p: Poly, wide: Poly, m: Poly)
    requires Amounts(n, p) && IsSquare(p, wide) && Vanishes(m)
    ensures Amounts(2 * n, Plus(wide, m))
  {
    ShiftsAdd(UNIT, n, n);
    ApplyShifts(p, UNIT, n);
    ApplyTwice(p, wide, UNIT);
    ApplyPlus(wide, m, UNIT);
    XorZero(Apply(wide, UNIT));
  }

  lemma Advances(n: nat, p: Poly, up: Poly, m: Poly)
    requires Amounts(n, p) && Raised(p, up, 1) && Vanishes(m)
    ensures Amounts(n + 1, Plus(up, m))
  {
    ShiftsSplit(UNIT, n);
    ApplyShift(p, UNIT);
    ApplyRaised(p, up, 1, UNIT);
    ApplyPlus(up, m, UNIT);
    XorZero(Apply(up, UNIT));
  }

  lemma Even(n: nat, p: Poly, h: Poly, next: Poly)
    requires Amounts(n, p) && p < 0x10000 && h < 0x10000 && Plus(Spread(p), Multiple(h)) == next
    ensures Amounts(2 * n, next)
  {
    SpreadIsSquare(p);
    GeneratorVanishes(h);
    Doubles(n, p, Spread(p), Multiple(h));
  }

  lemma ZeroVanishes()
    ensures Vanishes(0)
  {}

  lemma SpreadAlone(p: Poly)
    ensures Plus(Spread(p), 0) == Spread(p)
  {}

  lemma SpreadRaised(p: Poly)
    ensures Raised(Spread(p), Spread(p) << 1, 1)
  {}

  lemma Uneven(n: nat, p: Poly, h: Poly, next: Poly)
    requires Amounts(n, p) && p < 0x10000 && h < 0x10000 && Plus(Spread(p) << 1, Multiple(h)) == next
    ensures Amounts(2 * n + 1, next)
  {
    SpreadIsSquare(p);
    ZeroVanishes();
    Doubles(n, p, Spread(p), 0);
    SpreadAlone(p);
    SpreadRaised(p);
    GeneratorVanishes(h);
    Advances(2 * n, Spread(p), Spread(p) << 1, Multiple(h));
  }

  lemma One()
    ensures Amounts(1, 2)
  {
    ApplyStep(2, UNIT); ApplyStep(1, Shift(UNIT));
    assert (2 as Poly) >> 1 == 1;
    XorZero(Shift(UNIT));
  }

  lemma Amount217()
    ensures Amounts(217, 0x48e3)
  {
    One();
    Uneven(1, 0x0002, 0x0000, 0x0008);
    Even(3, 0x0008, 0x0000, 0x0040);
    Uneven(6, 0x0040, 0x0000, 0x2000);
    Uneven(13, 0x2000, 0x0889, 0x89a9);
    Even(27, 0x89a9, 0x4409, 0x1168);
    Even(54, 0x1168, 0x0110, 0x3750);
    Uneven(108, 0x3750, 0x0a83, 0x48e3);
  }

  lemma Amount1057()
    ensures Amounts(1057, 0xf2af)
  {
    One();
    Even(1, 0x0002, 0x0000, 0x0004);
    Even(2, 0x0004, 0x0000, 0x0010);
    Even(4, 0x0010, 0x0000, 0x0100);
    Even(8, 0x0100, 0x0001, 0x1021);
    Uneven(16, 0x1021, 0x0222, 0x6e60);
    Even(33, 0x6e60, 0x1506, 0xc1c6);
    Even(66, 0xc1c6, 0x555e, 0x4e8a);
    Even(132, 0x4e8a, 0x1142, 0x5946);
    Even(264, 0x5946, 0x1047, 0x78b3);
    Uneven(528, 0x78b3, 0x2805, 0xf2af);
  }

  lemma Amount4681()
    ensures Amounts(4681, 0x2c42)
  {
    One();
    Even(1, 0x0002, 0x0000, 0x0004);
    Even(2, 0x0004, 0x0000, 0x0010);
    Uneven(4, 0x0010, 0x0000, 0x0200);
    Even(9, 0x0200, 0x0004, 0x4084);
    Even(18, 0x4084, 0x1113, 0x4363);
    Uneven(36, 0x4363, 0x222c, 0x8fa6);
    Even(73, 0x8fa6, 0x441c, 0x4388);
    Even(146, 0x4388, 0x1116, 0x1396);
    Uneven(292, 0x1396, 0x0228, 0x4500);
    Even(585, 0x4500, 0x1103, 0x0163);
    Even(1170, 0x0163, 0x0001, 0x0424);
    Uneven(2340, 0x0424, 0x0022, 0x2c42);
  }

  lemma Amount32767()
    ensures Amounts(32767, 0x0001)
  {
    One();
    Uneven(1, 0x0002, 0x0000, 0x0008);
    Uneven(3, 0x0008, 0x0000, 0x0080);
    Uneven(7, 0x0080, 0x0000, 0x8000);
    Uneven(15, 0x8000, 0x8898, 0x1b98);
    Uneven(31, 0x1b98, 0x02a0, 0xd420);
    Uneven(63, 0xd420, 0xa8be, 0x577e);
    Uneven(127, 0x577e, 0x202c, 0xcf04);
    Uneven(255, 0xcf04, 0xaa1e, 0x09fe);
    Uneven(511, 0x09fe, 0x008a, 0x1b62);
    Uneven(1023, 0x1b62, 0x02a0, 0x7ea8);
    Uneven(2047, 0x7ea8, 0x282f, 0x554f);
    Uneven(4095, 0x554f, 0x2024, 0x440e);
    Uneven(8191, 0x440e, 0x2204, 0x222c);
    Uneven(16383, 0x222c, 0x0881, 0x0001);
  }

  // ---- Polynomials of degree below sixteen act differently on the unit

  predicate Short(p: Poly, k: nat)
    decreases k
  {
    if k == 0 then p == 0 else Short(p >> 1, k - 1)
  }

  lemma NoBits(p: Poly)
    requires p >> 1 == 0 && p & 1 != 1
    ensures p == 0
  {}

  lemma {:induction false} Reflected(p: Poly, j: nat)
    requires Short(p, j + 1)
    ensures Apply(p, Pow2(j)) < Pow2(j + 1)
    ensures Apply(p, Pow2(j)) == 0 ==> p == 0
    decreases j
  {
    ApplyStep(p, Pow2(j));
    if j == 0 {
      XorZero(Picked(p, 1));
    } else {
      assert Shift(Pow2(j)) == Pow2(j - 1);
      Reflected(p >> 1, j - 1);
      var rest := Apply(p >> 1, Pow2(j - 1));
      XorLower(rest, j);
      XorZero(rest);
    }
    if p >> 1 == 0 && p & 1 != 1 { NoBits(p); }
  }

  lemma ShortByte(p: Poly, k: nat)
    requires p < 0x100 && k == 8
    ensures Short(p, k)
  {}

  lemma FourSteps(p: Poly)
    ensures p >> 1 >> 1 >> 1 >> 1 == p >> 4 && (p >> 4) >> 4 == p >> 8
  {}

  lemma HighByte(p: Poly, k: nat)
    requires p < 0x10000 && k == 8 && Short(p >> 8, k)
    ensures Short(p, k + 8)
  {
    var q, r := p >> 4, p >> 1 >> 1;
    FourSteps(p); FourSteps(q);
    assert Short(q >> 1 >> 1, k + 2);
    assert Short(q, k + 4);
    assert Short(r, k + 6);
  }

  lemma ShortWord(p: Poly)
    requires p < 0x10000
    ensures Short(p, 16)
  {
    assert p >> 8 < 0x100;
    ShortByte(p >> 8, 8);
    HighByte(p, 8);
  }

  lemma OtherThanOne(p: Poly)
    requires p < 0x10000
    ensures p ^ 1 < 0x10000 && (p ^ 1 == 0 ==> p == 1)
  {}

  predicate Back(n: nat) { Shifts(UNIT, n) == UNIT }

  lemma OneApplied(s: nat)
    ensures Apply(1, s) == s
  {
    ApplyStep(1, s);
    XorZero(s);
  }

  lemma BackIfOne(n: nat)
    requires Amounts(n, 1)
    ensures Back(n)
  {
    OneApplied(UNIT);
  }

  lemma ApartFromOne(p: Poly, q: Poly, j: nat)
    requires q == p ^ 1 && q != 0 && j == 15 && Short(q, j + 1)
    ensures Apply(p, UNIT) != UNIT
  {
    OneApplied(UNIT);
    ApplyAdds(p, 1, UNIT);
    XorSelf(UNIT);
    Reflected(q, j);
  }

  lemma NotBack(n: nat, p: Poly)
    requires Amounts(n, p) && p < 0x10000 && p != 1
    ensures !Back(n)
  {
    OtherThanOne(p);
    ShortWord(p ^ 1);
    ApartFromOne(p, p ^ 1, 15);
  }

  // ---- The period

  lemma BackDifference(m: nat, n: nat)
    requires Back(m) && Back(m + n)
    ensures Back(n)
  {
    ShiftsAdd(UNIT, m, n);
  }

  lemma {:induction false} BackMultiple(m: nat, k: nat)
    requires Back(m)
    ensures Back(m * k)
    decreases k
  {
    if k > 0 {
      BackMultiple(m, k - 1);
      assert m * k == m * (k - 1) + m;
      ShiftsAdd(UNIT, m * (k - 1), m);
    }
  }

  predicate Prime(q: nat) { q > 1 && forall d :: 2 <= d < q ==> q % d != 0 }

  lemma NoSmallFactor(q: nat, a: nat, b: nat)
    requires (q == 7 || q == 31 || q == 151) && 2 <= a <= 12 && 2 <= b
    ensures a * b != q
  {
    if a <= 6 {
      assert a == 2 || a == 3 || a == 4 || a == 5 || a == 6;
    } else {
      assert a == 7 || a == 8 || a == 9 || a == 10 || a == 11 || a == 12;
    }
  }

  lemma PrimeFactors(q: nat)
    requires q == 7 || q == 31 || q == 151
    ensures Prime(q)
  {
    forall d | 2 <= d < q ensures q % d != 0 {
      var e := q / d;
      if q % d == 0 {
        assert q == d * e && e >= 2;
        if d <= 12 {
          NoSmallFactor(q, d, e);
        } else {
          assert e <= 12;
          NoSmallFactor(q, e, d);
        }
      }
    }
  }

  lemma Parts(a: nat, q: nat, r: nat)
    requires q > 0
    ensures r * a == a * q * (r / q) + a * (r % q)
  {
    var t, k := r % q, r / q;
    assert r == q * k + t;
    assert r * a == q * k * a + t * a;
  }

  /** When the register is back after a * q shifts, q prime, and after fewer a * t, it is back after a. */
  lemma {:induction false} Descends(a: nat, q: nat, t: nat)
    requires Prime(q) && 0 < t < q && Back(a * q) && Back(a * t)
    ensures Back(a)
    decreases t
  {
    if t > 1 {
      var r, k := q % t, q / t;
      BackMultiple(a * t, k);
      Parts(a, t, q);
      BackDifference(a * t * k, a * r);
      Descends(a, q, r);
    }
  }

  const PERIOD: nat := 32767

  lemma AllFactors(r: nat)
    requires r % 7 == 0 && r % 31 == 0 && r % 151 == 0
    ensures r % PERIOD == 0
  {
    var a, b, d := r / 7, r / 31, r / 151;
    var c := 9 * b - 2 * a;
    assert a == 31 * c;
    var e := 23 * c - 16 * d;
    assert c == 151 * e;
  }

  lemma FactorIsPeriod(a: nat, q: nat, r: nat)
    requires Prime(q) && r % q != 0 && Back(a * q) && Back(r)
    ensures Back(a)
  {
    BackMultiple(r, a);
    BackMultiple(a * q, r / q);
    Parts(a, q, r);
    BackDifference(a * q * (r / q), a * (r % q));
    Descends(a, q, r % q);
  }

  lemma NoShorterPeriod(a: nat)
    requires a == 4681 || a == 1057 || a == 217
    ensures !Back(a)
  {
    if a == 4681 {
      Amount4681();
      NotBack(a, 0x2c42);
    } else if a == 1057 {
      Amount1057();
      NotBack(a, 0xf2af);
    } else {
      Amount217();
      NotBack(a, 0x48e3);
    }
  }

  lemma PeriodReturns(n: nat)
    requires n == PERIOD
    ensures Back(n)
  {
    Amount32767();
    BackIfOne(n);
  }

  lemma ReturnsByFactors(period: nat, a: nat, q: nat, r: nat)
    requires a * q == period && Back(period) && Back(r) && !Back(a)
    requires q == 7 || q == 31 || q == 151
    ensures r % q == 0
  {
    PrimeFactors(q);
    if r % q != 0 { FactorIsPeriod(a, q, r); }
  }

  lemma ReturnsAreMultiples(period: nat, a: nat, b: nat, c: nat, n: nat)
    requires period == PERIOD && a == 4681 && b == 1057 && c == 217 && Back(period) && Back(n)
    ensures n % PERIOD == 0
  {
    NoShorterPeriod(a); NoShorterPeriod(b); NoShorterPeriod(c);
    ReturnsByFactors(period, a, 7, n);
    ReturnsByFactors(period, b, 31, n);
    ReturnsByFactors(period, c, 151, n);
    AllFactors(n);
  }

  /** The register is back exactly after the multiples of 32767 shifts. */
  lemma BackIff(n: nat)
    ensures Back(n) <==> n % PERIOD == 0
  {
    var period := PERIOD;
    PeriodReturns(period);
    BackMultiple(period, n / PERIOD);
    if Back(n) { ReturnsAreMultiples(period, 4681, 1057, 217, n); }
  }

  // ---- Two wrong bits

  lemma {:induction false} ShiftsKeeps(s: nat, t: nat, n: nat)
    requires s < 0x10000 && t < 0x10000
    ensures Shifts(s, n) == Shifts(t, n) <==> s == t
    decreases n
  {
    if n > 0 {
      FeedRange(s, false); FeedRange(t, false);
      ShiftsKeeps(Shift(s), Shift(t), n - 1);
      if Shift(s) == Shift(t) {
        ShiftLinear(s, t);
        XorSelf(Shift(s));
        XorBelow(s, t);
        SilenceKeeps(Xor(s, t), [false]);
        XorZero(Xor(s, t) / 2);
        XorOnlyEqual(s, t);
      }
    }
  }

  lemma XorBelow(s: nat, t: nat)
    requires s < 0x10000 && t < 0x10000
    ensures Xor(s, t) < 0x10000
  {
    WordRange();
    XorBound(s, t, 16);
  }

  lemma OneIsBackIff(n: nat)
    ensures Shifts(1, n) == 1 <==> Back(n)
  {
    var i := 15;
    UnitWraps(i);
    ShiftsAdd(UNIT, i, n);
    ShiftsAdd(UNIT, n, i);
    WordRange();
    ShiftsRange(UNIT, n);
    ShiftsKeeps(Shifts(UNIT, n), UNIT, i);
  }

  lemma TwoBitsEmptyIff(d: seq<bool>, i: nat, j: nat)
    requires i < j < |d| && OnlyAt(d, i, j)
    ensures FeedAll(0, d) == 0 <==> (j - i) % PERIOD == 0
  {
    var n := j - i;
    TwoBitsVanishIff(d, i, j);
    OneIsBackIff(n);
    BackIff(n);
  }

  /** Two wrong bits go unseen exactly when their distance is a multiple of 32767. */
  lemma TwoBitsUnseenIff(m: seq<byte>, t: seq<byte>, i: nat, j: nat)
    requires |m| == |t| && i < j < 8 * |m| && OnlyAt(XorBits(MessageBits(m), MessageBits(t)), i, j)
    ensures Crc(m) == Crc(t) <==> (j - i) % PERIOD == 0
  {
    SameCrcIffErrorVanishes(m, t);
    TwoBitsEmptyIff(XorBits(MessageBits(m), MessageBits(t)), i, j);
  }

  // ---- Up to three wrong bits

  /** How many bits are set. */
  function Ones(bits: seq<bool>): nat {
    if bits == [] then 0 else Flag(bits[0]) + Ones(bits[1..])
  }

  lemma {:induction false} OnesParity(bits: seq<bool>)
    ensures OddBits(bits) <==> Ones(bits) % 2 == 1
  {
    if bits != [] { OnesParity(bits[1..]); }
  }

  lemma {:induction false} NoOnes(bits: seq<bool>)
    ensures Ones(bits) == 0 <==> Silent(bits)
  {
    if bits != [] {
      NoOnes(bits[1..]);
      assert bits == [bits[0]] + bits[1..];
      if Silent(bits) { assert !bits[0] && forall i | 0 <= i < |bits| - 1 :: bits[1..][i] == bits[i + 1]; }
    }
  }

  lemma {:induction false} OneOne(bits: seq<bool>) returns (i: nat)
    requires Ones(bits) == 1
    ensures i < |bits| && OnlyAt(bits, i, i)
  {
    var rest := bits[1..];
    assert bits == [bits[0]] + rest;
    if bits[0] {
      NoOnes(rest);
      i := 0;
    } else {
      var k := OneOne(rest);
      i := k + 1;
    }
  }

  lemma {:induction false} TwoOnes(bits: seq<bool>) returns (i: nat, j: nat)
    requires Ones(bits) == 2
    ensures i < j < |bits| && OnlyAt(bits, i, j)
  {
    var rest := bits[1..];
    assert bits == [bits[0]] + rest;
    if bits[0] {
      var k := OneOne(rest);
      i, j := 0, k + 1;
    } else {
      var k, l := TwoOnes(rest);
      i, j := k + 1, l + 1;
    }
  }

  lemma TwoOnesFill(d: seq<bool>)
    requires |d| <= PERIOD && Ones(d) == 2
    ensures FeedAll(0, d) != 0
  {
    var i, j := TwoOnes(d);
    var n := j - i;
    assert 0 < n < PERIOD;
    TwoBitsEmptyIff(d, i, j);
  }

  lemma FewOnesFill(d: seq<bool>)
    requires |d| <= PERIOD && 1 <= Ones(d) <= 3
    ensures FeedAll(0, d) != 0
  {
    if Ones(d) == 2 {
      TwoOnesFill(d);
    } else {
      OnesParity(d);
      FeedAllParity(0, d);
    }
  }

  /** One to three wrong bits always change the checksum of a message of at most 4095 bytes. */
  lemma FewErrorsChangeCrc(m: seq<byte>, t: seq<byte>)
    requires |m| == |t| <= 4095 && 1 <= Ones(XorBits(MessageBits(m), MessageBits(t))) <= 3
    ensures Crc(m) != Crc(t)
  {
    SameCrcIffErrorVanishes(m, t);
    FewOnesFill(XorBits(MessageBits(m), MessageBits(t)));
  }

  /** A copy of an accepted response with one to three wrong bits among the checked bytes is refused. */
  lemma FewErrorsRefused(sent: seq<byte>, got: seq<byte>)
    requires |sent| >= RESPONSE + 2 && |got| >= RESPONSE + 2 && CheckResponse(sent).Ok?
    requires 1 <= Ones(XorBits(MessageBits(sent[..RESPONSE + 2]), MessageBits(got[..RESPONSE + 2]))) <= 3
    ensures CheckResponse(got).Err?
  {
    AcceptedIffResidueZero(sent);
    AcceptedIffResidueZero(got);
    FewErrorsChangeCrc(sent[..RESPONSE + 2], got[..RESPONSE + 2]);
  }
}
