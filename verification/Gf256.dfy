/** The field GF(256) of the recovery shares (FIPS 197, section 4.2). */
module Gf256 {
  import opened Bits
  import opened Results

  const MODULUS: nat := 0x11b

  function Add(a: byte, b: byte): byte {
    XorTop(a, b, 7);
    Xor(a, b)
  }

  /** Multiplication by x: double, and subtract the modulus when the degree reaches 8. */
  function XTime(a: byte): byte {
    XorTop(2 * a, MODULUS, 8); XorZero(2 * a);
    Xor(2 * a, if a < 128 then 0 else MODULUS)
  }

  function Pick(b: byte, a: byte): byte {
    if b % 2 == 0 then 0 else a
  }

  /** The product: one multiple of a for each bit of b, lowest bit first. */
  function Mul(a: byte, b: byte): byte
    decreases b
  {
    if b == 0 then 0 else Add(Pick(b, a), Mul(XTime(a), b / 2))
  }

  lemma XTimeLinear(a: byte, c: byte)
    ensures XTime(Add(a, c)) == Add(XTime(a), XTime(c))
  {
    var ta, tc := if a < 128 then 0 else MODULUS, if c < 128 then 0 else MODULUS;
    XorTop(a, c, 7);
    XorDouble(a, c);
    XorSwap(2 * a, ta, 2 * c, tc);
    XorSelf(MODULUS); XorZero(MODULUS); XorZero(0);
  }

  lemma {:induction false} MulAdds(a: byte, c: byte, b: byte)
    ensures Mul(Add(a, c), b) == Add(Mul(a, b), Mul(c, b))
    decreases b
  {
    XorZero(0);
    if b > 0 {
      XTimeLinear(a, c);
      MulAdds(XTime(a), XTime(c), b / 2);
      XorSwap(Pick(b, a), Pick(b, c), Mul(XTime(a), b / 2), Mul(XTime(c), b / 2));
    }
  }

  lemma {:induction false} ZeroMul(b: byte)
    ensures Mul(0, b) == 0
    decreases b
  {
    XorZero(0);
    if b > 0 { ZeroMul(b / 2); }
  }

  lemma {:induction false} MulXTime(a: byte, b: byte)
    ensures Mul(XTime(a), b) == XTime(Mul(a, b))
    decreases b
  {
    XorZero(0);
    if b > 0 {
      MulXTime(XTime(a), b / 2);
      XTimeLinear(Pick(b, a), Mul(XTime(a), b / 2));
    }
  }

  // ---- The laws of a commutative ring

  lemma {:induction false} MulSwap(x: byte, a: byte, b: byte)
    ensures Mul(Mul(x, a), b) == Mul(Mul(x, b), a)
    decreases b
  {
    ZeroMul(a);
    if b > 0 {
      MulXTime(x, a);
      MulSwap(XTime(x), a, b / 2);
      MulAdds(Pick(b, x), Mul(XTime(x), b / 2), a);
    }
  }

  lemma {:induction false} UnitMul(u: byte, b: byte)
    requires u == 1
    ensures Mul(u, b) == b
    decreases b
  {
    if b > 0 {
      UnitMul(u, b / 2);
      MulXTime(u, b / 2);
      XorZero(2 * (b / 2)); XorZero(b / 2);
    }
  }

  lemma OneMul(b: byte)
    ensures Mul(1, b) == b
  {
    var u: byte :| u == 1;
    UnitMul(u, b);
  }

  lemma MulComm(a: byte, b: byte)
    ensures Mul(a, b) == Mul(b, a)
  {
    MulSwap(1, a, b); OneMul(a); OneMul(b);
  }

  lemma MulAssoc(a: byte, b: byte, c: byte)
    ensures Mul(Mul(a, b), c) == Mul(a, Mul(b, c))
  {
    MulComm(a, b); MulSwap(b, a, c); MulComm(Mul(b, c), a);
  }

  lemma Distributes(a: byte, b: byte, c: byte)
    ensures Mul(a, Add(b, c)) == Add(Mul(a, b), Mul(a, c))
  {
    MulAdds(b, c, a);
    MulComm(a, Add(b, c)); MulComm(a, b); MulComm(a, c);
  }

  // ---- Inverses

  function Pow(b: byte, n: nat): byte {
    if n == 0 then 1 else Mul(Pow(b, n - 1), b)
  }

  lemma {:induction false} PowAdd(b: byte, m: nat, n: nat)
    ensures Pow(b, m + n) == Mul(Pow(b, m), Pow(b, n))
  {
    var p := Pow(b, m);
    if n == 0 {
      OneMul(p); MulComm(p, 1);
    } else {
      var q := Pow(b, n - 1);
      PowAdd(b, m, n - 1);
      assert m + n - 1 == m + (n - 1) && Pow(b, m + n) == Mul(Pow(b, m + n - 1), b);
      MulAssoc(p, q, b);
    }
  }

  function Square(b: byte): byte { Mul(b, b) }

  /** k squarings in a row. */
  function Frobenius(b: byte, k: nat): byte {
    if k == 0 then b else Square(Frobenius(b, k - 1))
  }

  lemma {:induction false} FrobeniusIsPower(b: byte, k: nat)
    ensures Frobenius(b, k) == Pow(b, Pow2(k))
  {
    if k == 0 {
      assert Pow(b, 1) == Mul(Pow(b, 0), b);
      OneMul(b);
    } else {
      FrobeniusIsPower(b, k - 1);
      PowAdd(b, Pow2(k - 1), Pow2(k - 1));
    }
  }

  lemma SquareAdds(a: byte, b: byte)
    ensures Square(Add(a, b)) == Add(Square(a), Square(b))
  {
    MulAdds(a, b, Add(a, b));
    Distributes(a, a, b); Distributes(b, a, b);
    MulComm(a, b);
    XorSwap(Mul(a, a), Mul(a, b), Mul(b, b), Mul(a, b));
    XorComm(Mul(a, b), Mul(b, b));
    XorSelf(Mul(a, b)); XorZero(Xor(Mul(a, a), Mul(b, b)));
  }

  lemma {:induction false} FrobeniusAdds(a: byte, b: byte, k: nat)
    ensures Frobenius(Add(a, b), k) == Add(Frobenius(a, k), Frobenius(b, k))
  {
    if k > 0 {
      FrobeniusAdds(a, b, k - 1);
      SquareAdds(Frobenius(a, k - 1), Frobenius(b, k - 1));
    }
  }

  lemma SquareMultiplies(c: byte, d: byte)
    ensures Square(Mul(c, d)) == Mul(Square(c), Square(d))
  {
    MulAssoc(Mul(c, d), c, d); MulSwap(c, d, c); MulAssoc(Mul(c, c), d, d);
  }

  lemma {:induction false} FrobeniusMultiplies(a: byte, b: byte, k: nat)
    ensures Frobenius(Mul(a, b), k) == Mul(Frobenius(a, k), Frobenius(b, k))
  {
    if k > 0 {
      FrobeniusMultiplies(a, b, k - 1);
      SquareMultiplies(Frobenius(a, k - 1), Frobenius(b, k - 1));
    }
  }

  lemma FrobeniusZeroOne(k: nat)
    ensures Frobenius(0, k) == 0 && Frobenius(1, k) == 1
  {
    ZeroMul(0); OneMul(1);
    if k > 0 { FrobeniusZeroOne(k - 1); }
  }

  // ---- The same operations on spelled-out bits

  function XTimeBits(o: Octet): Octet {
    var Octet(l, h) := o;
    Octet(Nibble(h.b3, l.b0 != h.b3, l.b1, l.b2 != h.b3), Nibble(l.b3 != h.b3, h.b0, h.b1, h.b2))
  }

  lemma Doubled(l: Nibble, h: Nibble)
    ensures 2 * Digits(l, Digits(h, 0)) ==
      Digits(Nibble(false, l.b0, l.b1, l.b2), Digits(Nibble(l.b3, h.b0, h.b1, h.b2), if h.b3 then 1 else 0))
  {}

  lemma XorModulus(l: Nibble, h: Nibble)
    ensures Xor(Digits(l, Digits(h, 1)), MODULUS) ==
      Digits(Nibble(!l.b0, !l.b1, l.b2, !l.b3), Digits(Nibble(!h.b0, h.b1, h.b2, h.b3), 0))
  {
    var m0, m1 := Nibble(true, true, false, true), Nibble(true, false, false, false);
    assert MODULUS == Digits(m0, Digits(m1, 1));
    XorDigits(l, Digits(h, 1), m0, Digits(m1, 1));
    XorDigits(h, 1, m1, 1);
    XorSelf(1);
  }

  lemma XTimeValue(o: Octet)
    ensures XTime(Value(o)) == Value(XTimeBits(o))
  {
    var Octet(l, h) := o;
    Doubled(l, h);
    if h.b3 {
      XorModulus(Nibble(false, l.b0, l.b1, l.b2), Nibble(l.b3, h.b0, h.b1, h.b2));
    } else {
      XorZero(2 * Value(o));
    }
  }

  function Bottom(low: bool): Octet {
    Octet(Nibble(low, false, false, false), Nibble(false, false, false, false))
  }

  /** The square of 2h + low, from the square of h. */
  function SquareStep(low: bool, s: Octet): Octet {
    XorOctets(Bottom(low), XTimeBits(XTimeBits(s)))
  }

  lemma SquareOfDouble(h: byte)
    ensures Square(XTime(h)) == XTime(XTime(Square(h)))
  {
    OneMul(h); MulXTime(1, h); XorZero(2);
    SquareMultiplies(2, h);
    OneMul(Square(h)); MulXTime(1, Square(h)); MulXTime(2, Square(h)); XorZero(4);
    MulXTime(1, 2); OneMul(2);
  }

  lemma SquareDigit(low: bool, h: byte, s: Octet)
    requires h < 128 && Square(h) == Value(s)
    ensures Square(Digit(low, h)) == Value(SquareStep(low, s))
  {
    var b := Value(Bottom(low));
    XorZero(2 * h); XorZero(h);
    assert Add(b, XTime(h)) == Digit(low, h);
    SquareAdds(b, XTime(h));
    ZeroMul(0); OneMul(1);
    SquareOfDouble(h);
    XTimeValue(s); XTimeValue(XTimeBits(s));
    XorValue(Bottom(low), XTimeBits(XTimeBits(s)));
  }

  function SquareNibble(n: Nibble, s: Octet): Octet {
    SquareStep(n.b0, SquareStep(n.b1, SquareStep(n.b2, SquareStep(n.b3, s))))
  }

  lemma SquareDigits(n: Nibble, h: byte, s: Octet)
    requires h < 16 && Square(h) == Value(s)
    ensures Square(Digits(n, h)) == Value(SquareNibble(n, s))
  {
    var d3 := Digit(n.b3, h); var d2 := Digit(n.b2, d3); var d1 := Digit(n.b1, d2);
    var s3 := SquareStep(n.b3, s); var s2 := SquareStep(n.b2, s3); var s1 := SquareStep(n.b1, s2);
    SquareDigit(n.b3, h, s); SquareDigit(n.b2, d3, s3); SquareDigit(n.b1, d2, s2); SquareDigit(n.b0, d1, s1);
  }

  /** Squaring, bit by bit: coefficient i moves to x^(2i), reduced. */
  function SquareBits(o: Octet): Octet {
    var Octet(Nibble(e0, e1, e2, e3), Nibble(e4, e5, e6, e7)) := o;
    Octet(Nibble((e0 != e4) != e6, (e4 != e6) != e7, e1 != e5, ((e4 != e5) != e6) != e7),
          Nibble((e2 != e4) != e7, e5 != e6, e3 != e5, e6 != e7))
  }

  lemma SquareBitsHigh(n: Nibble)
    ensures SquareNibble(n, Bottom(false)) == Octet(Nibble(n.b0, false, n.b1, false), Nibble(n.b2, false, n.b3, false))
  {
    assert SquareStep(n.b2, SquareStep(n.b3, Bottom(false)))
        == Octet(Nibble(n.b2, false, n.b3, false), Nibble(false, false, false, false));
  }

  lemma SquareBitsUpper(e2: bool, e3: bool, n: Nibble)
    ensures SquareStep(e2, SquareStep(e3, Octet(Nibble(n.b0, false, n.b1, false), Nibble(n.b2, false, n.b3, false)))) ==
      Octet(Nibble(e2 != n.b2, n.b2, e3 != n.b3, n.b2 != n.b3), Nibble(n.b0 != n.b2, n.b3, n.b1 != n.b3, false))
  {
    assert SquareStep(e3, Octet(Nibble(n.b0, false, n.b1, false), Nibble(n.b2, false, n.b3, false))) ==
      Octet(Nibble(e3 != n.b3, n.b3, n.b0, n.b3), Nibble(n.b1 != n.b3, false, n.b2, false));
  }

  lemma SquareBitsLower(e0: bool, e1: bool, l: Nibble, h: Nibble)
    requires !h.b3
    ensures SquareStep(e0, SquareStep(e1, Octet(l, h))) == Octet(
      Nibble(e0 != h.b0, h.b0 != h.b1, (e1 != h.b1) != h.b2, h.b0 != h.b2),
      Nibble((l.b0 != h.b0) != h.b1, (l.b1 != h.b1) != h.b2, l.b2 != h.b2, l.b3))
  {
    assert SquareStep(e1, Octet(l, h))
        == Octet(Nibble(e1 != h.b2, h.b2, l.b0, l.b1 != h.b2), Nibble(l.b2 != h.b2, l.b3, h.b0, h.b1));
  }

  lemma SquareBitsLow(o: Octet)
    ensures SquareNibble(o.low, SquareNibble(o.high, Bottom(false))) == SquareBits(o)
  {
    SquareBitsHigh(o.high);
    SquareBitsUpper(o.low.b2, o.low.b3, o.high);
    var s := SquareStep(o.low.b2, SquareStep(o.low.b3, SquareNibble(o.high, Bottom(false))));
    SquareBitsLower(o.low.b0, o.low.b1, s.low, s.high);
  }

  lemma SquareValue(o: Octet)
    ensures Square(Value(o)) == Value(SquareBits(o))
  {
    ZeroMul(0);
    SquareDigits(o.high, 0, Bottom(false));
    SquareDigits(o.low, Digits(o.high, 0), SquareNibble(o.high, Bottom(false)));
    SquareBitsLow(o);
  }

  /** The modulus is irreducible, seen through squaring: only 0 and 1 are their own squares. */
  lemma IdempotentsAreTrivial(e: byte)
    requires Square(e) == e
    ensures e == 0 || e == 1
  {
    var o := Spell(e);
    SquareValue(o);
    SpelledOnce(o, SquareBits(o));
    assert o == Bottom(o.low.b0);
  }

  function FrobeniusBits(o: Octet, k: nat): Octet {
    if k == 0 then o else SquareBits(FrobeniusBits(o, k - 1))
  }

  lemma {:induction false} FrobeniusValue(o: Octet, k: nat)
    ensures Frobenius(Value(o), k) == Value(FrobeniusBits(o, k))
  {
    if k > 0 {
      FrobeniusValue(o, k - 1);
      SquareValue(FrobeniusBits(o, k - 1));
    }
  }

  lemma FrobeniusOfTwo(k: nat)
    requires k == 8
    ensures Frobenius(2, k) == 2
  {
    var x := Octet(Nibble(false, true, false, false), Nibble(false, false, false, false));
    assert Value(x) == 2;
    FrobeniusValue(x, k);
    assert FrobeniusBits(x, 3) == Octet(Nibble(true, true, false, true), Nibble(true, false, false, false));
    assert FrobeniusBits(x, 5) == Octet(Nibble(false, false, true, false), Nibble(false, true, true, true));
    assert FrobeniusBits(x, 8) == x;
  }

  lemma {:induction false} FrobeniusFixes(x: byte, b: byte, k: nat)
    requires Frobenius(x, k) == x && Frobenius(2, k) == 2
    ensures Frobenius(Mul(x, b), k) == Mul(x, b)
    decreases b
  {
    FrobeniusZeroOne(k);
    if b > 0 {
      MulXTime(1, x); OneMul(x); XorZero(2);
      FrobeniusMultiplies(2, x, k);
      FrobeniusFixes(XTime(x), b / 2, k);
      FrobeniusAdds(Pick(b, x), Mul(XTime(x), b / 2), k);
    }
  }

  lemma FrobeniusIsIdentity(b: byte, k: nat, u: byte)
    requires k == 8 && u == 1
    ensures Frobenius(b, k) == b
  {
    FrobeniusOfTwo(k);
    FrobeniusZeroOne(k);
    FrobeniusFixes(u, b, k);
    UnitMul(u, b);
  }

  lemma EveryPower256(b: byte)
    ensures Pow(b, 256) == b
  {
    var k, u: byte :| k == 8 && u == 1;
    FrobeniusIsIdentity(b, k, u);
    FrobeniusIsPower(b, k);
    assert Pow2(8) == 256;
  }

  /** The 254th power is the inverse. */
  lemma PowerInverts(b: byte)
    requires b != 0
    ensures Mul(b, Pow(b, 254)) == 1 && Mul(Pow(b, 254), b) == 1
  {
    var e, i := Pow(b, 255), Pow(b, 254);
    assert e == Mul(i, b);
    EveryPower256(b);
    assert Mul(e, b) == b;
    MulComm(i, b);
    // e is idempotent: (i b)(i b) = (i b b) i = b i = e
    MulAssoc(e, b, i);
    IdempotentsAreTrivial(e);
    ZeroMul(b);
  }

  /** Division by a nonzero element, as multiplication by its 254th power. */
  function Div(a: byte, b: byte): byte {
    Mul(a, Pow(b, 254))
  }

  /** No zero divisors, and division undoes multiplication: the ring is a field. */
  lemma DivUndoesMul(a: byte, b: byte)
    requires b != 0
    ensures Div(Mul(a, b), b) == a && Mul(Div(a, b), b) == a
  {
    var i := Pow(b, 254);
    PowerInverts(b);
    MulAssoc(a, b, i); MulAssoc(a, i, b); MulComm(a, 1); OneMul(a);
  }

  lemma CancelFactor(a: byte, c: byte, b: byte)
    requires b != 0 && Mul(a, b) == Mul(c, b)
    ensures a == c
  {
    DivUndoesMul(a, b);
    DivUndoesMul(c, b);
  }

  // ---- The loops of the source

  /** All ones for 1 and zero for 0: the wrapping difference 0 - flag. */
  function Mask(flag: nat): byte
    requires flag <= 1
  {
    (256 - flag) % 256
  }

  lemma Masked(a: byte, flag: nat)
    requires flag <= 1
    ensures And(a, Mask(flag)) == if flag == 1 then a else 0
  {
    assert Pow2(8) == 256;
    AndOnes(a, 8);
  }

  /** One doubling of the loop: shift in eight bits, fold 0x1b in when a bit was lost. */
  function ShiftAndFold(x: byte): byte {
    Masked(0x1b, x / 128);
    Add(2 * x % 256, And(0x1b, Mask(x / 128)))
  }

  lemma FoldIsReduction(t: nat)
    requires t < 256
    ensures Xor(256 + t, MODULUS) == Xor(t, 0x1b)
  {
    assert Pow2(8) == 256;
    var fold := 0x1b;
    XorHigh(t, fold, 8);
  }

  lemma ShiftAndFoldIsXTime(x: byte)
    ensures ShiftAndFold(x) == XTime(x)
  {
    Masked(0x1b, x / 128);
    if x < 128 {
      assert 2 * x % 256 == 2 * x;
    } else {
      var t := 2 * x - 256;
      assert 2 * x % 256 == t;
      FoldIsReduction(t);
    }
  }

  /** The multiple of x that the lowest bit of y selects. */
  function Selected(x: byte, y: byte): byte {
    Masked(x, y % 2);
    And(x, Mask(y % 2))
  }

  /** A round moves one multiple of x from the product still to be formed into the result. */
  lemma RoundKeepsSum(result: byte, x: byte, y: byte)
    ensures Add(Add(result, Selected(x, y)), Mul(ShiftAndFold(x), y / 2)) == Add(result, Mul(x, y))
  {
    Masked(x, y % 2);
    ShiftAndFoldIsXTime(x);
    XorAssoc(result, Pick(y, x), Mul(XTime(x), y / 2));
    XorZero(0);
  }

  /** One turn of the multiplication loop. */
  method Round(result: byte, x: byte, y: byte, ghost left: nat) returns (result': byte, x': byte, y': byte)
    requires left > 0 && y < Pow2(left)
    ensures Add(result', Mul(x', y')) == Add(result, Mul(x, y)) && y' < Pow2(left - 1)
  {
    RoundKeepsSum(result, x, y);
    result' := Add(result, Selected(x, y));
    x' := ShiftAndFold(x);
    y' := y / 2;
  }

  method GfMul(a: byte, b: byte) returns (result: byte)
    ensures result == Mul(a, b)
  {
    result := 0;
    var x: byte, y: byte := a, b;
    ghost var product := Mul(a, b);
    XorZero(product);
    assert b < Pow2(8);
    ghost var left: nat := 8;
    for i := 0 to 8
      invariant left == 8 - i && y < Pow2(left)
      invariant Add(result, Mul(x, y)) == product
    {
      result, x, y := Round(result, x, y, left);
      left := left - 1;
    }
    XorZero(result);
  }

  method GfDiv(a: byte, b: byte) returns (r: Result<byte>)
    ensures r.Err? <==> b == 0
    ensures r.Ok? ==> r.value == Div(a, b) && Mul(r.value, b) == a
  {
    if b == 0 { return Err("Division by zero"); }
    var inverse: byte := 1;
    for i := 0 to 254
      invariant inverse == Pow(b, i)
    {
      inverse := GfMul(inverse, b);
    }
    var q := GfMul(a, inverse);
    DivUndoesMul(a, b);
    r := Ok(q);
  }

  // ---- Polynomials over GF(2): bit i of a number is the coefficient of x^i

  /** The product of two polynomials, not reduced. */
  function Product(p: nat, q: nat): nat
    decreases q
  {
    if q == 0 then 0 else Xor(if q % 2 == 0 then 0 else p, Product(2 * p, q / 2))
  }

  /** r differs from p by a multiple of the modulus. */
  ghost predicate Congruent(p: nat, r: nat) {
    exists q: nat :: p == Xor(Product(MODULUS, q), r)
  }

  lemma {:induction false} ProductAdds(p: nat, q: nat, r: nat)
    ensures Product(p, Xor(q, r)) == Xor(Product(p, q), Product(p, r))
    decreases q + r
  {
    XorZero(0);
    if q != 0 || r != 0 {
      XorStep(q, r);
      XorSelf(p); XorZero(p);
      ProductAdds(2 * p, q / 2, r / 2);
      XorSwap(if q % 2 == 0 then 0 else p, Product(2 * p, q / 2), if r % 2 == 0 then 0 else p, Product(2 * p, r / 2));
      XorZero(Product(p, q)); XorZero(Product(p, r));
    }
  }

  lemma {:induction false} ProductDoubles(p: nat, q: nat)
    ensures Product(2 * p, q) == 2 * Product(p, q)
    decreases q
  {
    if q != 0 {
      ProductDoubles(2 * p, q / 2);
      XorDouble(if q % 2 == 0 then 0 else p, Product(2 * p, q / 2));
    }
  }

  lemma ProductOfDouble(p: nat, q: nat)
    ensures Product(p, 2 * q) == 2 * Product(p, q)
  {
    ProductDoubles(p, q);
    if q != 0 {
      assert 2 * q / 2 == q;
      XorZero(Product(2 * p, q));
    }
  }

  lemma CongruentSum(p: nat, r: nat, p': nat, r': nat)
    requires Congruent(p, r) && Congruent(p', r')
    ensures Congruent(Xor(p, p'), Xor(r, r'))
  {
    var q: nat :| p == Xor(Product(MODULUS, q), r);
    var q': nat :| p' == Xor(Product(MODULUS, q'), r');
    ProductAdds(MODULUS, q, q');
    XorSwap(Product(MODULUS, q), r, Product(MODULUS, q'), r');
  }

  lemma CongruentItself(r: nat)
    ensures Congruent(r, r)
  {
    XorZero(r);
    assert r == Xor(Product(MODULUS, 0), r);
  }

  lemma CongruentDouble(p: nat, r: byte)
    requires Congruent(p, r)
    ensures Congruent(2 * p, XTime(r))
  {
    var q: nat :| p == Xor(Product(MODULUS, q), r);
    XorDouble(Product(MODULUS, q), r);
    ProductOfDouble(MODULUS, q);
    assert 2 * p == Xor(Product(MODULUS, 2 * q), 2 * r);
    if r < 128 {
      XorZero(2 * r);
    } else {
      var m := Product(MODULUS, 1);
      XorZero(MODULUS);
      assert m == MODULUS by { assert Product(2 * MODULUS, 0) == 0; }
      XorCancel(2 * r, MODULUS); XorComm(MODULUS, XTime(r));
      XorAssoc(Product(MODULUS, 2 * q), m, XTime(r));
      ProductAdds(MODULUS, 2 * q, 1);
    }
  }

  lemma {:induction false} MulIsCongruent(p: nat, a: byte, b: byte)
    requires Congruent(p, a)
    ensures Congruent(Product(p, b), Mul(a, b))
    decreases b
  {
    CongruentItself(0);
    if b > 0 {
      CongruentDouble(p, a);
      MulIsCongruent(2 * p, XTime(a), b / 2);
      CongruentSum(if b % 2 == 0 then 0 else p, Pick(b, a), Product(2 * p, b / 2), Mul(XTime(a), b / 2));
    }
  }

  lemma {:induction false} ProductDegree(p: nat, q: nat, k: nat)
    requires Pow2(k) <= p < Pow2(k + 1) && q > 0
    ensures Product(p, q) >= Pow2(k)
    decreases q
  {
    if q == 1 {
      XorZero(p);
      assert Product(2 * p, 0) == 0;
    } else {
      ProductDegree(2 * p, q / 2, k + 1);
      XorAbove(if q % 2 == 0 then 0 else p, Product(2 * p, q / 2), k + 1);
    }
  }

  /** The product of the field is the one polynomial of degree below 8 that is congruent to the
      product of the polynomials: multiplication as FIPS 197 section 4.2 defines it. */
  lemma MulIsPolynomialProduct(a: byte, b: byte, r: byte)
    ensures r == Mul(a, b) <==> Congruent(Product(a, b), r)
  {
    CongruentItself(a);
    MulIsCongruent(a, a, b);
    if Congruent(Product(a, b), r) {
      var m := Mul(a, b);
      CongruentSum(Product(a, b), m, Product(a, b), r);
      XorSelf(Product(a, b));
      var q: nat :| 0 == Xor(Product(MODULUS, q), Add(m, r));
      XorOnlyEqual(Product(MODULUS, q), Add(m, r));
      assert Pow2(8) == 256 && Pow2(9) == 512;
      if q > 0 { ProductDegree(MODULUS, q, 8); }
      XorOnlyEqual(m, r);
    }
  }
}
