/** Machine words as natural numbers: bitwise exclusive or, and bit widths. */
module Bits {
  type byte = x: int | 0 <= x < 256

  function Pow2(k: nat): (r: nat)
    ensures r > 0
  {
    if k == 0 then 1 else 2 * Pow2(k - 1)
  }

  lemma {:induction false} Pow2Sum(a: nat, b: nat)
    ensures Pow2(a + b) == Pow2(a) * Pow2(b)
  {
    if b > 0 {
      Pow2Sum(a, b - 1);
      assert Pow2(a) * Pow2(b) == 2 * (Pow2(a) * Pow2(b - 1));
    }
  }

  /** Bitwise exclusive or. */
  function Xor(a: nat, b: nat): nat {
    if a == 0 && b == 0 then 0
    else (if a % 2 == b % 2 then 0 else 1) + 2 * Xor(a / 2, b / 2)
  }

  lemma {:induction false} XorComm(a: nat, b: nat)
    ensures Xor(a, b) == Xor(b, a)
  {
    if a != 0 || b != 0 { XorComm(a / 2, b / 2); }
  }

  lemma {:induction false} XorZero(a: nat)
    ensures Xor(a, 0) == a && Xor(0, a) == a
  {
    if a != 0 { XorZero(a / 2); }
  }

  lemma {:induction false} XorSelf(a: nat)
    ensures Xor(a, a) == 0
  {
    if a != 0 { XorSelf(a / 2); }
  }

  lemma XorStep(a: nat, b: nat)
    ensures Xor(a, b) / 2 == Xor(a / 2, b / 2)
    ensures Xor(a, b) % 2 == (if a % 2 == b % 2 then 0 else 1)
  {}

  lemma {:induction false} XorAssoc(a: nat, b: nat, c: nat)
    ensures Xor(Xor(a, b), c) == Xor(a, Xor(b, c))
  {
    if a != 0 || b != 0 || c != 0 {
      XorStep(a, b);
      XorStep(b, c);
      XorAssoc(a / 2, b / 2, c / 2);
      XorStep(Xor(a, b), c);
      XorStep(a, Xor(b, c));
    }
  }

  lemma XorDouble(a: nat, b: nat)
    ensures Xor(2 * a, 2 * b) == 2 * Xor(a, b)
  {}

  lemma {:induction false} XorBound(a: nat, b: nat, k: nat)
    requires a < Pow2(k) && b < Pow2(k)
    ensures Xor(a, b) < Pow2(k)
  {
    if k > 0 { XorBound(a / 2, b / 2, k - 1); }
  }

  lemma XorSwap(a: nat, b: nat, c: nat, d: nat)
    ensures Xor(Xor(a, b), Xor(c, d)) == Xor(Xor(a, c), Xor(b, d))
  {
    XorAssoc(a, b, Xor(c, d)); XorAssoc(b, c, d); XorComm(b, c);
    XorAssoc(c, b, d); XorAssoc(a, c, Xor(b, d));
  }

  lemma XorCancel(a: nat, b: nat)
    ensures Xor(Xor(a, b), b) == a && Xor(a, Xor(a, b)) == b
  {
    XorAssoc(a, b, b); XorSelf(b); XorZero(a);
    XorAssoc(a, a, b); XorSelf(a); XorZero(b);
  }

  /** The top bit of an exclusive or: set exactly when one operand alone has it. */
  lemma {:induction false} XorTop(a: nat, b: nat, k: nat)
    requires a < Pow2(k + 1) && b < Pow2(k + 1)
    ensures Xor(a, b) >= Pow2(k) <==> ((a >= Pow2(k)) != (b >= Pow2(k)))
    ensures Xor(a, b) < Pow2(k + 1)
  {
    XorBound(a, b, k + 1);
    if k > 0 { XorTop(a / 2, b / 2, k - 1); }
  }

  lemma {:induction false} XorAbove(a: nat, b: nat, k: nat)
    requires a < Pow2(k) <= b
    ensures Xor(a, b) >= Pow2(k)
  {
    if k == 0 { XorZero(b); } else { XorAbove(a / 2, b / 2, k - 1); }
  }

  lemma XorOnlyEqual(a: nat, b: nat)
    requires Xor(a, b) == 0
    ensures a == b
  {
    XorCancel(a, b); XorZero(a);
  }

  lemma {:induction false} XorHigh(a: nat, b: nat, k: nat)
    requires a < Pow2(k) && b < Pow2(k)
    ensures Xor(Pow2(k) + a, Pow2(k) + b) == Xor(a, b)
  {
    if k > 0 { XorHigh(a / 2, b / 2, k - 1); }
  }

  lemma {:induction false} XorLower(a: nat, k: nat)
    requires a < Pow2(k)
    ensures Xor(Pow2(k), a) == Pow2(k) + a
    decreases k
  {
    if k > 0 {
      XorStep(Pow2(k), a);
      XorLower(a / 2, k - 1);
    }
  }

  /** Bitwise and. */
  function And(a: nat, b: nat): nat {
    if a == 0 || b == 0 then 0
    else a % 2 * (b % 2) + 2 * And(a / 2, b / 2)
  }

  lemma {:induction false} AndOnes(a: nat, k: nat)
    requires a < Pow2(k)
    ensures And(a, Pow2(k) - 1) == a
  {
    if k > 0 {
      var ones := Pow2(k) - 1;
      assert ones % 2 == 1 && ones / 2 == Pow2(k - 1) - 1;
      AndOnes(a / 2, k - 1);
    }
  }

  // ---- Bytes spelled out, lowest bit first

  function Digit(low: bool, rest: nat): nat {
    (if low then 1 else 0) + 2 * rest
  }

  lemma XorDigit(p: bool, a: nat, q: bool, b: nat)
    ensures Xor(Digit(p, a), Digit(q, b)) == Digit(p != q, Xor(a, b))
  {
    assert Digit(p, a) / 2 == a && Digit(p, a) % 2 == if p then 1 else 0;
    assert Digit(q, b) / 2 == b && Digit(q, b) % 2 == if q then 1 else 0;
    XorZero(0);
  }

  datatype Nibble = Nibble(b0: bool, b1: bool, b2: bool, b3: bool)

  function Digits(n: Nibble, rest: nat): (r: nat)
    ensures rest < 16 ==> r < 256
    ensures rest == 0 ==> r < 16
  {
    Digit(n.b0, Digit(n.b1, Digit(n.b2, Digit(n.b3, rest))))
  }

  function Differ(a: Nibble, b: Nibble): Nibble {
    Nibble(a.b0 != b.b0, a.b1 != b.b1, a.b2 != b.b2, a.b3 != b.b3)
  }

  lemma XorDigits(a: Nibble, x: nat, b: Nibble, y: nat)
    ensures Xor(Digits(a, x), Digits(b, y)) == Digits(Differ(a, b), Xor(x, y))
  {
    var a3, b3 := Digit(a.b3, x), Digit(b.b3, y);
    var a2, b2 := Digit(a.b2, a3), Digit(b.b2, b3);
    XorDigit(a.b0, Digit(a.b1, a2), b.b0, Digit(b.b1, b2));
    XorDigit(a.b1, a2, b.b1, b2);
    XorDigit(a.b2, a3, b.b2, b3);
    XorDigit(a.b3, x, b.b3, y);
  }

  datatype Octet = Octet(low: Nibble, high: Nibble)

  function Value(o: Octet): byte {
    Digits(o.low, Digits(o.high, 0))
  }

  function XorOctets(a: Octet, b: Octet): Octet {
    Octet(Differ(a.low, b.low), Differ(a.high, b.high))
  }

  lemma XorValue(a: Octet, b: Octet)
    ensures Xor(Value(a), Value(b)) == Value(XorOctets(a, b))
  {
    XorDigits(a.low, Digits(a.high, 0), b.low, Digits(b.high, 0));
    XorDigits(a.high, 0, b.high, 0);
    XorZero(0);
  }

  lemma SpellNibble(a: nat) returns (n: Nibble)
    ensures Digits(n, a / 2 / 2 / 2 / 2) == a
  {
    var h1 := a / 2; var h2 := h1 / 2; var h3 := h2 / 2;
    n := Nibble(a % 2 == 1, h1 % 2 == 1, h2 % 2 == 1, h3 % 2 == 1);
    assert Digit(n.b3, h3 / 2) == h3;
    assert Digit(n.b2, h3) == h2;
    assert Digit(n.b1, h2) == h1;
  }

  lemma Spell(a: byte) returns (o: Octet)
    ensures Value(o) == a
  {
    var low := SpellNibble(a);
    var high := SpellNibble(a / 2 / 2 / 2 / 2);
    o := Octet(low, high);
  }

  lemma SpelledOnce(a: Octet, b: Octet)
    requires Value(a) == Value(b)
    ensures a == b
  {
    XorValue(a, b);
    XorSelf(Value(a));
  }
}
