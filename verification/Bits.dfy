/** Bitwise operators on the non-negative values of a machine word. */
module Bits {

  function Xor(a: nat, b: nat): nat
    decreases a + b
  {
    if a == 0 && b == 0 then 0
    else (if a % 2 != b % 2 then 1 else 0) + 2 * Xor(a / 2, b / 2)
  }

  function Or(a: nat, b: nat): nat
    decreases a + b
  {
    if a == 0 && b == 0 then 0
    else (if a % 2 == 1 || b % 2 == 1 then 1 else 0) + 2 * Or(a / 2, b / 2)
  }

  function And(a: nat, b: nat): nat
    decreases a + b
  {
    if a == 0 && b == 0 then 0
    else (if a % 2 == 1 && b % 2 == 1 then 1 else 0) + 2 * And(a / 2, b / 2)
  }

  ghost function Pow2(k: nat): (p: nat)
    ensures p > 0
  {
    if k == 0 then 1 else 2 * Pow2(k - 1)
  }

  lemma Pow2Byte(k: nat)
    ensures Pow2(k + 8) == 256 * Pow2(k)
  {
    assert Pow2(k + 2) == 4 * Pow2(k);
    assert Pow2(k + 4) == 4 * Pow2(k + 2);
    assert Pow2(k + 6) == 4 * Pow2(k + 4);
    assert Pow2(k + 8) == 4 * Pow2(k + 6);
  }

  lemma Pow2Seven(k: nat)
    ensures Pow2(k + 7) == 128 * Pow2(k)
  {
    assert Pow2(k + 2) == 4 * Pow2(k);
    assert Pow2(k + 4) == 4 * Pow2(k + 2);
    assert Pow2(k + 6) == 4 * Pow2(k + 4);
  }

  lemma {:induction false} XorCancels(a: nat, b: nat)
    ensures Xor(Xor(a, b), b) == a
    decreases a + b
  {
    if a != 0 || b != 0 {
      XorCancels(a / 2, b / 2);
      var bit := if a % 2 != b % 2 then 1 else 0;
      var x := Xor(a, b);
      assert x % 2 == bit && x / 2 == Xor(a / 2, b / 2);
    }
  }

  lemma XorStep(half: nat, low: nat, b: nat)
    requires Xor(half + low / 2, b / 2) == half + Xor(low / 2, b / 2)
    ensures Xor(2 * half + low, b) == 2 * half + Xor(low, b)
  {
  }

  /** Exclusive or touches only the low k bits when the other operand has only those. */
  lemma {:induction false} XorBelow(high: nat, low: nat, b: nat, k: nat)
    requires low < Pow2(k) && b < Pow2(k)
    ensures Xor(low, b) < Pow2(k)
    ensures Xor(high * Pow2(k) + low, b) == high * Pow2(k) + Xor(low, b)
    decreases k
  {
    if k == 0 {
      XorZero(high);
    } else {
      XorBelow(high, low / 2, b / 2, k - 1);
      XorBelowStep(high, low, b, Pow2(k - 1));
    }
  }

  lemma XorBelowStep(high: nat, low: nat, b: nat, p: nat)
    requires Xor(low / 2, b / 2) < p
    requires Xor(high * p + low / 2, b / 2) == high * p + Xor(low / 2, b / 2)
    ensures Xor(low, b) < 2 * p
    ensures Xor(high * (2 * p) + low, b) == high * (2 * p) + Xor(low, b)
  {
    hide Xor;
    XorStep(high * p, low, b);
    XorHalves(low, b);
    DoubleHigh(high, p);
  }

  lemma XorHalves(a: nat, b: nat)
    ensures Xor(a, b) <= 1 + 2 * Xor(a / 2, b / 2)
  {
  }

  lemma DoubleHigh(high: nat, p: nat)
    ensures high * (2 * p) == 2 * (high * p)
  {
  }

  lemma {:induction false} XorZero(a: nat)
    ensures Xor(a, 0) == a
  {
    if a != 0 {
      XorZero(a / 2);
    }
  }

  /** Or of a value below 2^k with 2^k is their sum. */
  lemma {:induction false} OrPower(a: nat, k: nat)
    requires a < Pow2(k)
    ensures Or(Pow2(k), a) == Pow2(k) + a
    decreases k
  {
    if k == 0 {
      assert Or(1, 0) == 1 + 2 * Or(0, 0);
    } else {
      OrPower(a / 2, k - 1);
    }
  }

  /** Exclusive or works on low and high bits apart. */
  lemma {:induction false} XorSplit(low: nat, high: nat, b: nat, c: nat, k: nat)
    requires low < Pow2(k) && b < Pow2(k)
    ensures Xor(low + high * Pow2(k), b + c * Pow2(k)) == Xor(low, b) + Xor(high, c) * Pow2(k)
    decreases k
  {
    if k == 0 {
      assert Xor(0, 0) == 0;
    } else {
      XorSplit(low / 2, high, b / 2, c, k - 1);
      XorSplitStep(low, high, b, c, Pow2(k - 1));
    }
  }

  lemma XorSplitStep(low: nat, high: nat, b: nat, c: nat, p: nat)
    requires Xor(low / 2 + high * p, b / 2 + c * p) == Xor(low / 2, b / 2) + Xor(high, c) * p
    ensures Xor(low + high * (2 * p), b + c * (2 * p)) == Xor(low, b) + Xor(high, c) * (2 * p)
  {
    hide Xor;
    DoubleHigh(high, p);
    DoubleHigh(c, p);
    DoubleHigh(Xor(high, c), p);
    XorHalf(low, high * p, b, c * p, Xor(high, c) * p);
  }

  lemma XorHalf(low: nat, h: nat, b: nat, g: nat, x: nat)
    requires Xor(low / 2 + h, b / 2 + g) == Xor(low / 2, b / 2) + x
    ensures Xor(low + 2 * h, b + 2 * g) == Xor(low, b) + 2 * x
  {
    if low == 0 && b == 0 {
      assert Xor(0, 0) == 0;
    }
  }

  /** Or of a value below 2^k with a multiple of 2^k is their sum. */
  lemma {:induction false} OrAbove(value: nat, high: nat, k: nat)
    requires value < Pow2(k)
    ensures Or(value, high * Pow2(k)) == value + high * Pow2(k)
    decreases k
  {
    if k == 0 {
      OrZero(high);
    } else {
      OrAbove(value / 2, high, k - 1);
      DoubleHigh(high, Pow2(k - 1));
      OrStep(value, high * Pow2(k - 1));
    }
  }

  lemma OrStep(value: nat, half: nat)
    requires Or(value / 2, half) == value / 2 + half
    ensures Or(value, 2 * half) == value + 2 * half
  {
  }

  lemma {:induction false} OrZero(a: nat)
    ensures Or(0, a) == a
  {
    if a != 0 {
      OrZero(a / 2);
    }
  }

  /** And with 2^k - 1 is the remainder by 2^k. */
  lemma {:induction false} AndMask(a: nat, k: nat)
    ensures And(a, Pow2(k) - 1) == a % Pow2(k)
    decreases k
  {
    if k == 0 {
      AndZero(a);
    } else {
      AndMask(a / 2, k - 1);
      var p := Pow2(k - 1);
      assert (2 * p - 1) / 2 == p - 1 && (2 * p - 1) % 2 == 1;
      ModHalf(a, p);
    }
  }

  lemma ModHalf(a: nat, p: nat)
    requires p > 0
    ensures a % (2 * p) == a % 2 + 2 * (a / 2 % p)
  {
    var q := a / 2 / p;
    assert a / 2 == q * p + a / 2 % p;
    assert a == q * (2 * p) + (a % 2 + 2 * (a / 2 % p));
    DivModUnique(a, 2 * p, q, a % 2 + 2 * (a / 2 % p));
  }

  lemma MultipleIsLarge(m: int, d: int)
    requires d > 0 && m != 0
    ensures m * d >= d || m * d <= -d
  {
  }

  lemma DivModUnique(a: int, d: int, q: int, r: int)
    requires d > 0 && 0 <= r < d && a == q * d + r
    ensures a / d == q && a % d == r
  {
    var diff := a / d - q;
    assert a == a / d * d + a % d;
    assert diff * d == a / d * d - q * d;
    if diff != 0 {
      MultipleIsLarge(diff, d);
    }
  }

  lemma {:induction false} AndZero(a: nat)
    ensures And(a, 0) == 0
  {
    if a != 0 {
      AndZero(a / 2);
    }
  }

  /** Setting bit k and flipping low bits adds them above and below; masking and flipping again undoes both. */
  lemma MaskedXor(a: nat, b: nat, k: nat)
    requires a < Pow2(k) && b < Pow2(k)
    ensures Xor(a, b) < Pow2(k)
    ensures Xor(Or(Pow2(k), a), b) == Pow2(k) + Xor(a, b)
    ensures Xor(And(Pow2(k) + Xor(a, b), Pow2(k) - 1), b) == a
  {
    hide Xor, Or, And, Pow2;
    OrPower(a, k);
    XorBelow(1, a, b, k);
    AndMask(Pow2(k) + Xor(a, b), k);
    DivModUnique(Pow2(k) + Xor(a, b), Pow2(k), 1, Xor(a, b));
    XorCancels(a, b);
  }

  lemma XorNext(a: nat, b: nat)
    ensures Xor(a, b) == (if a % 2 != b % 2 then 1 else 0) + 2 * Xor(a / 2, b / 2)
  {
  }

  /** The exclusive or of two base-4 digits, written out. */
  function Pair(x: nat, y: nat): nat {
    if x == y then 0 else if x == 0 then y else if y == 0 then x else if x + y <= 6 then 6 - x - y else 0
  }

  lemma XorOfPair(x: nat, y: nat)
    requires x < 4 && y < 4
    ensures Xor(x, y) == Pair(x, y)
  {
    assert Xor(0, 0) == 0;
    XorNext(x, y);
    XorNext(x / 2, y / 2);
  }

  /** A byte as four base-4 digits, the highest first. */
  datatype Quad = Quad(a: nat, b: nat, c: nat, d: nat) {
    predicate Valid() {
      a < 4 && b < 4 && c < 4 && d < 4
    }

    function Value(): nat {
      64 * a + 16 * b + 4 * c + d
    }
  }

  function XorOfQuads(p: Quad, q: Quad): Quad {
    Quad(Pair(p.a, q.a), Pair(p.b, q.b), Pair(p.c, q.c), Pair(p.d, q.d))
  }

  lemma XorFour(low: nat, high: nat, b: nat, c: nat)
    requires low < 4 && b < 4
    ensures Xor(low + 4 * high, b + 4 * c) == Pair(low, b) + 4 * Xor(high, c)
  {
    assert Pow2(2) == 4;
    XorOfPair(low, b);
    hide Xor, Pow2, Pair;
    XorSplit(low, high, b, c, 2);
  }

  lemma XorQuads(p: Quad, q: Quad)
    requires p.Valid() && q.Valid()
    ensures Xor(p.Value(), q.Value()) == XorOfQuads(p, q).Value()
  {
    hide Xor, Pair;
    XorFour(p.d, 16 * p.a + 4 * p.b + p.c, q.d, 16 * q.a + 4 * q.b + q.c);
    XorFour(p.c, 4 * p.a + p.b, q.c, 4 * q.a + q.b);
    XorFour(p.b, p.a, q.b, q.a);
    XorOfPair(p.a, q.a);
  }
}
