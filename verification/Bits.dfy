/** Unsigned machine arithmetic on natural numbers.  A word of n bits is a natural number below Pow2(n);
    shifts are multiplication and division by a power of two, and the bitwise operators are defined bit by bit. */
module Bits {
  type U8 = x: nat | x < 0x100
  type U16 = x: nat | x < 0x1_0000
  type U32 = x: nat | x < 0x1_0000_0000
  type U64 = x: nat | x < 0x1_0000_0000_0000_0000

  function Pow2(n: nat): (p: nat)
    ensures p > 0
  {
    if n == 0 then 1 else 2 * Pow2(n - 1)
  }

  /** Whether bit i of a is set. */
  predicate Bit(a: nat, i: nat) {
    if i == 0 then a % 2 == 1 else Bit(a / 2, i - 1)
  }

  function Or(a: nat, b: nat): nat {
    if a == 0 && b == 0 then 0 else 2 * Or(a / 2, b / 2) + (if a % 2 == 1 || b % 2 == 1 then 1 else 0)
  }

  function And(a: nat, b: nat): nat {
    if a == 0 && b == 0 then 0 else 2 * And(a / 2, b / 2) + (if a % 2 == 1 && b % 2 == 1 then 1 else 0)
  }

  /** ~a, truncated to n bits. */
  function Not(n: nat, a: nat): (r: nat)
    requires a < Pow2(n)
    ensures r < Pow2(n)
  {
    Pow2(n) - 1 - a
  }

  lemma {:induction false} ZeroBit(i: nat)
    ensures !Bit(0, i)
  {
    if i > 0 { ZeroBit(i - 1); }
  }

  lemma OrParts(a: nat, b: nat)
    ensures Or(a, b) / 2 == Or(a / 2, b / 2) && (Or(a, b) % 2 == 1 <==> a % 2 == 1 || b % 2 == 1)
  {
  }

  lemma {:induction false} OrBit(a: nat, b: nat, i: nat)
    ensures Bit(Or(a, b), i) == (Bit(a, i) || Bit(b, i))
    decreases i
  {
    OrParts(a, b);
    hide Or;
    if i > 0 { OrBit(a / 2, b / 2, i - 1); }
  }

  lemma AndParts(a: nat, b: nat)
    ensures And(a, b) / 2 == And(a / 2, b / 2) && (And(a, b) % 2 == 1 <==> a % 2 == 1 && b % 2 == 1)
  {
  }

  lemma {:induction false} AndBit(a: nat, b: nat, i: nat)
    ensures Bit(And(a, b), i) == (Bit(a, i) && Bit(b, i))
    decreases i
  {
    AndParts(a, b);
    hide And;
    if i > 0 { AndBit(a / 2, b / 2, i - 1); }
  }

  lemma {:induction false} NotBit(n: nat, a: nat, i: nat)
    requires a < Pow2(n) && i < n
    ensures Bit(Not(n, a), i) == !Bit(a, i)
    decreases n
  {
    var m := Not(n, a);
    assert m == 2 * (Pow2(n - 1) - 1 - a / 2) + (1 - a % 2);
    if i > 0 {
      NotBit(n - 1, a / 2, i - 1);
      assert m / 2 == Not(n - 1, a / 2);
    }
  }

  lemma {:induction false} Pow2Bit(n: nat, i: nat)
    ensures Bit(Pow2(n), i) == (i == n)
  {
    if n == 0 {
      if i > 0 { ZeroBit(i - 1); }
    } else {
      assert Pow2(n) / 2 == Pow2(n - 1);
      if i > 0 { Pow2Bit(n - 1, i - 1); }
    }
  }

  /** A number below Pow2(n) has no bit at or above n, and conversely. */
  lemma {:induction false} HighBits(n: nat, a: nat, i: nat)
    requires a < Pow2(n) && n <= i
    ensures !Bit(a, i)
  {
    if n == 0 { ZeroBit(i); } else { HighBits(n - 1, a / 2, i - 1); }
  }

  lemma {:induction false} OrBound(n: nat, a: nat, b: nat)
    requires a < Pow2(n) && b < Pow2(n)
    ensures Or(a, b) < Pow2(n)
  {
    if n > 0 { OrBound(n - 1, a / 2, b / 2); }
  }

  lemma {:induction false} AndBound(n: nat, a: nat, b: nat)
    requires a < Pow2(n)
    ensures And(a, b) < Pow2(n)
  {
    if a == 0 && b == 0 {
    } else if n == 0 {
      AndZero(b);
    } else { AndBound(n - 1, a / 2, b / 2); }
  }

  lemma {:induction false} AndZero(b: nat)
    ensures And(0, b) == 0 && And(b, 0) == 0
  {
    if b > 0 { AndZero(b / 2); }
  }

  lemma {:induction false} OrZero(a: nat)
    ensures Or(a, 0) == a
  {
    if a > 0 { OrZero(a / 2); }
  }

  /** a & b is zero exactly when no bit is set in both. */
  lemma {:induction false} AndIsZero(a: nat, b: nat)
    ensures And(a, b) == 0 <==> forall i: nat :: !(Bit(a, i) && Bit(b, i))
  {
    if And(a, b) == 0 {
      forall i: nat ensures !(Bit(a, i) && Bit(b, i)) { AndBit(a, b, i); ZeroBit(i); }
    } else {
      AndWitness(a, b);
    }
  }

  lemma {:induction false} AndWitness(a: nat, b: nat)
    requires And(a, b) != 0
    ensures exists i: nat :: Bit(a, i) && Bit(b, i)
    decreases a + b
  {
    if a % 2 == 1 && b % 2 == 1 {
      assert Bit(a, 0) && Bit(b, 0);
    } else {
      AndWitness(a / 2, b / 2);
      var i: nat :| Bit(a / 2, i) && Bit(b / 2, i);
      assert Bit(a, i + 1) && Bit(b, i + 1);
    }
  }

  /** OR-ing a number of at most n bits into h * 2^n + t reaches only the low n bits. */
  lemma {:induction false} OrLow(n: nat, h: nat, t: nat, u: nat)
    requires t < Pow2(n) && u < Pow2(n)
    ensures Or(h * Pow2(n) + t, u) == h * Pow2(n) + Or(t, u)
  {
    if n == 0 {
      OrZero(h);
    } else {
      var a := h * Pow2(n) + t;
      assert h * Pow2(n) == 2 * (h * Pow2(n - 1)) by { MulTwo(h, Pow2(n - 1)); }
      assert a / 2 == h * Pow2(n - 1) + t / 2 && a % 2 == t % 2;
      OrLow(n - 1, h, t / 2, u / 2);
    }
  }

  lemma MulTwo(h: nat, p: nat)
    ensures h * (2 * p) == 2 * (h * p)
  {
  }

  lemma {:induction false} Pow2Add(m: nat, n: nat)
    ensures Pow2(m + n) == Pow2(m) * Pow2(n)
  {
    if m > 0 {
      Pow2Add(m - 1, n);
      assert Pow2(m) * Pow2(n) == 2 * (Pow2(m - 1) * Pow2(n)) by { MulTwo(Pow2(n), Pow2(m - 1)); }
    }
  }

  lemma WordSizes()
    ensures Pow2(6) == 64 && Pow2(8) == 0x100 && Pow2(16) == 0x1_0000 && Pow2(32) == 0x1_0000_0000
    ensures Pow2(58) == 0x400_0000_0000_0000 && Pow2(64) == 0x1_0000_0000_0000_0000
  {
    assert Pow2(2) == 4;
    assert Pow2(4) == 16 by { Pow2Add(2, 2); }
    Pow2Add(4, 2);
    Pow2Add(4, 4);
    Pow2Add(8, 8);
    Pow2Add(16, 16);
    Pow2Add(32, 32);
    Pow2Add(58, 6);
  }

  lemma MulMono(x: nat, y: nat, b: nat)
    requires x <= y
    ensures x * b <= y * b
  {
  }
}
