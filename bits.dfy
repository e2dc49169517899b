/**
 * Machine words as natural numbers, and the C bit operators the drivers use on them.
 *
 * Unsigned registers and variables are modelled as bounded naturals (a `u16` is below
 * 2^16, a `u32` below 2^32), and `|`, `& ~` and `~` are defined bit by bit, least
 * significant bit first. The lemmas give each operator its meaning bit by bit and
 * connect it to arithmetic where the drivers rely on that.
 */
module Bits {
  const U8_LIMIT: nat := 0x100
  const U16_LIMIT: nat := 0x1_0000
  const U32_LIMIT: nat := 0x1_0000_0000

  type u8 = x: int | 0 <= x < U8_LIMIT
  type u16 = x: int | 0 <= x < U16_LIMIT
  type u32 = x: int | 0 <= x < U32_LIMIT

  /** 2 to the power n: the value of C's `1 << n`. */
  function Pow2(n: nat): (p: nat)
    ensures p >= 1
  {
    if n == 0 then 1 else 2 * Pow2(n - 1)
  }

  /** Whether bit k of x (bit 0 is the least significant) is set. */
  predicate Bit(x: nat, k: nat)
  {
    if k == 0 then x % 2 == 1 else Bit(x / 2, k - 1)
  }

  /** C's `a | b` on unsigned operands. */
  function Or(a: nat, b: nat): nat
    decreases a + b
  {
    if a == 0 && b == 0 then 0
    else 2 * Or(a / 2, b / 2) + (if a % 2 == 1 || b % 2 == 1 then 1 else 0)
  }

  /** C's `a & ~b` on unsigned operands: the bits of a that are clear in b. */
  function AndNot(a: nat, b: nat): nat
    decreases a
  {
    if a == 0 then 0
    else 2 * AndNot(a / 2, b / 2) + (if a % 2 == 1 && b % 2 == 0 then 1 else 0)
  }

  /** C's `~x` on an unsigned operand n bits wide. */
  function Not(x: nat, n: nat): nat
  {
    if n == 0 then 0 else 2 * Not(x / 2, n - 1) + (1 - x % 2)
  }

  lemma {:induction false} ZeroHasNoBits(k: nat)
    ensures !Bit(0, k)
  {
    if k > 0 {
      ZeroHasNoBits(k - 1);
    }
  }

  lemma {:induction false} OrBit(a: nat, b: nat, k: nat)
    ensures Bit(Or(a, b), k) <==> Bit(a, k) || Bit(b, k)
  {
    if a == 0 && b == 0 {
      ZeroHasNoBits(k);
    } else {
      var low := if a % 2 == 1 || b % 2 == 1 then 1 else 0;
      var o := Or(a, b);
      assert o == 2 * Or(a / 2, b / 2) + low;
      assert o % 2 == low && o / 2 == Or(a / 2, b / 2);
      if k > 0 {
        OrBit(a / 2, b / 2, k - 1);
      }
    }
  }

  lemma {:induction false} AndNotBit(a: nat, b: nat, k: nat)
    ensures Bit(AndNot(a, b), k) <==> Bit(a, k) && !Bit(b, k)
  {
    if a == 0 {
      ZeroHasNoBits(k);
    } else if k > 0 {
      AndNotBit(a / 2, b / 2, k - 1);
    }
  }

  /** `1 << n` has bit n set and no other. */
  lemma {:induction false} Pow2Bit(n: nat, k: nat)
    ensures Bit(Pow2(n), k) <==> k == n
  {
    if n == 0 {
      if k > 0 {
        ZeroHasNoBits(k - 1);
      }
    } else if k > 0 {
      Pow2Bit(n - 1, k - 1);
    }
  }

  lemma OrBits(a: nat, b: nat)
    ensures forall k: nat :: Bit(Or(a, b), k) <==> Bit(a, k) || Bit(b, k)
  {
    forall k: nat {
      OrBit(a, b, k);
    }
  }

  lemma AndNotBits(a: nat, b: nat)
    ensures forall k: nat :: Bit(AndNot(a, b), k) <==> Bit(a, k) && !Bit(b, k)
  {
    forall k: nat {
      AndNotBit(a, b, k);
    }
  }

  lemma Pow2Bits(n: nat)
    ensures forall k: nat :: Bit(Pow2(n), k) <==> k == n
  {
    forall k: nat {
      Pow2Bit(n, k);
    }
  }

  lemma {:induction false} Pow2Add(a: nat, b: nat)
    ensures Pow2(a + b) == Pow2(a) * Pow2(b)
  {
    if a > 0 {
      Pow2Add(a - 1, b);
    }
  }

  /** The word sizes the drivers use, as powers of two. */
  lemma WordSizes()
    ensures Pow2(16) == U16_LIMIT && Pow2(32) == U32_LIMIT
  {
    assert Pow2(2) == 4;
    Pow2Add(2, 2);
    Pow2Add(4, 4);
    Pow2Add(8, 8);
    Pow2Add(16, 16);
  }

  /** A number is determined by its bits. */
  lemma {:induction false} BitsDetermine(a: nat, b: nat)
    requires forall k :: Bit(a, k) == Bit(b, k)
    ensures a == b
    decreases a + b
  {
    assert Bit(a, 0) == Bit(b, 0);
    if a != 0 || b != 0 {
      forall k: nat ensures Bit(a / 2, k) == Bit(b / 2, k) {
        assert Bit(a, k + 1) == Bit(b, k + 1);
      }
      BitsDetermine(a / 2, b / 2);
    }
  }

  /** A number below 2^n has no bit at or above n. */
  lemma {:induction false} BitsBelowBound(x: nat, n: nat, k: nat)
    requires x < Pow2(n) && k >= n
    ensures !Bit(x, k)
  {
    if n == 0 {
      ZeroHasNoBits(k);
    } else {
      BitsBelowBound(x / 2, n - 1, k - 1);
    }
  }

  /** So a set bit of a number below 2^n lies below n. */
  lemma SetBitBelowBound(x: nat, n: nat, k: nat)
    requires x < Pow2(n) && Bit(x, k)
    ensures k < n
  {
    if k >= n {
      BitsBelowBound(x, n, k);
    }
  }

  lemma {:induction false} Pow2Monotone(a: nat, b: nat)
    requires a < b
    ensures Pow2(a) < Pow2(b)
    decreases b
  {
    if a < b - 1 {
      Pow2Monotone(a, b - 1);
    }
  }

  lemma {:induction false} OrBound(a: nat, b: nat, n: nat)
    requires a < Pow2(n) && b < Pow2(n)
    ensures Or(a, b) < Pow2(n)
  {
    if n > 0 && (a != 0 || b != 0) {
      OrBound(a / 2, b / 2, n - 1);
    }
  }

  lemma {:induction false} AndNotBound(a: nat, b: nat)
    ensures AndNot(a, b) <= a
  {
    if a != 0 {
      AndNotBound(a / 2, b / 2);
    }
  }

  /** Complementing n bits is subtracting from 2^n - 1. */
  lemma {:induction false} NotIsSubtraction(x: nat, n: nat)
    requires x < Pow2(n)
    ensures Not(x, n) == Pow2(n) - 1 - x
  {
    if n > 0 {
      NotIsSubtraction(x / 2, n - 1);
    }
  }

  lemma {:induction false} OrZero(a: nat)
    ensures Or(a, 0) == a
  {
    if a != 0 {
      OrZero(a / 2);
    }
  }

  /** `(a << n) | b` is `a * 2^n + b` when b fits in n bits. */
  lemma {:induction false} OrShifted(a: nat, b: nat, n: nat)
    requires b < Pow2(n)
    ensures Or(a * Pow2(n), b) == a * Pow2(n) + b
  {
    if n == 0 {
      OrZero(a);
    } else {
      var half := a * Pow2(n - 1);
      assert a * Pow2(n) == 2 * half;
      OrShifted(a, b / 2, n - 1);
      assert Or(2 * half, b) == 2 * Or(half, b / 2) + b % 2;
    }
  }

  /** The index of the lowest set bit of x: the kernel's `__ffs(x)`. */
  function LowestSetBit(x: nat): (k: nat)
    requires x > 0
    ensures Bit(x, k)
    ensures forall j: nat :: j < k ==> !Bit(x, j)
    ensures Pow2(k) <= x
    decreases x
  {
    if x % 2 == 1 then 0 else 1 + LowestSetBit(x / 2)
  }
}
