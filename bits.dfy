/** The bits of an unsigned integer, as `wait_for_event` uses them on its
    `u64` result: bit `i` is the `i`-th binary digit, `1 << i` is the power
    of two, and `|` is the bitwise or, all defined on mathematical
    integers by halving. */
module Bits {

  /** `1 << n`. */
  function Pow2(n: nat): (p: nat)
    ensures p >= 1
  {
    if n == 0 then 1 else 2 * Pow2(n - 1)
  }

  /** Powers of two grow with the exponent; `2^64` bounds a `u64`. */
  lemma {:induction false} Pow2Monotone(a: nat, b: nat)
    requires a <= b
    ensures Pow2(a) <= Pow2(b)
    ensures b == 64 ==> Pow2(b) == 0x1_0000_0000_0000_0000
    decreases b - a
  {
    if a < b {
      Pow2Monotone(a + 1, b);
    }
    if b == 64 {
      assert Pow2(8) == 0x100;
      Pow2Add(8, 8);
      Pow2Add(16, 16);
      Pow2Add(32, 32);
    }
  }

  lemma {:induction false} Pow2Add(a: nat, b: nat)
    ensures Pow2(a + b) == Pow2(a) * Pow2(b)
  {
    if a > 0 {
      Pow2Add(a - 1, b);
      assert Pow2(a + b) == 2 * Pow2(a - 1 + b);
    }
  }

  /** Bit `i` of `b` is set. */
  predicate Bit(b: nat, i: nat) {
    if i == 0 then b % 2 == 1 else Bit(b / 2, i - 1)
  }

  /** Bitwise or, digit by digit. */
  function Or(a: nat, b: nat): nat
    decreases a + b
  {
    if a == 0 then b
    else if b == 0 then a
    else (if a % 2 == 1 || b % 2 == 1 then 1 else 0) + 2 * Or(a / 2, b / 2)
  }

  /** Zero has no bit set. */
  lemma {:induction false} ZeroHasNoBits(i: nat)
    ensures !Bit(0, i)
  {
    if i > 0 {
      ZeroHasNoBits(i - 1);
    }
  }

  /** `Or` is the bitwise or: a bit is set in `Or(a, b)` exactly when it is
      set in `a` or in `b`. */
  lemma {:induction false} OrBits(a: nat, b: nat, i: nat)
    ensures Bit(Or(a, b), i) <==> Bit(a, i) || Bit(b, i)
    decreases i
  {
    if a == 0 {
      ZeroHasNoBits(i);
    } else if b == 0 {
      ZeroHasNoBits(i);
    } else if i > 0 {
      var low := if a % 2 == 1 || b % 2 == 1 then 1 else 0;
      assert (low + 2 * Or(a / 2, b / 2)) / 2 == Or(a / 2, b / 2);
      OrBits(a / 2, b / 2, i - 1);
    }
  }

  /** `1 << n` has bit `n` set and no other. */
  lemma {:induction false} Pow2Bits(n: nat, i: nat)
    ensures Bit(Pow2(n), i) <==> i == n
  {
    if n == 0 {
      if i > 0 {
        ZeroHasNoBits(i - 1);
      }
    } else if i > 0 {
      Pow2Bits(n - 1, i - 1);
    }
  }

  /** Or-ing numbers below `2^k` stays below `2^k`, so a `u64` stays a `u64`. */
  lemma {:induction false} OrBelow(a: nat, b: nat, k: nat)
    requires a < Pow2(k) && b < Pow2(k)
    ensures Or(a, b) < Pow2(k)
    decreases k
  {
    if a != 0 && b != 0 {
      if k == 0 {
        assert false;
      } else {
        OrBelow(a / 2, b / 2, k - 1);
      }
    }
  }

  /** A number is determined by its bits. */
  lemma {:induction false} BitsDetermine(a: nat, b: nat)
    requires forall j: nat :: Bit(a, j) <==> Bit(b, j)
    ensures a == b
    decreases a + b
  {
    assert Bit(a, 0) <==> Bit(b, 0);
    if a != 0 || b != 0 {
      forall j: nat
        ensures Bit(a / 2, j) <==> Bit(b / 2, j)
      {
        assert Bit(a, j + 1) <==> Bit(b, j + 1);
      }
      BitsDetermine(a / 2, b / 2);
    }
  }

  /** A number is zero exactly when none of its bits is set. */
  lemma {:induction false} NonZeroHasBit(b: nat)
    requires b != 0
    ensures exists j: nat :: Bit(b, j)
    decreases b
  {
    if b % 2 == 0 {
      NonZeroHasBit(b / 2);
      var j: nat :| Bit(b / 2, j);
      assert Bit(b, j + 1);
    } else {
      assert Bit(b, 0);
    }
  }
}
