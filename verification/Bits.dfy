/** Bitwise operations on natural numbers and powers of two. */
module Bits {

  type byte = x: int | 0 <= x < 256

  type Bytes = seq<byte>

  function Pow2(k: nat): (p: nat)
    ensures p >= 1
  {
    if k == 0 then 1 else 2 * Pow2(k - 1)
  }

  function Or(a: nat, b: nat): nat {
    if a == 0 && b == 0 then 0
    else 2 * Or(a / 2, b / 2) + (if a % 2 == 1 || b % 2 == 1 then 1 else 0)
  }

  function Xor(a: nat, b: nat): nat {
    if a == 0 && b == 0 then 0
    else 2 * Xor(a / 2, b / 2) + (if a % 2 != b % 2 then 1 else 0)
  }

  lemma {:induction false} OrWithZero(a: nat)
    ensures Or(a, 0) == a && Or(0, a) == a
  {
    if a != 0 {
      OrWithZero(a / 2);
    }
  }

  /** Or-ing in a value shifted past the bits in use adds it. */
  lemma {:induction false} OrShiftedIsSum(value: nat, x: nat, shift: nat)
    requires value < Pow2(shift)
    ensures Or(value, x * Pow2(shift)) == value + x * Pow2(shift)
  {
    if shift == 0 {
      OrWithZero(x);
    } else {
      var high := x * Pow2(shift - 1);
      assert x * Pow2(shift) == 2 * high;
      OrShiftedIsSum(value / 2, x, shift - 1);
      if value != 0 || high != 0 {
        assert (2 * high) / 2 == high && (2 * high) % 2 == 0;
      }
    }
  }

  /** Xor with a fixed value loses nothing. */
  lemma {:induction false} XorInvolutive(a: nat, b: nat)
    ensures Xor(Xor(a, b), b) == a
  {
    if a != 0 || b != 0 {
      XorInvolutive(a / 2, b / 2);
    }
  }

  /** Xor of two values below a power of two stays below it. */
  lemma {:induction false} XorBound(a: nat, b: nat, k: nat)
    requires a < Pow2(k) && b < Pow2(k)
    ensures Xor(a, b) < Pow2(k)
  {
    if k != 0 {
      XorBound(a / 2, b / 2, k - 1);
    }
  }

  lemma {:induction false} Pow2Adds(j: nat, k: nat)
    ensures Pow2(j + k) == Pow2(j) * Pow2(k)
  {
    if j != 0 {
      Pow2Adds(j - 1, k);
    }
  }

  lemma Pow2Plus7(k: nat)
    ensures Pow2(k + 7) == 128 * Pow2(k)
  {
    assert Pow2(k + 7) == 4 * Pow2(k + 5);
    assert Pow2(k + 5) == 4 * Pow2(k + 3);
    assert Pow2(k + 3) == 2 * Pow2(k + 2);
    assert Pow2(k + 2) == 4 * Pow2(k);
  }

  lemma MulAtMost(x: nat, bound: nat, p: nat)
    requires x <= bound
    ensures x * p <= bound * p
  {
  }
}
