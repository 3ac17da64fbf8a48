/** FNV-1a with 64-bit wrap-around, as the standard-library bundle id uses it. */
module Fingerprint {
  import opened Bits

  const OFFSET_BASIS: nat := 0xcbf29ce484222325
  const PRIME: nat := 0x100000001b3
  const MODULUS: nat := 0x1_0000_0000_0000_0000

  /** One byte: xor into the state, then multiply by the prime and wrap around. */
  function Step(state: nat, b: byte): (r: nat)
    ensures r < MODULUS
  {
    Xor(state, b) * PRIME % MODULUS
  }

  function Fnv(state: nat, stream: Bytes): nat
    decreases |stream|
  {
    if stream == [] then state else Fnv(Step(state, stream[0]), stream[1..])
  }

  lemma {:induction false} FnvAppend(state: nat, a: Bytes, b: Bytes)
    ensures Fnv(state, a + b) == Fnv(Fnv(state, a), b)
    decreases |a|
  {
    if a == [] {
      assert a + b == b;
    } else {
      assert (a + b)[1..] == a[1..] + b;
      FnvAppend(Step(state, a[0]), a[1..], b);
    }
  }

  // ----- known values -----

  /** A small value changes the low bits only. */
  lemma {:induction false} XorLowBits(base: nat, high: nat, low: nat, b: nat, k: nat)
    requires base == high * Pow2(k) && low < Pow2(k) && b < Pow2(k)
    ensures Xor(base + low, b) == base + Xor(low, b)
  {
    if k == 0 {
      XorWithZero(high);
    } else {
      var p := high * Pow2(k - 1);
      HalfOf(base, p, high, k);
      XorLowBits(p, high, low / 2, b / 2, k - 1);
      Doubled(p, low, b);
    }
  }

  lemma HalfOf(base: nat, p: nat, high: nat, k: nat)
    requires k > 0 && base == high * Pow2(k) && p == high * Pow2(k - 1)
    ensures base == 2 * p
  {
  }

  lemma {:induction false} XorWithZero(a: nat)
    ensures Xor(a, 0) == a
  {
    if a != 0 {
      XorWithZero(a / 2);
    }
  }

  lemma Doubled(p: nat, low: nat, b: nat)
    requires Xor(p + low / 2, b / 2) == p + Xor(low / 2, b / 2)
    ensures Xor(2 * p + low, b) == 2 * p + Xor(low, b)
  {
    assert (2 * p + low) / 2 == p + low / 2 && (2 * p + low) % 2 == low % 2;
  }

  lemma FirstXor()
    ensures Xor(OFFSET_BASIS, 0x61) == 0xcbf29ce484222344
  {
    EightBits();
    XorLowBits(0xcbf29ce484222300, 0xcbf29ce4842223, 0x25, 0x61, 8);
    assert Xor(0x25, 0x61) == 0x44;
  }

  lemma EightBits()
    ensures Pow2(8) == 256
  {
  }

  lemma FirstProduct()
    ensures 0xcbf29ce484222344 * PRIME % MODULUS == 0xaf63dc4c8601ec8c
  {
  }

  lemma StepIs(state: nat, b: byte, x: nat, r: nat)
    requires Xor(state, b) == x && x * PRIME % MODULUS == r
    ensures Fnv(state, [b]) == r
  {
    OneByte(state, b);
  }

  /** The published FNV-1a values of the empty text and of `a`. */
  lemma KnownValues()
    ensures Fnv(OFFSET_BASIS, []) == 0xcbf29ce484222325
    ensures Fnv(OFFSET_BASIS, [0x61]) == 0xaf63dc4c8601ec8c
  {
    FirstXor();
    FirstProduct();
    StepIs(OFFSET_BASIS, 0x61, 0xcbf29ce484222344, 0xaf63dc4c8601ec8c);
  }

  lemma OneByte(state: nat, b: byte)
    ensures Fnv(state, [b]) == Step(state, b)
  {
    assert [b][1..] == [];
  }

  // ----- each step is injective -----

  const INVERSE: nat := 0xce965057aff6957b
  const QUOTIENT: nat := 887285111055

  lemma PrimeIsInvertible()
    ensures PRIME * INVERSE == 1 + QUOTIENT * MODULUS
  {
  }

  lemma MulByPrimeIsInjective(x: nat, y: nat)
    requires x < MODULUS && y < MODULUS
    requires x * PRIME % MODULUS == y * PRIME % MODULUS
    ensures x == y
  {
    var d, k := x - y, x * PRIME / MODULUS - y * PRIME / MODULUS;
    assert d * PRIME == k * MODULUS;
    PrimeIsInvertible();
    InverseCancels(d, k, PRIME, INVERSE, QUOTIENT, MODULUS);
  }

  /** `d p = k m` and `p v = 1 + q m` put `d` at a multiple of `m`. */
  lemma InverseCancels(d: int, k: int, p: int, v: int, q: int, m: int)
    requires d * p == k * m && p * v == 1 + q * m && -m < d < m
    ensures d == 0
  {
    var t := k * v - d * q;
    calc {
      d * (p * v);
      (d * p) * v;
      (k * m) * v;
    }
    assert d * (1 + q * m) == d + (d * q) * m;
    assert (k * m) * v == (k * v) * m;
    assert d == t * m;
    SmallMultiple(t, m);
  }

  lemma SmallMultiple(t: int, m: int)
    requires -m < t * m < m
    ensures t == 0
  {
    assert t >= 1 ==> t * m >= m;
    assert t <= -1 ==> t * m <= -m;
  }

  lemma XorIsInjective(x: nat, y: nat, b: nat)
    requires Xor(x, b) == Xor(y, b)
    ensures x == y
  {
    XorInvolutive(x, b);
    XorInvolutive(y, b);
  }

  lemma {:induction false} XorCommutes(a: nat, b: nat)
    ensures Xor(a, b) == Xor(b, a)
  {
    if a != 0 || b != 0 {
      XorCommutes(a / 2, b / 2);
    }
  }

  lemma WordSize()
    ensures Pow2(64) == MODULUS
  {
    assert Pow2(8) == 256;
    Pow2Adds(8, 8);
    Pow2Adds(16, 16);
    Pow2Adds(32, 32);
  }

  lemma XorFits(state: nat, b: byte)
    requires state < MODULUS
    ensures Xor(state, b) < MODULUS
  {
    WordSize();
    XorBound(state, b, 64);
  }

  lemma StepIsInjective(x: nat, y: nat, b: byte)
    requires x < MODULUS && y < MODULUS && x != y
    ensures Step(x, b) != Step(y, b)
  {
    XorFits(x, b);
    XorFits(y, b);
    if Step(x, b) == Step(y, b) {
      MulByPrimeIsInjective(Xor(x, b), Xor(y, b));
      XorIsInjective(x, y, b);
    }
  }

  lemma StepSeparatesBytes(state: nat, b: byte, c: byte)
    requires state < MODULUS && b != c
    ensures Step(state, b) != Step(state, c)
  {
    XorFits(state, b);
    XorFits(state, c);
    if Step(state, b) == Step(state, c) {
      MulByPrimeIsInjective(Xor(state, b), Xor(state, c));
      XorCommutes(state, b);
      XorCommutes(state, c);
      XorIsInjective(b, c, state);
    }
  }

  /** Different states stay different while the same bytes go in. */
  lemma {:induction false} FnvKeepsApart(x: nat, y: nat, stream: Bytes)
    requires x < MODULUS && y < MODULUS && x != y
    ensures Fnv(x, stream) != Fnv(y, stream)
    decreases |stream|
  {
    if stream != [] {
      StepIsInjective(x, y, stream[0]);
      FnvKeepsApart(Step(x, stream[0]), Step(y, stream[0]), stream[1..]);
    }
  }

  lemma {:induction false} FnvFits(state: nat, stream: Bytes)
    requires state < MODULUS
    ensures Fnv(state, stream) < MODULUS
    decreases |stream|
  {
    if stream != [] {
      FnvFits(Step(state, stream[0]), stream[1..]);
    }
  }

  /** Two streams that differ in exactly one byte have different fingerprints. */
  lemma OneByteShows(stream: Bytes, i: nat, b: byte)
    requires i < |stream| && stream[i] != b
    ensures Fnv(OFFSET_BASIS, stream) != Fnv(OFFSET_BASIS, stream[i := b])
  {
    var before, after := stream[..i], stream[i + 1..];
    var state := Fnv(OFFSET_BASIS, before);
    FnvFits(OFFSET_BASIS, before);
    ChangedAt(stream, i, stream[i]);
    ChangedAt(stream, i, b);
    assert stream[i := stream[i]] == stream;
    StepSeparatesBytes(state, stream[i], b);
    FnvKeepsApart(Step(state, stream[i]), Step(state, b), after);
  }

  lemma ChangedAt(stream: Bytes, i: nat, b: byte)
    requires i < |stream|
    ensures Fnv(OFFSET_BASIS, stream[i := b])
         == Fnv(Step(Fnv(OFFSET_BASIS, stream[..i]), b), stream[i + 1..])
  {
    var before, after := stream[..i], stream[i + 1..];
    assert stream[i := b] == before + ([b] + after);
    FnvAppend(OFFSET_BASIS, before, [b] + after);
    assert ([b] + after)[1..] == after;
  }
}
