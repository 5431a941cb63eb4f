/** Shared constants and word-level conventions of the ML-DSA reference
    polynomial code (FIPS 204): the degree N, the modulus Q, the dropped
    bits D, and the bit patterns the C code computes with.

    A coefficient is an `int32_t` in the C code; here it is its 32-bit two's
    complement bit pattern, so that the casts to `uint32_t`, the wrapping
    subtractions and the shifts of the source are the bit-vector operations
    of Dafny. Ranges of signed values are stated with `SignedWithin`. */
module MlDsaParams {
  const N: nat := 256
  const Q: bv32 := 8380417
  const D: nat := 13

  type byte = bv8

  /** The low eight bits of a word, as a store into a `uint8_t` keeps them. */
  function Lo8(x: bv32): byte
  {
    (x & 0xFF) as byte
  }

  /** A byte widened to a word, as C's integer promotion does. */
  function W(b: byte): bv32
  {
    b as bv32
  }

  /** `c`, read as a signed 32-bit value, lies in [-lo, hi]; both bounds are
      below 2^31. */
  predicate SignedWithin(c: bv32, lo: bv32, hi: bv32)
    requires lo < 0x8000_0000 && hi < 0x8000_0000
  {
    c <= hi || (lo != 0 && c >= 0 - lo)
  }

  /** `c` is negative as a signed 32-bit value. */
  predicate IsNegative(c: bv32) { c >= 0x8000_0000 }

  /** Signed `<` on 32-bit patterns: flipping the sign bit turns the signed
      order into the unsigned one. */
  predicate SignedLess(x: bv32, y: bv32)
  {
    (x ^ 0x8000_0000) < (y ^ 0x8000_0000)
  }

  /** The two parameters the packing routines branch on. */
  predicate ValidEta(eta: nat) { eta == 2 || eta == 4 }

  predicate ValidGamma1(gamma1: nat) { gamma1 == 0x2_0000 || gamma1 == 0x8_0000 }

  /** Signed order agrees with the sign: a negative value is below every
      non-negative one, and among non-negative values it is the plain
      order. */
  lemma SignedLessMeaning(x: bv32, y: bv32)
    ensures IsNegative(x) && !IsNegative(y) ==> SignedLess(x, y)
    ensures !IsNegative(x) && !IsNegative(y) ==> (SignedLess(x, y) <==> x < y)
    ensures IsNegative(x) && IsNegative(y) ==> (SignedLess(x, y) <==> x < y)
  {
  }
}
