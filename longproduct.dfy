/**
 * The `(long)` product of two ints and its `(int)` cast, as the
 * multiply instruction computes it.
 */
module LongProduct {

  /** The upper half of a 64-bit word: all ones after widening a negative int. */
  const UpperHalf: bv64 := 0xFFFF_FFFF_0000_0000

  /** Java's `(long) x` on an int: sign extension from 32 to 64 bits. */
  function Widen(x: bv32): bv64 {
    if x & 0x8000_0000 != 0 then (x as bv64) | UpperHalf else x as bv64
  }

  /** Java's `(int) y` on a long: the low 32 bits. */
  function Narrow(y: bv64): bv32 {
    (y & 0xFFFF_FFFF) as bv32
  }

  /**
   * Java's `(int) ((long) a * (long) b)`: the low 32 bits of the product of
   * the widened operands. The body is `Narrow(Widen(a) * Widen(b))` with
   * both casts written out for each sign combination of the operands; in
   * that form the verifier can show that the detour through `long` neither
   * faults nor changes the result, which is the wrapping 32-bit product.
   */
  function LongProductLow(a: bv32, b: bv32): (r: bv32)
    ensures r == a * b
  {
    if a & 0x8000_0000 != 0 && b & 0x8000_0000 != 0 then
      ((((a as bv64) | 0xFFFF_FFFF_0000_0000) * ((b as bv64) | 0xFFFF_FFFF_0000_0000)) & 0xFFFF_FFFF) as bv32
    else if a & 0x8000_0000 != 0 then
      ((((a as bv64) | 0xFFFF_FFFF_0000_0000) * (b as bv64)) & 0xFFFF_FFFF) as bv32
    else if b & 0x8000_0000 != 0 then
      (((a as bv64) * ((b as bv64) | 0xFFFF_FFFF_0000_0000)) & 0xFFFF_FFFF) as bv32
    else
      (((a as bv64) * (b as bv64)) & 0xFFFF_FFFF) as bv32
  }

  /** Widening then narrowing gives the int back. */
  lemma NarrowWiden(x: bv32)
    ensures Narrow(Widen(x)) == x
  {
    if x & 0x8000_0000 != 0 {
      assert Widen(x) == (x as bv64) | UpperHalf;
    } else {
      assert Widen(x) == x as bv64;
    }
  }

  /** The widened value of a negative int is its pattern with an all-ones upper half. */
  lemma WidenNegative(x: bv32)
    requires x & 0x8000_0000 != 0
    ensures Widen(x) & UpperHalf == UpperHalf
  {
    assert Widen(x) == (x as bv64) | UpperHalf;
  }

  /** The widened value of a non-negative int has an all-zero upper half. */
  lemma WidenNonNegative(x: bv32)
    requires x & 0x8000_0000 == 0
    ensures Widen(x) & UpperHalf == 0
  {
    assert Widen(x) == x as bv64;
  }

  /** 65536 * 65536 = 2^32: the long product is exact, and its low 32 bits are all zero. */
  lemma LongProductLowExample()
    ensures Widen(65536) * Widen(65536) == 0x1_0000_0000
    ensures LongProductLow(65536, 65536) == 0
  {
  }
}
