/**
 * Sign extension of a 16-bit immediate or offset field: the idiom
 * `x << 16 >> 16` that the instruction semantics apply to an operand.
 *
 * A Java `int` is modelled as its 32-bit pattern (`bv32`). Dafny's `>>`
 * on a bit-vector is the logical shift, so Java's arithmetic `>>` is
 * written out (`Sar16`). Signed readings are stated on the bits: a word
 * lies in [-32768, 32767] exactly when its top seventeen bits are equal.
 */
module SignExtension {

  /**
   * Java's arithmetic right shift `y >> 16` on an int: the bits move down
   * sixteen places and the sign bit fills the sixteen vacated top bits.
   */
  function Sar16(y: bv32): bv32 {
    if y & 0x8000_0000 != 0 then (y >> 16) | 0xFFFF_0000 else y >> 16
  }

  /** `x << 16 >> 16`, as the source writes it: shift left, then shift right arithmetically. */
  function SignExt16(x: bv32): bv32 {
    Sar16(x << 16)
  }

  /** Branch-free reference definition of 16-to-32-bit sign extension. */
  function SignExtRef(x: bv32): bv32 {
    ((x & 0xFFFF) ^ 0x8000) - 0x8000
  }

  /** A word whose signed value lies in [-32768, 32767]: its top seventeen bits are all equal. */
  predicate IsInt16(x: bv32) {
    x & 0xFFFF_8000 == 0 || x & 0xFFFF_8000 == 0xFFFF_8000
  }

  /** The shift idiom agrees with the reference sign extension on every word. */
  lemma SignExt16IsRef(x: bv32)
    ensures SignExt16(x) == SignExtRef(x)
  {
    if x & 0x8000 != 0 {
      SignExt16Negative(x);
    } else {
      SignExt16NonNegative(x);
    }
  }

  /** With bit 15 set, the left shift moves it into the sign bit, and the arithmetic shift back fills the top half with ones. */
  lemma SignExt16Negative(x: bv32)
    requires x & 0x8000 != 0
    ensures Sar16(x << 16) == SignExtRef(x)
  {
    assert (x << 16) & 0x8000_0000 != 0;
    assert Sar16(x << 16) == ((x << 16) >> 16) | 0xFFFF_0000;
  }

  /** With bit 15 clear, the round trip through the top half clears the upper sixteen bits. */
  lemma SignExt16NonNegative(x: bv32)
    requires x & 0x8000 == 0
    ensures Sar16(x << 16) == SignExtRef(x)
  {
    assert (x << 16) & 0x8000_0000 == 0;
    assert Sar16(x << 16) == (x << 16) >> 16;
  }

  /** Sign extension yields a value in [-32768, 32767]. */
  lemma SignExt16Range(x: bv32)
    ensures IsInt16(SignExt16(x))
  {
    SignExt16IsRef(x);
    assert IsInt16(SignExtRef(x));
  }

  /** Sign extension keeps the low sixteen bits of its argument. */
  lemma SignExt16LowBits(x: bv32)
    ensures SignExt16(x) & 0xFFFF == x & 0xFFFF
  {
    SignExt16IsRef(x);
    assert SignExtRef(x) & 0xFFFF == x & 0xFFFF;
  }

  /** Bit 15 of the field decides the sign: the upper half becomes all ones exactly when it is set. */
  lemma SignExt16UpperHalf(x: bv32)
    ensures SignExt16(x) & 0xFFFF_0000 == (if x & 0x8000 != 0 then 0xFFFF_0000 else 0)
  {
    SignExt16IsRef(x);
    if x & 0x8000 != 0 {
      assert SignExtRef(x) & 0xFFFF_0000 == 0xFFFF_0000;
    } else {
      assert SignExtRef(x) & 0xFFFF_0000 == 0;
    }
  }

  /** Sign extension is the identity on words already in [-32768, 32767]. */
  lemma SignExt16Identity(x: bv32)
    requires IsInt16(x)
    ensures SignExt16(x) == x
  {
    SignExt16IsRef(x);
    if x & 0xFFFF_8000 == 0 {
      assert SignExtRef(x) == x;
    } else {
      assert SignExtRef(x) == x;
    }
  }

  /** Sign extension applied twice is sign extension applied once. */
  lemma SignExt16Idempotent(x: bv32)
    ensures SignExt16(SignExt16(x)) == SignExt16(x)
  {
    SignExt16Range(x);
    SignExt16Identity(SignExt16(x));
  }
}
