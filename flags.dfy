/**
 * Status flags packed into the bits of a general-purpose register. A
 * flag is not a separate register: an instruction sets it with a
 * read-modify-write OR on the same 32-bit word that arithmetic uses.
 */
module Flags {

  /** Bit 0: the character wears a daylight ring. */
  const DaylightRingFlag: bv32 := 1
  /** Bit 1: the character is protected by vervain. */
  const VervainFlag: bv32 := 2
  /** Bit 2: the character is compelled. */
  const CompelledFlag: bv32 := 4
  /** Bit 8: the character has been killed. */
  const KilledFlag: bv32 := 256

  /** Whether every bit of `flag` is set in `v`. */
  predicate HasFlag(v: bv32, flag: bv32) {
    v & flag == flag
  }

  /**
   * The read-modify-write `v | flag`: every bit of `flag` ends up set and
   * every other bit keeps its value.
   */
  function SetFlag(v: bv32, flag: bv32): (r: bv32)
    ensures r & flag == flag
    ensures r & !flag == v & !flag
  {
    v | flag
  }

  /** After `SetFlag` the flag reads as set. */
  lemma SetFlagHasFlag(v: bv32, flag: bv32)
    ensures HasFlag(SetFlag(v, flag), flag)
  {
  }

  /** Setting a flag twice is the same as setting it once. */
  lemma SetFlagIdempotent(v: bv32, flag: bv32)
    ensures SetFlag(SetFlag(v, flag), flag) == SetFlag(v, flag)
  {
  }

  /** Setting a flag that is already set leaves the word as it was. */
  lemma SetFlagWhenSet(v: bv32, flag: bv32)
    requires HasFlag(v, flag)
    ensures SetFlag(v, flag) == v
  {
  }

  /** Setting one flag does not change whether a different, disjoint flag is set. */
  lemma SetFlagKeepsOtherFlag(v: bv32, flag: bv32, other: bv32)
    requires flag & other == 0
    ensures HasFlag(SetFlag(v, flag), other) == HasFlag(v, other)
  {
  }

  /** Putting on the daylight ring keeps the vervain, compelled and killed flags as they were. */
  lemma DaylightRingKeepsOtherFlags(v: bv32)
    ensures HasFlag(SetFlag(v, DaylightRingFlag), VervainFlag) == HasFlag(v, VervainFlag)
    ensures HasFlag(SetFlag(v, DaylightRingFlag), CompelledFlag) == HasFlag(v, CompelledFlag)
    ensures HasFlag(SetFlag(v, DaylightRingFlag), KilledFlag) == HasFlag(v, KilledFlag)
  {
    SetFlagKeepsOtherFlag(v, DaylightRingFlag, VervainFlag);
    SetFlagKeepsOtherFlag(v, DaylightRingFlag, CompelledFlag);
    SetFlagKeepsOtherFlag(v, DaylightRingFlag, KilledFlag);
  }

  /** Taking vervain keeps the daylight ring, compelled and killed flags as they were. */
  lemma VervainRingKeepsOtherFlags(v: bv32)
    ensures HasFlag(SetFlag(v, VervainFlag), DaylightRingFlag) == HasFlag(v, DaylightRingFlag)
    ensures HasFlag(SetFlag(v, VervainFlag), CompelledFlag) == HasFlag(v, CompelledFlag)
    ensures HasFlag(SetFlag(v, VervainFlag), KilledFlag) == HasFlag(v, KilledFlag)
  {
    SetFlagKeepsOtherFlag(v, VervainFlag, DaylightRingFlag);
    SetFlagKeepsOtherFlag(v, VervainFlag, CompelledFlag);
    SetFlagKeepsOtherFlag(v, VervainFlag, KilledFlag);
  }

  /** Marking a register compelled keeps the daylight ring, vervain and killed flags as they were. */
  lemma CompelledKeepsOtherFlags(v: bv32)
    ensures HasFlag(SetFlag(v, CompelledFlag), DaylightRingFlag) == HasFlag(v, DaylightRingFlag)
    ensures HasFlag(SetFlag(v, CompelledFlag), VervainFlag) == HasFlag(v, VervainFlag)
    ensures HasFlag(SetFlag(v, CompelledFlag), KilledFlag) == HasFlag(v, KilledFlag)
  {
    SetFlagKeepsOtherFlag(v, CompelledFlag, DaylightRingFlag);
    SetFlagKeepsOtherFlag(v, CompelledFlag, VervainFlag);
    SetFlagKeepsOtherFlag(v, CompelledFlag, KilledFlag);
  }

  /** Staking keeps the daylight ring, vervain and compelled flags as they were. */
  lemma StakeKeepsOtherFlags(v: bv32)
    ensures HasFlag(SetFlag(v, KilledFlag), DaylightRingFlag) == HasFlag(v, DaylightRingFlag)
    ensures HasFlag(SetFlag(v, KilledFlag), VervainFlag) == HasFlag(v, VervainFlag)
    ensures HasFlag(SetFlag(v, KilledFlag), CompelledFlag) == HasFlag(v, CompelledFlag)
  {
    SetFlagKeepsOtherFlag(v, KilledFlag, DaylightRingFlag);
    SetFlagKeepsOtherFlag(v, KilledFlag, VervainFlag);
    SetFlagKeepsOtherFlag(v, KilledFlag, CompelledFlag);
  }
}
