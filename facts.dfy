/**
 * Properties of the values the instructions compute, and of how the
 * instructions interact: feed and drain undo each other, the daylight
 * ring protects against daytime, the vervain ring protects against
 * compulsion (as described), grimoire never leaves a negative health.
 */
module InstructionFacts {
  import opened SignExtension
  import opened LongProduct
  import opened Flags
  import opened Simulator

  /** drain undoes feed: (a + b) - b == a, wrapping included. */
  lemma DrainUndoesFeed(a: bv32, b: bv32)
    ensures Difference(Sum(a, b), b) == a
  {
    assert Sum(a, b) == a + b;
    assert Difference(a + b, b) == (a + b) - b;
  }

  /** feed undoes drain: (a - b) + b == a, wrapping included. */
  lemma FeedUndoesDrain(a: bv32, b: bv32)
    ensures Sum(Difference(a, b), b) == a
  {
    assert Difference(a, b) == a - b;
    assert Sum(a - b, b) == (a - b) + b;
  }

  /** Draining a register from itself leaves zero. */
  lemma DrainSelf(a: bv32)
    ensures Difference(a, a) == 0
  {
  }

  /** A register wearing the daylight ring comes out of daytime unchanged. */
  lemma DaylightRingProtects(v: bv32, imm: bv32)
    ensures Daytime(SetFlag(v, DaylightRingFlag), imm) == SetFlag(v, DaylightRingFlag)
  {
    assert SetFlag(v, DaylightRingFlag) & DaylightRingFlag == DaylightRingFlag;
  }

  /** Without the ring, daytime takes exactly the sign-extended immediate away: adding it back restores the value. */
  lemma DaytimeWithoutRing(v: bv32, imm: bv32)
    requires v & DaylightRingFlag == 0
    ensures Sum(Daytime(v, imm), SignExt16(imm)) == v
  {
    FeedUndoesDrain(v, SignExt16(imm));
  }

  /** With an odd immediate, daytime can leave bit 0 set: from 0 with immediate 1 the result is all ones. */
  lemma DaytimeCanSetRingBit()
    ensures Daytime(0, 1) == 0xFFFF_FFFF
    ensures HasFlag(Daytime(0, 1), DaylightRingFlag)
  {
    SignExt16Identity(1);
  }

  /** A killing spell leaves a health of zero with the killed flag set: `0 | 256`. */
  lemma GrimoireKillIsZeroHealthKilled(v: bv32, imm: bv32)
    requires GrimoireKills(v, imm)
    ensures Grimoire(v, imm) == SetFlag(0, KilledFlag)
    ensures Grimoire(v, imm) & !KilledFlag == 0
  {
  }

  /** A spell that does not kill leaves exactly the health minus the sign-extended immediate. */
  lemma GrimoireSpares(v: bv32, imm: bv32)
    requires !GrimoireKills(v, imm)
    ensures Sum(Grimoire(v, imm), SignExt16(imm)) == v
  {
    FeedUndoesDrain(v, SignExt16(imm));
  }

  /** A spell with immediate 0 never kills a non-negative value and never changes it. */
  lemma GrimoireZeroSpell(v: bv32)
    requires !IsNegative(v)
    ensures Grimoire(v, 0) == v
  {
    assert SignExt16(0) == 0 by { SignExt16Identity(0); }
  }

  /** compel, as written, ignores the register's value whenever it writes: only the register number counts. */
  lemma CompelAsWrittenIgnoresValue(index: bv32, v: bv32, w: bv32)
    requires index & 2 == 0
    ensures CompelAsWritten(index, v) == CompelAsWritten(index, w) == index | CompelledFlag
  {
  }

  /** The vervain-protected register 8 holding 2: as written compel overwrites it with 12, as described it stays 2. */
  lemma CompelDiscrepancy()
    ensures CompelAsWritten(8, 2) == 12
    ensures CompelIntended(2) == 2
    ensures HasFlag(2, VervainFlag)
  {
  }

  /** compel as described: a register without vervain gains the compelled flag. */
  lemma CompelIntendedCompels(v: bv32)
    requires v & VervainFlag == 0
    ensures HasFlag(CompelIntended(v), CompelledFlag)
  {
  }

  /** compel as described: the vervain ring protects against compulsion. */
  lemma VervainRingProtects(v: bv32)
    ensures CompelIntended(SetFlag(v, VervainFlag)) == SetFlag(v, VervainFlag)
  {
    assert SetFlag(v, VervainFlag) & VervainFlag == VervainFlag;
  }

  /** Aligned base plus an aligned offset gives an aligned address. */
  lemma EffectiveAddressAligned(base: bv32, offset: bv32)
    requires IsWordAligned(base) && offset & 3 == 0
    ensures IsWordAligned(EffectiveAddress(base, offset))
  {
    SignExt16LowBits(offset);
  }
}
