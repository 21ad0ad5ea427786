/**
 * Short programs on the machine model: round trips through memory and
 * through registers, the themed instructions used together, and the
 * concrete inputs on which summon, compel, blood_bag and drink part from
 * their descriptions.
 */
module Scenarios {
  import opened SignExtension
  import opened Flags
  import opened Simulator
  import opened InstructionFacts

  /**
   * A word stored with blood_bag and loaded back with drink, both as
   * written and with the same operands, is the word stored: both read the
   * same (misread) address. Any offset field is accepted; an offset that
   * is no register number faults both instructions alike.
   */
  method StoreThenLoad(m: Machine, rt: bv32, offset: bv32, rs: bv32, rd: bv32) returns (stored: Outcome, loaded: Outcome)
    requires m.Valid() && IsRegister(rt) && IsRegister(rd)
    modifies m`mem, m.regs
    ensures m.Valid()
    ensures stored == loaded
    ensures !IsRegister(offset) ==> stored == Faulted(NoSuchRegister)
    ensures stored == Completed ==> m.regs[rd as int] == old(m.regs[rt as int])
    ensures stored != Completed ==> m.regs[..] == old(m.regs[..]) && m.mem == old(m.mem)
  {
    stored := m.blood_bag(rt, offset, rs);
    loaded := m.drink(rd, offset, rs);
  }

  /** The same round trip through the corrected pair, for any offset. */
  method StoreThenLoadCorrected(m: Machine, rt: bv32, offset: bv32, rs: bv32, rd: bv32) returns (stored: Outcome, loaded: Outcome)
    requires m.Valid() && IsRegister(rt) && IsRegister(rs) && IsRegister(rd)
    modifies m`mem, m.regs
    ensures m.Valid()
    ensures stored == loaded
    ensures stored == Completed ==> m.regs[rd as int] == old(m.regs[rt as int])
    ensures stored != Completed ==> m.regs[..] == old(m.regs[..]) && m.mem == old(m.mem)
  {
    stored := m.BloodBagCorrected(rt, offset, rs);
    loaded := m.DrinkCorrected(rd, offset, rs);
  }

  /**
   * `blood_bag $Elena, 0($Stefan)` with register 0 holding 0: as written
   * the address is `regs[0] + 9`, which is misaligned, so the store
   * faults; corrected, with $Stefan holding an aligned mapped address,
   * the word lands there.
   */
  method BloodBagReadsOffsetAsRegister(m: Machine) returns (asWritten: Outcome, corrected: Outcome)
    requires m.Valid() && m.regs[0] == 0
    requires IsWordAligned(m.regs[9]) && Address(m.regs[9]) in m.mem
    modifies m`mem
    ensures asWritten == Faulted(Misaligned)
    ensures corrected == Completed
    ensures m.mem == old(m.mem)[Address(old(m.regs[9])) := old(m.regs[8])]
  {
    SignExt16Identity(9);
    SignExt16Identity(0);
    asWritten := m.blood_bag(8, 0, 9);
    corrected := m.BloodBagCorrected(8, 0, 9);
  }

  /**
   * `drink $Elena, 0($Stefan)` with register 0 holding 0, as written: the
   * load faults on the misaligned address 9 and no register changes, so
   * $Elena keeps its value.
   */
  method DrinkReadsOffsetAsRegister(m: Machine) returns (asWritten: Outcome)
    requires m.Valid() && m.regs[0] == 0
    modifies m.regs
    ensures asWritten == Faulted(Misaligned)
    ensures m.regs[..] == old(m.regs[..])
  {
    SignExt16Identity(9);
    asWritten := m.drink(8, 0, 9);
  }

  /**
   * `drink $Elena, 0($Stefan)` as described: with $Stefan holding an
   * aligned mapped address, $Elena receives the word stored there and no
   * other register changes.
   */
  method DrinkCorrectedLoadsFromBase(m: Machine) returns (corrected: Outcome)
    requires m.Valid()
    requires IsWordAligned(m.regs[9]) && Address(m.regs[9]) in m.mem
    modifies m.regs
    ensures corrected == Completed
    ensures m.regs[..] == old(m.regs[..])[8 := m.mem[Address(old(m.regs[9]))]]
  {
    SignExt16Identity(0);
    corrected := m.DrinkCorrected(8, 0, 9);
  }

  /** feed then drain of the same addend gives the first register's value back. */
  method FeedThenDrain(m: Machine, rd: bv32, rs: bv32, rt: bv32)
    requires m.Valid() && IsRegister(rd) && IsRegister(rs) && IsRegister(rt) && rd != rt
    modifies m.regs
    ensures m.regs[rd as int] == old(m.regs[rs as int])
    ensures forall k | 0 <= k < 32 && k != rd as int :: m.regs[k] == old(m.regs[k])
  {
    m.feed(rd, rs, rt);
    m.drain(rd, rd, rt);
    DrainUndoesFeed(old(m.regs[rs as int]), old(m.regs[rt as int]));
  }

  /** Swapping the same two registers twice changes nothing. */
  method SwapTwice(m: Machine, rt: bv32, rs: bv32)
    requires m.Valid() && IsRegister(rt) && IsRegister(rs)
    modifies m.regs
    ensures m.regs[..] == old(m.regs[..])
  {
    m.swap_bodies(rt, rs);
    m.swap_bodies(rt, rs);
  }

  /** drain $Elena, $Stefan, $Damon with 5 and 3 leaves 2 in $Elena. */
  method DrainFiveThree(m: Machine)
    requires m.Valid() && m.regs[9] == 5 && m.regs[10] == 3
    modifies m.regs
    ensures m.regs[8] == 2 && m.regs[9] == 5 && m.regs[10] == 3
  {
    m.drain(8, 9, 10);
  }

  /** A register put under the daylight ring survives daytime with its value and the ring intact. */
  method RingThenDaytime(m: Machine, rt: bv32, imm: bv32)
    requires m.Valid() && IsRegister(rt)
    modifies m.regs
    ensures m.regs[..] == old(m.regs[..])[rt as int := SetFlag(old(m.regs[rt as int]), DaylightRingFlag)]
  {
    m.daylight_ring(rt, 0, 0);
    m.daytime(rt, imm);
    DaylightRingProtects(old(m.regs[rt as int]), imm);
  }

  /** daytime on a register holding all ones (bit 0 set) leaves it untouched. */
  method DaytimeAllOnes(m: Machine)
    requires m.Valid() && m.regs[8] == 0xFFFF_FFFF
    modifies m.regs
    ensures m.regs[..] == old(m.regs[..])
  {
    m.daytime(8, 50);
  }

  /** grimoire with 150 on a health of 100 kills: the register holds exactly 256 and the killing is announced. */
  method GrimoireKillsAtHundred(m: Machine)
    requires m.Valid() && m.regs[8] == 100
    modifies m.regs, m`out
    ensures m.regs[8] == KilledFlag
    ensures m.out == old(m.out) + [KilledBySpell(8, 9)]
  {
    SignExt16Identity(150);
    m.grimoire(8, 9, 150);
  }

  /** stake marks the register as killed and announces it; a later stake changes the register no further. */
  method StakeTwice(m: Machine, rt: bv32, rs: bv32)
    requires m.Valid() && IsRegister(rt)
    modifies m.regs, m`out
    ensures HasFlag(m.regs[rt as int], KilledFlag)
    ensures m.regs[..] == old(m.regs[..])[rt as int := SetFlag(old(m.regs[rt as int]), KilledFlag)]
    ensures m.out == old(m.out) + [Staked(rt, rs), Staked(rt, rs)]
  {
    m.stake(rt, rs);
    m.stake(rt, rs);
    SetFlagIdempotent(old(m.regs[rt as int]), KilledFlag);
  }

  /** `summon $Elena, $zero, 100` as written: $Elena receives 0, the number of $zero, not 100. */
  method SummonLoadsRegisterNumber(m: Machine)
    requires m.Valid()
    modifies m.regs
    ensures m.regs[8] == 0
  {
    m.summon(8, 0, 100);
  }

  /** `summon $Elena, $zero, 100` as described: $Elena receives 100. */
  method SummonCorrectedLoadsHundred(m: Machine)
    requires m.Valid()
    modifies m.regs
    ensures m.regs[8] == 100
  {
    m.SummonCorrected(8, 0, 100);
    SignExt16Identity(100);
  }

  /** summon as described loads any immediate that fits in 16 signed bits unchanged. */
  method SummonCorrectedLoadsImmediate(m: Machine, rt: bv32, rs: bv32, imm: bv32)
    requires m.Valid() && IsRegister(rt) && IsInt16(imm)
    modifies m.regs
    ensures m.regs[..] == old(m.regs[..])[rt as int := imm]
  {
    m.SummonCorrected(rt, rs, imm);
    SignExt16Identity(imm);
  }

  /** `compel $Elena` with $Elena holding 2 (vervain), as written: $Elena becomes 12. */
  method CompelIgnoresVervain(m: Machine)
    requires m.Valid() && m.regs[8] == 2
    modifies m.regs
    ensures m.regs[8] == 12
  {
    m.compel(8, 0, 0);
  }

  /** `compel $Elena` with $Elena holding 2 (vervain), as described: $Elena stays 2. */
  method CompelCorrectedRespectsVervain(m: Machine)
    requires m.Valid() && m.regs[8] == 2
    modifies m.regs
    ensures m.regs[8] == 2
  {
    m.CompelCorrected(8, 0, 0);
  }
}
