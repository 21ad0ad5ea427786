/**
 * The execution semantics of the Vampire Diaries instruction set: one
 * method per instruction, each a step on the simulator state that the
 * host owns.
 *
 * Operands arrive as the host's decoder hands them over, one Java `int`
 * per operand of the instruction's syntax, in the syntax's order; an
 * operand that names a register holds that register's number, which the
 * host has already checked to lie in 0..31. Every method takes the
 * operands its syntax declares, even those its body ignores.
 */
module Simulator {
  import opened SignExtension
  import opened LongProduct
  import opened Flags

  datatype Option<T> = None | Some(value: T)

  /** A control transfer requested from the host: a branch to a label, or a jump to a target. */
  datatype Transfer = Branch(offset: bv32) | Jump(target: bv32)

  /** A line of console output, kept abstract: the two register numbers it names. */
  datatype Event =
    | Staked(victim: bv32, killer: bv32)         // "<victim> staked by <killer>"
    | KilledBySpell(victim: bv32, killer: bv32)  // "<victim> killed by <killer> by grimoire spell"

  /**
   * Why a memory instruction stopped: an operand read as a register
   * number that names no register, a misaligned address, or an address
   * the host memory refuses.
   */
  datatype Fault = NoSuchRegister | Misaligned | MemoryAccess

  /** The result of a memory instruction. */
  datatype Outcome = Completed | Faulted(fault: Fault)

  /**
   * A byte address, the key of the word memory. The wrapper is a
   * modelling device: with a bare `bv32` key type the verifier cannot
   * read back an entry of a map it has just updated.
   */
  datatype Address = Address(bits: bv32)

  /** An operand that names a register. */
  predicate IsRegister(op: bv32) {
    op < 32
  }

  /** Java's `x < 0` on an int: the sign bit is set. */
  predicate IsNegative(x: bv32) {
    x & 0x8000_0000 != 0
  }

  /** Java's `(address & 0x3) == 0`. */
  predicate IsWordAligned(address: bv32) {
    address & 3 == 0
  }

  /** The address a load or store uses: the base register's value plus the sign-extended offset, wrapping at 32 bits. */
  function EffectiveAddress(base: bv32, offset: bv32): bv32 {
    base + SignExt16(offset)
  }

  /** drain's result: the 32-bit difference. */
  function Difference(a: bv32, b: bv32): bv32 {
    a - b
  }

  /** feed's result: the 32-bit sum. */
  function Sum(a: bv32, b: bv32): bv32 {
    a + b
  }

  /** hybrid's result: the value times 100, wrapping at 32 bits. */
  function Hybrid(v: bv32): bv32 {
    v * 100
  }

  /** daytime's result: the value less the sign-extended immediate, unless the daylight ring flag is set. */
  function Daytime(v: bv32, imm: bv32): bv32 {
    if v & DaylightRingFlag == 0 then Difference(v, SignExt16(imm)) else v
  }

  /** Whether grimoire kills: the health left after the spell is negative. */
  predicate GrimoireKills(v: bv32, imm: bv32) {
    IsNegative(Difference(v, SignExt16(imm)))
  }

  /** grimoire's result: the health left after the spell, or exactly the killed flag when that is negative. */
  function Grimoire(v: bv32, imm: bv32): (r: bv32)
    ensures !IsNegative(r)
  {
    if GrimoireKills(v, imm) then KilledFlag else Difference(v, SignExt16(imm))
  }

  /** The value `compel` writes, as the source computes it: from the register NUMBER, not its value. */
  function CompelAsWritten(index: bv32, value: bv32): bv32 {
    if index & 2 == 0 then index | CompelledFlag else value
  }

  /** The value `compel` is described to write: the compelled flag, unless the register's vervain flag is set. */
  function CompelIntended(value: bv32): (r: bv32)
    ensures r & !CompelledFlag == value & !CompelledFlag
  {
    if value & VervainFlag == 0 then SetFlag(value, CompelledFlag) else value
  }

  /**
   * The simulator state the instructions act on: the 32 general-purpose
   * registers, the word memory (its domain is the set of addresses the
   * host accepts), the control transfer last requested, and the lines
   * written to the console.
   */
  class Machine {
    const regs: array<bv32>
    var mem: map<Address, bv32>
    var branch: Option<Transfer>
    var out: seq<Event>

    ghost predicate Valid()
      reads this
    {
      regs.Length == 32 && forall a | a in mem :: IsWordAligned(a.bits)
    }

    constructor (init: seq<bv32>, memory: map<Address, bv32>)
      requires |init| == 32
      requires forall a | a in memory :: IsWordAligned(a.bits)
      ensures Valid() && fresh(regs)
      ensures regs[..] == init && mem == memory && branch == None && out == []
    {
      regs := new bv32[32](i requires 0 <= i < 32 => init[i]);
      mem := memory;
      branch := None;
      out := [];
    }

    // ------------------------------------------------------------------
    // Arithmetic
    // ------------------------------------------------------------------

    /**
     * summon $rt, $rs, $imm — writes the sign-extended SECOND operand to
     * $rt. That operand is the number of register $rs, which sign
     * extension leaves as it is: $rt receives the register number.
     */
    method summon(rt: bv32, rs: bv32, imm: bv32)
      requires Valid() && IsRegister(rt) && IsRegister(rs)
      modifies regs
      ensures regs[..] == old(regs[..])[rt as int := SignExt16(rs)]
      ensures regs[..] == old(regs[..])[rt as int := rs]
    {
      SignExt16Identity(rs);
      var value := SignExt16(rs);
      regs[rt as int] := 0 + value;
    }

    /** summon as described: writes the sign-extended immediate (the third operand) to $rt. */
    method SummonCorrected(rt: bv32, rs: bv32, imm: bv32)
      requires Valid() && IsRegister(rt)
      modifies regs
      ensures regs[..] == old(regs[..])[rt as int := SignExt16(imm)]
    {
      regs[rt as int] := 0 + SignExt16(imm);
    }

    /** drain $rd, $rs, $rt — $rd := $rs - $rt, wrapping at 32 bits. */
    method drain(rd: bv32, rs: bv32, rt: bv32)
      requires Valid() && IsRegister(rd) && IsRegister(rs) && IsRegister(rt)
      modifies regs
      ensures regs[..] == old(regs[..])[rd as int := Difference(old(regs[rs as int]), old(regs[rt as int]))]
    {
      var rsVal := regs[rs as int];
      var rtVal := regs[rt as int];
      regs[rd as int] := Difference(rsVal, rtVal);
    }

    /** feed $rd, $rs, $rt — $rd := $rs + $rt, wrapping at 32 bits. */
    method feed(rd: bv32, rs: bv32, rt: bv32)
      requires Valid() && IsRegister(rd) && IsRegister(rs) && IsRegister(rt)
      modifies regs
      ensures regs[..] == old(regs[..])[rd as int := Sum(old(regs[rs as int]), old(regs[rt as int]))]
    {
      var prev := regs[rs as int];
      var next := regs[rt as int];
      regs[rd as int] := Sum(prev, next);
    }

    /** older $rd, $rs, $rt — $rd := the low 32 bits of the 64-bit product of $rs and $rt. */
    method older(rd: bv32, rs: bv32, rt: bv32)
      requires Valid() && IsRegister(rd) && IsRegister(rs) && IsRegister(rt)
      modifies regs
      ensures regs[..] == old(regs[..])[rd as int := LongProductLow(old(regs[rs as int]), old(regs[rt as int]))]
    {
      regs[rd as int] := LongProductLow(regs[rs as int], regs[rt as int]);
    }

    /** hybrid $rt — $rt := $rt * 100, wrapping at 32 bits. */
    method hybrid(rt: bv32)
      requires Valid() && IsRegister(rt)
      modifies regs
      ensures regs[..] == old(regs[..])[rt as int := Hybrid(old(regs[rt as int]))]
    {
      var v := regs[rt as int];
      regs[rt as int] := Hybrid(v);
    }

    // ------------------------------------------------------------------
    // Memory
    // ------------------------------------------------------------------

    /**
     * blood_bag $rt, offset($rs), as the source computes it. The operands
     * arrive in syntax order: $rt, the offset, then the number of $rs. The
     * code reads the SECOND operand (the offset) as the base register and
     * sign-extends the THIRD (the number of $rs) as the offset, so the
     * address is `regs[offset] + rs`. An offset that is no register number
     * faults before anything else; then a misaligned address, then an
     * address the host memory refuses, faults before memory is touched.
     */
    method blood_bag(rt: bv32, offset: bv32, rs: bv32) returns (r: Outcome)
      requires Valid() && IsRegister(rt)
      modifies this`mem
      ensures Valid()
      ensures !IsRegister(offset) ==> r == Faulted(NoSuchRegister) && mem == old(mem)
      ensures IsRegister(offset) ==>
        var address := EffectiveAddress(old(regs[offset as int]), rs);
        if !IsWordAligned(address) then r == Faulted(Misaligned) && mem == old(mem)
        else if Address(address) !in old(mem) then r == Faulted(MemoryAccess) && mem == old(mem)
        else r == Completed && mem == old(mem)[Address(address) := old(regs[rt as int])]
    {
      if !IsRegister(offset) {
        return Faulted(NoSuchRegister);
      }
      r := Store(rt, EffectiveAddress(regs[offset as int], rs));
    }

    /**
     * blood_bag $rt, offset($rs) as described: stores $rt at the value of
     * $rs plus the sign-extended offset.
     */
    method BloodBagCorrected(rt: bv32, offset: bv32, rs: bv32) returns (r: Outcome)
      requires Valid() && IsRegister(rt) && IsRegister(rs)
      modifies this`mem
      ensures Valid()
      ensures var address := EffectiveAddress(old(regs[rs as int]), offset);
        if !IsWordAligned(address) then r == Faulted(Misaligned) && mem == old(mem)
        else if Address(address) !in old(mem) then r == Faulted(MemoryAccess) && mem == old(mem)
        else r == Completed && mem == old(mem)[Address(address) := old(regs[rt as int])]
    {
      r := Store(rt, EffectiveAddress(regs[rs as int], offset));
    }

    /** The store both versions of blood_bag share, once the address is known. */
    method Store(rt: bv32, address: bv32) returns (r: Outcome)
      requires Valid() && IsRegister(rt)
      modifies this`mem
      ensures Valid()
      ensures if !IsWordAligned(address) then r == Faulted(Misaligned) && mem == old(mem)
        else if Address(address) !in old(mem) then r == Faulted(MemoryAccess) && mem == old(mem)
        else r == Completed && mem == old(mem)[Address(address) := regs[rt as int]]
    {
      if !IsWordAligned(address) {
        return Faulted(Misaligned);
      }
      if Address(address) !in mem {
        return Faulted(MemoryAccess);
      }
      mem := mem[Address(address) := regs[rt as int]];
      r := Completed;
    }

    /**
     * drink $rt, offset($rs), as the source computes it: the same address
     * as blood_bag (`regs[offset] + rs`) and the same faults, raised before
     * any register is written; otherwise the word there is loaded into $rt.
     */
    method drink(rt: bv32, offset: bv32, rs: bv32) returns (r: Outcome)
      requires Valid() && IsRegister(rt)
      modifies regs
      ensures !IsRegister(offset) ==> r == Faulted(NoSuchRegister) && regs[..] == old(regs[..])
      ensures IsRegister(offset) ==>
        var address := EffectiveAddress(old(regs[offset as int]), rs);
        if !IsWordAligned(address) then r == Faulted(Misaligned) && regs[..] == old(regs[..])
        else if Address(address) !in mem then r == Faulted(MemoryAccess) && regs[..] == old(regs[..])
        else r == Completed && regs[..] == old(regs[..])[rt as int := mem[Address(address)]]
    {
      if !IsRegister(offset) {
        return Faulted(NoSuchRegister);
      }
      r := Load(rt, EffectiveAddress(regs[offset as int], rs));
    }

    /**
     * drink $rt, offset($rs) as described: loads the word at the value of
     * $rs plus the sign-extended offset into $rt.
     */
    method DrinkCorrected(rt: bv32, offset: bv32, rs: bv32) returns (r: Outcome)
      requires Valid() && IsRegister(rt) && IsRegister(rs)
      modifies regs
      ensures var address := EffectiveAddress(old(regs[rs as int]), offset);
        if !IsWordAligned(address) then r == Faulted(Misaligned) && regs[..] == old(regs[..])
        else if Address(address) !in mem then r == Faulted(MemoryAccess) && regs[..] == old(regs[..])
        else r == Completed && regs[..] == old(regs[..])[rt as int := mem[Address(address)]]
    {
      r := Load(rt, EffectiveAddress(regs[rs as int], offset));
    }

    /** The load both versions of drink share, once the address is known. */
    method Load(rt: bv32, address: bv32) returns (r: Outcome)
      requires Valid() && IsRegister(rt)
      modifies regs
      ensures if !IsWordAligned(address) then r == Faulted(Misaligned) && regs[..] == old(regs[..])
        else if Address(address) !in mem then r == Faulted(MemoryAccess) && regs[..] == old(regs[..])
        else r == Completed && regs[..] == old(regs[..])[rt as int := mem[Address(address)]]
    {
      if !IsWordAligned(address) {
        return Faulted(Misaligned);
      }
      if Address(address) !in mem {
        return Faulted(MemoryAccess);
      }
      regs[rt as int] := mem[Address(address)];
      r := Completed;
    }

    // ------------------------------------------------------------------
    // Control transfer
    // ------------------------------------------------------------------

    /** fangs $rs, $rt, label — requests a branch to label exactly when the two registers are equal. */
    method fangs(rs: bv32, rt: bv32, offset: bv32)
      requires Valid() && IsRegister(rs) && IsRegister(rt)
      modifies this`branch
      ensures branch == if regs[rs as int] == regs[rt as int] then Some(Branch(offset)) else old(branch)
    {
      if regs[rs as int] == regs[rt as int] {
        branch := Some(Branch(offset));
      }
    }

    /** sprint $rs, $rt, label — requests a branch to label exactly when the two registers differ. */
    method sprint(rs: bv32, rt: bv32, offset: bv32)
      requires Valid() && IsRegister(rs) && IsRegister(rt)
      modifies this`branch
      ensures branch == if regs[rs as int] != regs[rt as int] then Some(Branch(offset)) else old(branch)
    {
      if regs[rs as int] != regs[rt as int] {
        branch := Some(Branch(offset));
      }
    }

    /** disappear label — requests a jump to label, always. */
    method disappear(target: bv32)
      requires Valid()
      modifies this`branch
      ensures branch == Some(Jump(target))
    {
      branch := Some(Jump(target));
    }

    // ------------------------------------------------------------------
    // Register moves
    // ------------------------------------------------------------------

    /** mystic_falls $rt, $rs — $rt := $rs. */
    method mystic_falls(rt: bv32, rs: bv32)
      requires Valid() && IsRegister(rt) && IsRegister(rs)
      modifies regs
      ensures regs[..] == old(regs[..])[rt as int := old(regs[rs as int])]
    {
      regs[rt as int] := regs[rs as int];
    }

    /** cure $rt, $zero — $rt := 0. */
    method cure(rt: bv32, zero: bv32)
      requires Valid() && IsRegister(rt)
      modifies regs
      ensures regs[..] == old(regs[..])[rt as int := 0]
    {
      regs[rt as int] := 0;
    }

    /** swap_bodies $rt, $rs — exchanges the values of the two registers through a temporary. */
    method swap_bodies(rt: bv32, rs: bv32)
      requires Valid() && IsRegister(rt) && IsRegister(rs)
      modifies regs
      ensures regs[rt as int] == old(regs[rs as int]) && regs[rs as int] == old(regs[rt as int])
      ensures forall k | 0 <= k < 32 && k != rt as int && k != rs as int :: regs[k] == old(regs[k])
    {
      var tempReg := regs[rt as int];
      regs[rt as int] := regs[rs as int];
      regs[rs as int] := tempReg;
    }

    // ------------------------------------------------------------------
    // Flags
    // ------------------------------------------------------------------

    /** daylight_ring $rt, $rs, $imm — sets bit 0 of $rt. */
    method daylight_ring(rt: bv32, rs: bv32, imm: bv32)
      requires Valid() && IsRegister(rt)
      modifies regs
      ensures regs[..] == old(regs[..])[rt as int := SetFlag(old(regs[rt as int]), DaylightRingFlag)]
    {
      var bit := regs[rt as int] | 1;
      regs[rt as int] := bit;
    }

    /** vervain_ring $rt, $rs, $imm — sets bit 1 of $rt. */
    method vervain_ring(rt: bv32, rs: bv32, imm: bv32)
      requires Valid() && IsRegister(rt)
      modifies regs
      ensures regs[..] == old(regs[..])[rt as int := SetFlag(old(regs[rt as int]), VervainFlag)]
    {
      var bit := regs[rt as int] | 2;
      regs[rt as int] := bit;
    }

    /** daytime $rt, $imm — unless bit 0 of $rt is set, $rt := $rt - imm (sign-extended), wrapping at 32 bits. */
    method daytime(rt: bv32, imm: bv32)
      requires Valid() && IsRegister(rt)
      modifies regs
      ensures regs[..] == old(regs[..])[rt as int := Daytime(old(regs[rt as int]), imm)]
      ensures old(regs[rt as int]) & DaylightRingFlag != 0 ==> regs[..] == old(regs[..])
    {
      var v := regs[rt as int];
      regs[rt as int] := Daytime(v, imm);
    }

    /**
     * compel $rt, $rs, $imm — as the source computes it: when bit 1 of the
     * register NUMBER is clear, the register is overwritten with that
     * number with bit 2 set; the register's own value plays no part.
     */
    method compel(rt: bv32, rs: bv32, imm: bv32)
      requires Valid() && IsRegister(rt)
      modifies regs
      ensures rt & 2 == 0 ==> regs[..] == old(regs[..])[rt as int := rt | CompelledFlag]
      ensures rt & 2 != 0 ==> regs[..] == old(regs[..])
      ensures regs[..] == old(regs[..])[rt as int := CompelAsWritten(rt, old(regs[rt as int]))]
    {
      var index := rt;
      if index & 2 == 0 {
        regs[rt as int] := index | 4;
      }
    }

    /** compel as described: sets bit 2 of $rt unless bit 1 (vervain) of its value is set. */
    method CompelCorrected(rt: bv32, rs: bv32, imm: bv32)
      requires Valid() && IsRegister(rt)
      modifies regs
      ensures regs[..] == old(regs[..])[rt as int := CompelIntended(old(regs[rt as int]))]
    {
      var v := regs[rt as int];
      if v & 2 == 0 {
        regs[rt as int] := v | 4;
      }
    }

    /** stake $rt, $rs — sets bit 8 of $rt and announces that $rt was staked by $rs. */
    method stake(rt: bv32, rs: bv32)
      requires Valid() && IsRegister(rt)
      modifies regs, this`out
      ensures regs[..] == old(regs[..])[rt as int := SetFlag(old(regs[rt as int]), KilledFlag)]
      ensures out == old(out) + [Staked(rt, rs)]
    {
      var bit := regs[rt as int] | 256;
      regs[rt as int] := bit;
      out := out + [Staked(rt, rs)];
    }

    /**
     * grimoire $rt, $rs, $imm — health := $rt - imm (sign-extended). If
     * the health is negative, it becomes exactly the killed flag (256) and
     * the killing is announced; $rt := health.
     */
    method grimoire(rt: bv32, rs: bv32, imm: bv32)
      requires Valid() && IsRegister(rt)
      modifies regs, this`out
      ensures regs[..] == old(regs[..])[rt as int := Grimoire(old(regs[rt as int]), imm)]
      ensures out == if GrimoireKills(old(regs[rt as int]), imm) then old(out) + [KilledBySpell(rt, rs)] else old(out)
    {
      var v := regs[rt as int];
      if GrimoireKills(v, imm) {
        out := out + [KilledBySpell(rt, rs)];
      }
      regs[rt as int] := Grimoire(v, imm);
    }
  }
}
