# The Vampire Diaries Assembly, modelled in Dafny

The Vampire Diaries Assembly is a themed MIPS-style instruction set that
plugs into the MARS simulator. Each instruction's execution step reads
and writes MARS's 32-entry register file of 32-bit words. Some also touch
the word memory, ask MARS for a branch or a jump, or print a line to the
console. A second part of the language resolves symbolic register names.
It maps `$cure`/`$zero` and twenty themed aliases (`$Elena` … `$Wickery_Bridge`)
to register numbers, and hands every other name to MARS.

The project models both parts.

- `signext.dfy` (`SignExtension`): the idiom `x << 16 >> 16`. Java's
  arithmetic `>>` is written out, because Dafny's `>>` on bit-vectors is
  logical. The idiom is proved equal to a reference sign extension, and
  its range, low bits and identity on small values are proved.
- `longproduct.dfy` (`LongProduct`): `(int) ((long) a * (long) b)`, the
  widening and narrowing casts it uses, and the proof that the product's
  low word is the wrapping 32-bit product.
- `flags.dfy` (`Flags`): the flag bits 0, 1, 2 and 8 that live inside
  general-purpose registers, and the read-modify-write OR that sets them.
- `registers.dfy` (`RegisterNames`): `getRegisterNumber`. MARS's own
  resolver for the other names is a parameter `hostNumber`.
- `machine.dfy` (`Simulator`): the class `Machine`, with one method per
  instruction, named after the mnemonic. Each method takes the operands
  in the order MARS hands them over, which is the order they appear in the
  instruction's syntax. For `blood_bag $rt, offset($rs)` and
  `drink $rt, offset($rs)` that order is `(rt, offset, rs)`.
  - Its state is `regs: array<bv32>` (32 entries), the word memory `mem`,
    the control transfer last requested (`branch`), and the console lines
    written so far (`out`).
  - The keys of `mem` are the addresses the host memory accepts.
  - Each method's `ensures` gives the whole new state, in terms of the old
    state and a named value function (`Difference`, `Daytime`, `Grimoire`, …).
- `facts.dfy` (`InstructionFacts`): properties of those value functions,
  and of instructions used together.
- `scenarios.dfy` (`Scenarios`): short programs on a `Machine`:
  - memory and register round trips;
  - the worked examples;
  - the inputs on which `summon`, `compel`, `blood_bag` and `drink` fail
    to do what their descriptions say.

Conventions:
- A Java `int` is its 32-bit pattern (`bv32`), so `+`, `-` and `*` wrap as
  Java's do.
- Signed readings are stated on bits:
  - `x < 0` is `IsNegative(x)`, the sign bit;
  - "in [-32768, 32767]" is `IsInt16(x)`, the top seventeen bits equal.
- An operand that names a register holds that register's number. MARS has
  already checked it to lie in 0..31, so such an operand appears in the
  model as `requires IsRegister(op)`. The `offset` field of `blood_bag`
  and `drink` is not a register operand and carries no such requirement:
  the code reads it as a register number anyway (see Findings). When it
  names no register, the model faults with `NoSuchRegister`.
- Memory keys are wrapped in a one-field datatype, `Address`. With a bare
  `bv32` key type the verifier cannot read back a map entry it has just
  updated.

Points where the code departs from the instructions' own descriptions or
syntax, and behaviours of the code worth knowing. The model follows the
code in each case:
- `compel` tests and sets bits of the register *number*, not of its value.
  See Findings.
- `summon` loads its second operand (`$rs`'s number), not the immediate.
  See Findings.
- `blood_bag` and `drink` read the offset field as the base register and
  the number of `$rs` as the offset. See Findings.
- With an odd immediate, `daytime` can set bit 0, the ring flag: from 0
  with immediate 1 the result is `0xFFFF_FFFF`
  (`InstructionFacts.DaytimeCanSetRingBit`).
- When `grimoire` kills, it first clamps the negative health to 0 and then
  writes `0 | 256`: health zero with the killed flag set
  (`InstructionFacts.GrimoireKillIsZeroHealthKilled`).
- A branch (`fangs`, `sprint`) and a jump (`disappear`) go to two different
  MARS services, `processBranch` and `processJump`. So `branch` records a
  `Transfer` that tells them apart (`Branch(offset)` or `Jump(target)`),
  rather than a bare number.

## Model

| member | source | states |
|---|---|---|
| `SignExtension.Sar16` | mars/mips/instructions/customlangs/TheVampireDiariesAssembly.java:36 | Java's arithmetic `>> 16` on a word: the logical shift, with the upper half refilled with ones when the sign bit is set; its properties are the `SignExt16…` lemmas below |
| `SignExtension.SignExt16` | mars/mips/instructions/customlangs/TheVampireDiariesAssembly.java:36 | the idiom `x << 16 >> 16` (also at lines 95, 118, 217 and 287), built from `<< 16` and `Sar16`; specified by `SignExt16IsRef` and the lemmas after it |
| `SignExtension.SignExt16IsRef` | mars/mips/instructions/customlangs/TheVampireDiariesAssembly.java:36 | the shift idiom `x << 16 >> 16` equals the reference sign extension `((x & 0xFFFF) ^ 0x8000) - 0x8000` on every word |
| `SignExtension.SignExt16Negative` | mars/mips/instructions/customlangs/TheVampireDiariesAssembly.java:95 | with bit 15 set, the idiom agrees with the reference (upper half filled with ones) |
| `SignExtension.SignExt16NonNegative` | mars/mips/instructions/customlangs/TheVampireDiariesAssembly.java:95 | with bit 15 clear, the idiom agrees with the reference (upper half cleared) |
| `SignExtension.SignExt16Range` | mars/mips/instructions/customlangs/TheVampireDiariesAssembly.java:118 | the result always lies in [-32768, 32767] |
| `SignExtension.SignExt16LowBits` | mars/mips/instructions/customlangs/TheVampireDiariesAssembly.java:217 | the low 16 bits of the result are those of the operand |
| `SignExtension.SignExt16UpperHalf` | mars/mips/instructions/customlangs/TheVampireDiariesAssembly.java:287 | the upper half is all ones when bit 15 is set and all zeros otherwise |
| `SignExtension.SignExt16Identity` | mars/mips/instructions/customlangs/TheVampireDiariesAssembly.java:36-38 | on a value already in [-32768, 32767] the idiom is the identity |
| `SignExtension.SignExt16Idempotent` | mars/mips/instructions/customlangs/TheVampireDiariesAssembly.java:36 | sign-extending twice is sign-extending once |
| `LongProduct.Widen` | mars/mips/instructions/customlangs/TheVampireDiariesAssembly.java:79-80 | the `(long)` cast of an int: the word with its sign bit copied into the upper 32 bits; specified by `WidenNegative`, `WidenNonNegative` and `NarrowWiden` |
| `LongProduct.Narrow` | mars/mips/instructions/customlangs/TheVampireDiariesAssembly.java:81 | the `(int)` cast of a long: its low 32 bits; `NarrowWiden` shows it undoes `Widen` |
| `LongProduct.LongProductLow` | mars/mips/instructions/customlangs/TheVampireDiariesAssembly.java:79-81 | `(int) ((long) a * (long) b)`, with the casts written out per sign case: the result is always the wrapping 32-bit product `a * b`, so the detour through `long` neither faults nor changes what `older` stores |
| `LongProduct.NarrowWiden` | mars/mips/instructions/customlangs/TheVampireDiariesAssembly.java:79-81 | `(int) (long) x == x`: the widening cast loses nothing |
| `LongProduct.WidenNegative` | mars/mips/instructions/customlangs/TheVampireDiariesAssembly.java:79 | a negative int widens with an all-ones upper half |
| `LongProduct.WidenNonNegative` | mars/mips/instructions/customlangs/TheVampireDiariesAssembly.java:79 | a non-negative int widens with an all-zeros upper half |
| `LongProduct.LongProductLowExample` | mars/mips/instructions/customlangs/TheVampireDiariesAssembly.java:79-81 | 65536 × 65536 is exactly 2^32 as a long, and `older` keeps 0 of it, without a fault |
| `Flags.SetFlag` | mars/mips/instructions/customlangs/TheVampireDiariesAssembly.java:203 | after OR-ing `flag` into `v` the flag bits are set and every other bit is as in `v` |
| `Flags.SetFlagHasFlag` | mars/mips/instructions/customlangs/TheVampireDiariesAssembly.java:232 | after setting, the flag reads as set |
| `Flags.SetFlagIdempotent` | mars/mips/instructions/customlangs/TheVampireDiariesAssembly.java:273 | setting a flag twice is setting it once |
| `Flags.SetFlagWhenSet` | mars/mips/instructions/customlangs/TheVampireDiariesAssembly.java:203-204 | setting a flag already set changes nothing |
| `Flags.SetFlagKeepsOtherFlag` | mars/mips/instructions/customlangs/TheVampireDiariesAssembly.java:273-274 | setting one flag leaves any disjoint flag as it was |
| `Flags.DaylightRingKeepsOtherFlags` | mars/mips/instructions/customlangs/TheVampireDiariesAssembly.java:201-205 | setting the daylight ring bit leaves the vervain, compelled and killed flags as they were |
| `Flags.VervainRingKeepsOtherFlags` | mars/mips/instructions/customlangs/TheVampireDiariesAssembly.java:230-234 | setting the vervain bit leaves the daylight ring, compelled and killed flags as they were |
| `Flags.CompelledKeepsOtherFlags` | mars/mips/instructions/customlangs/TheVampireDiariesAssembly.java:239 | setting the compelled bit leaves the daylight ring, vervain and killed flags as they were |
| `Flags.StakeKeepsOtherFlags` | mars/mips/instructions/customlangs/TheVampireDiariesAssembly.java:271-274 | setting the killed bit leaves the daylight ring, vervain and compelled flags as they were |
| `RegisterNames.ThemedNumber` | mars/mips/instructions/customlangs/TheVampireDiariesAssembly.java:320-359 | the answer is -1 or lies in 8..27, and any answer other than -1 is the register whose table entry is exactly `name` |
| `RegisterNames.ThemedNumberOfAlias` | mars/mips/instructions/customlangs/TheVampireDiariesAssembly.java:320-359 | the k-th themed alias resolves to register 8 + k |
| `RegisterNames.ThemedNumberIsMembership` | mars/mips/instructions/customlangs/TheVampireDiariesAssembly.java:320-359 | the themed table answers -1 exactly for names that are not themed aliases |
| `RegisterNames.IsZeroName` | mars/mips/instructions/customlangs/TheVampireDiariesAssembly.java:317-318 | the two names of the zero register, `$cure` and `$zero` |
| `RegisterNames.GetRegisterNumber` | mars/mips/instructions/customlangs/TheVampireDiariesAssembly.java:315-364 | `$cure` and `$zero` give 0; the k-th themed alias gives 8 + k; every other name gives the host resolver's answer unchanged |
| `RegisterNames.Position` | mars/mips/instructions/customlangs/TheVampireDiariesAssembly.java:320-359 | the lookup finds the first position holding the name, and answers -1 exactly when the name is absent |
| `RegisterNames.ResolverIsTablePosition` | mars/mips/instructions/customlangs/TheVampireDiariesAssembly.java:316-362 | apart from `$cure`/`$zero`, a themed alias resolves to 8 plus its position in the alias table, and any other name to the host answer |
| `RegisterNames.ThemedAliasesDistinct` | mars/mips/instructions/customlangs/TheVampireDiariesAssembly.java:320-359 | the twenty themed names are pairwise different |
| `RegisterNames.ThemedAliasesInjective` | mars/mips/instructions/customlangs/TheVampireDiariesAssembly.java:320-359 | distinct themed aliases resolve to distinct registers, whatever the host resolver does |
| `Simulator.Difference` | mars/mips/instructions/customlangs/TheVampireDiariesAssembly.java:53 | the wrapping `$rs - $rt` that drain writes; `DrainUndoesFeed` and `FeedUndoesDrain` make `Sum` its inverse |
| `Simulator.Sum` | mars/mips/instructions/customlangs/TheVampireDiariesAssembly.java:67 | the wrapping `$rs + $rt` that feed writes; the same two lemmas relate it to `Difference` |
| `Simulator.Hybrid` | mars/mips/instructions/customlangs/TheVampireDiariesAssembly.java:261 | the wrapping `$rt * 100` that hybrid writes |
| `Simulator.Daytime` | mars/mips/instructions/customlangs/TheVampireDiariesAssembly.java:216-220 | the value daytime writes: unchanged when bit 0 is set, otherwise the difference with the sign-extended immediate; specified by `DaylightRingProtects` and `DaytimeWithoutRing` |
| `Simulator.GrimoireKills` | mars/mips/instructions/customlangs/TheVampireDiariesAssembly.java:288-289 | whether the spell kills: the difference with the sign-extended immediate is negative; `GrimoireKillIsZeroHealthKilled` and `GrimoireSpares` give the value in each case |
| `Simulator.CompelAsWritten` | mars/mips/instructions/customlangs/TheVampireDiariesAssembly.java:245-248 | the value compel writes as the code computes it, from the register number; `CompelAsWrittenIgnoresValue` shows the value plays no part |
| `Simulator.Machine.summon` | mars/mips/instructions/customlangs/TheVampireDiariesAssembly.java:33-39 | `$rt` receives the sign-extended second operand, which is the register number of `$rs`; no other register changes |
| `Simulator.Machine.SummonCorrected` | mars/mips/instructions/customlangs/TheVampireDiariesAssembly.java:28-29 | as described: `$rt` receives the sign-extended immediate; no other register changes |
| `Simulator.Machine.drain` | mars/mips/instructions/customlangs/TheVampireDiariesAssembly.java:48-54 | `$rd` receives `$rs - $rt` (wrapping), read before the write; no other register changes |
| `Simulator.Machine.feed` | mars/mips/instructions/customlangs/TheVampireDiariesAssembly.java:63-68 | `$rd` receives `$rs + $rt` (wrapping); no other register changes |
| `Simulator.Machine.older` | mars/mips/instructions/customlangs/TheVampireDiariesAssembly.java:77-82 | `$rd` receives the low 32 bits of the sign-extended 64-bit product; no other register changes |
| `Simulator.Machine.hybrid` | mars/mips/instructions/customlangs/TheVampireDiariesAssembly.java:258-262 | `$rt` receives `$rt * 100` (wrapping); no other register changes |
| `Simulator.IsWordAligned` | mars/mips/instructions/customlangs/TheVampireDiariesAssembly.java:98 | the alignment test `(address & 0x3) == 0` of both memory instructions (also line 119) |
| `Simulator.IsNegative` | mars/mips/instructions/customlangs/TheVampireDiariesAssembly.java:289 | Java's `charHealth < 0` on a word: its sign bit is set |
| `Simulator.EffectiveAddress` | mars/mips/instructions/customlangs/TheVampireDiariesAssembly.java:96 | a base word plus a sign-extended 16-bit offset, wrapping, as both memory instructions compute it (also line 118); `EffectiveAddressAligned` states when it passes the alignment check |
| `Simulator.Machine.blood_bag` | mars/mips/instructions/customlangs/TheVampireDiariesAssembly.java:91-107 | as written: an offset field that names no register faults; otherwise the address is the value of register `offset` plus the sign-extended number of `$rs`; a misaligned address faults, then an address memory refuses faults, memory unchanged in each case; otherwise exactly that word becomes `$rt`; registers never change |
| `Simulator.Machine.Store` | mars/mips/instructions/customlangs/TheVampireDiariesAssembly.java:98-106 | the store once the address is known: a misaligned address faults, then an address memory refuses faults, memory unchanged in each case; otherwise exactly that word becomes `$rt` |
| `Simulator.Machine.BloodBagCorrected` | mars/mips/instructions/customlangs/TheVampireDiariesAssembly.java:86-87 | as described: the address is `$rs` plus the sign-extended offset; the same alignment and memory faults, otherwise that word becomes `$rt` |
| `Simulator.Machine.Load` | mars/mips/instructions/customlangs/TheVampireDiariesAssembly.java:119-127 | the load once the address is known: a misaligned address faults, then an address memory refuses faults, every register unchanged in each case; otherwise `$rt` receives exactly the word there and no other register changes |
| `Simulator.Machine.drink` | mars/mips/instructions/customlangs/TheVampireDiariesAssembly.java:116-128 | as written: the same address and the same faults as `blood_bag`, with every register unchanged; otherwise `$rt` receives the word there and nothing else changes; memory never changes |
| `Simulator.Machine.DrinkCorrected` | mars/mips/instructions/customlangs/TheVampireDiariesAssembly.java:111-112 | as described: loads the word at `$rs` plus the sign-extended offset into `$rt`, with the same faults |
| `Simulator.Machine.fangs` | mars/mips/instructions/customlangs/TheVampireDiariesAssembly.java:137-142 | a branch to the label is requested exactly when the two registers are equal; registers and memory never change |
| `Simulator.Machine.sprint` | mars/mips/instructions/customlangs/TheVampireDiariesAssembly.java:151-156 | a branch to the label is requested exactly when the two registers differ |
| `Simulator.Machine.disappear` | mars/mips/instructions/customlangs/TheVampireDiariesAssembly.java:165-168 | a jump to the target is always requested, and nothing else changes |
| `Simulator.Machine.mystic_falls` | mars/mips/instructions/customlangs/TheVampireDiariesAssembly.java:177-180 | `$rt` receives `$rs`; no other register changes |
| `Simulator.Machine.cure` | mars/mips/instructions/customlangs/TheVampireDiariesAssembly.java:189-192 | `$rt` becomes 0; no other register changes |
| `Simulator.Machine.swap_bodies` | mars/mips/instructions/customlangs/TheVampireDiariesAssembly.java:304-309 | `(x, y)` becomes `(y, x)`, a register swapped with itself keeps its value, and every other register is untouched |
| `Simulator.Machine.daylight_ring` | mars/mips/instructions/customlangs/TheVampireDiariesAssembly.java:201-205 | bit 0 of `$rt` is set, every other bit and every other register unchanged |
| `Simulator.Machine.vervain_ring` | mars/mips/instructions/customlangs/TheVampireDiariesAssembly.java:230-234 | bit 1 of `$rt` is set, every other bit and every other register unchanged |
| `Simulator.Machine.daytime` | mars/mips/instructions/customlangs/TheVampireDiariesAssembly.java:214-221 | with bit 0 set nothing changes; otherwise `$rt` becomes `$rt - signext(imm)` (wrapping) |
| `Simulator.Machine.compel` | mars/mips/instructions/customlangs/TheVampireDiariesAssembly.java:243-249 | as written: when bit 1 of the register number is clear, the register becomes that number with bit 2 set; otherwise nothing changes |
| `Simulator.Machine.CompelCorrected` | mars/mips/instructions/customlangs/TheVampireDiariesAssembly.java:239 | as described: bit 2 of `$rt` is set unless bit 1 of its value is set |
| `Simulator.CompelIntended` | mars/mips/instructions/customlangs/TheVampireDiariesAssembly.java:239 | compel as described changes no bit other than bit 2 |
| `Simulator.Machine.stake` | mars/mips/instructions/customlangs/TheVampireDiariesAssembly.java:271-276 | bit 8 of `$rt` is set (other bits and registers unchanged), and one "`rt` staked by `rs`" line is appended |
| `Simulator.Machine.grimoire` | mars/mips/instructions/customlangs/TheVampireDiariesAssembly.java:285-295 | if `$rt - signext(imm)` is negative, `$rt` becomes exactly 256 and one "killed by" line is appended; otherwise `$rt` becomes that difference and nothing is printed |
| `Simulator.Grimoire` | mars/mips/instructions/customlangs/TheVampireDiariesAssembly.java:288-294 | the value grimoire leaves is never negative |
| `InstructionFacts.DrainUndoesFeed` | mars/mips/instructions/customlangs/TheVampireDiariesAssembly.java:53 | subtracting what was added gives the original word, wrapping included |
| `InstructionFacts.FeedUndoesDrain` | mars/mips/instructions/customlangs/TheVampireDiariesAssembly.java:67 | adding back what was subtracted gives the original word |
| `InstructionFacts.DrainSelf` | mars/mips/instructions/customlangs/TheVampireDiariesAssembly.java:51-53 | draining a register from itself gives 0 |
| `InstructionFacts.DaylightRingProtects` | mars/mips/instructions/customlangs/TheVampireDiariesAssembly.java:216-220 | a value wearing the daylight ring comes out of daytime unchanged |
| `InstructionFacts.DaytimeWithoutRing` | mars/mips/instructions/customlangs/TheVampireDiariesAssembly.java:218-219 | without the ring, daytime removes exactly the sign-extended immediate |
| `InstructionFacts.DaytimeCanSetRingBit` | mars/mips/instructions/customlangs/TheVampireDiariesAssembly.java:217-219 | daytime from 0 with immediate 1 gives all ones, so bit 0 ends up set |
| `InstructionFacts.GrimoireKillIsZeroHealthKilled` | mars/mips/instructions/customlangs/TheVampireDiariesAssembly.java:289-291 | a killing spell leaves health 0 with the killed flag set, and no other bit |
| `InstructionFacts.GrimoireSpares` | mars/mips/instructions/customlangs/TheVampireDiariesAssembly.java:288 | a non-killing spell removes exactly the sign-extended immediate |
| `InstructionFacts.GrimoireZeroSpell` | mars/mips/instructions/customlangs/TheVampireDiariesAssembly.java:287-294 | a zero spell leaves a non-negative health as it is |
| `InstructionFacts.CompelAsWrittenIgnoresValue` | mars/mips/instructions/customlangs/TheVampireDiariesAssembly.java:245-248 | as written, when compel writes, the value it writes does not depend on the register's old value |
| `InstructionFacts.CompelDiscrepancy` | mars/mips/instructions/customlangs/TheVampireDiariesAssembly.java:239-248 | register 8 holding 2 (vervain set): as written compel writes 12, as described the value stays 2 |
| `InstructionFacts.CompelIntendedCompels` | mars/mips/instructions/customlangs/TheVampireDiariesAssembly.java:239 | as described, a value without vervain gains bit 2 |
| `InstructionFacts.VervainRingProtects` | mars/mips/instructions/customlangs/TheVampireDiariesAssembly.java:232-248 | as described, a value given vervain is not changed by compel |
| `InstructionFacts.EffectiveAddressAligned` | mars/mips/instructions/customlangs/TheVampireDiariesAssembly.java:95-98 | an aligned base plus an offset that is a multiple of 4 passes the alignment check |
| `Scenarios.StoreThenLoad` | mars/mips/instructions/customlangs/TheVampireDiariesAssembly.java:91-128 | as written, for any offset field: drink after blood_bag with the same operands succeeds exactly when the store did and returns the stored word; an offset naming no register faults both; a failed store changes nothing |
| `Scenarios.StoreThenLoadCorrected` | mars/mips/instructions/customlangs/TheVampireDiariesAssembly.java:86-112 | the same round trip through the corrected pair, for any offset |
| `Scenarios.BloodBagReadsOffsetAsRegister` | mars/mips/instructions/customlangs/TheVampireDiariesAssembly.java:94-98 | `blood_bag $Elena, 0($Stefan)` with register 0 holding 0 faults as misaligned as written (address 9); corrected, the word lands at the aligned address in `$Stefan` |
| `Scenarios.DrinkReadsOffsetAsRegister` | mars/mips/instructions/customlangs/TheVampireDiariesAssembly.java:118-121 | as written, `drink $Elena, 0($Stefan)` with register 0 holding 0 faults as misaligned (address 9) and leaves every register, `$Elena` included, unchanged |
| `Scenarios.DrinkCorrectedLoadsFromBase` | mars/mips/instructions/customlangs/TheVampireDiariesAssembly.java:111-112 | as described, `drink $Elena, 0($Stefan)` with `$Stefan` holding an aligned mapped address loads the word there into `$Elena`, and no other register changes |
| `Scenarios.FeedThenDrain` | mars/mips/instructions/customlangs/TheVampireDiariesAssembly.java:48-68 | feed then drain of the same addend restores the value |
| `Scenarios.SwapTwice` | mars/mips/instructions/customlangs/TheVampireDiariesAssembly.java:304-309 | swapping twice restores every register |
| `Scenarios.DrainFiveThree` | mars/mips/instructions/customlangs/TheVampireDiariesAssembly.java:48-54 | `drain $Elena, $Stefan, $Damon` with 5 and 3 leaves 2 |
| `Scenarios.RingThenDaytime` | mars/mips/instructions/customlangs/TheVampireDiariesAssembly.java:201-221 | daylight_ring then daytime leaves only the ring bit changed |
| `Scenarios.DaytimeAllOnes` | mars/mips/instructions/customlangs/TheVampireDiariesAssembly.java:214-221 | daytime on `0xFFFFFFFF` changes nothing |
| `Scenarios.GrimoireKillsAtHundred` | mars/mips/instructions/customlangs/TheVampireDiariesAssembly.java:285-295 | a health of 100 hit by 150 ends as 256 with one killing announced |
| `Scenarios.StakeTwice` | mars/mips/instructions/customlangs/TheVampireDiariesAssembly.java:271-276 | a second stake leaves the register as the first one did, and prints a second line |
| `Scenarios.SummonLoadsRegisterNumber` | mars/mips/instructions/customlangs/TheVampireDiariesAssembly.java:33-39 | as written, `summon $Elena, $zero, 100` loads 0, the number of `$zero` |
| `Scenarios.SummonCorrectedLoadsHundred` | mars/mips/instructions/customlangs/TheVampireDiariesAssembly.java:28-29 | as described, `summon $Elena, $zero, 100` loads 100 |
| `Scenarios.SummonCorrectedLoadsImmediate` | mars/mips/instructions/customlangs/TheVampireDiariesAssembly.java:28-29 | summon as described loads any immediate already in [-32768, 32767] unchanged |
| `Scenarios.CompelIgnoresVervain` | mars/mips/instructions/customlangs/TheVampireDiariesAssembly.java:243-249 | as written, `compel $Elena` on a vervain-protected 2 writes 12 |
| `Scenarios.CompelCorrectedRespectsVervain` | mars/mips/instructions/customlangs/TheVampireDiariesAssembly.java:239 | as described, `compel $Elena` on a vervain-protected 2 leaves the 2 |

## Left out

- `getName`, `getDescription` and the instruction help strings: display text only.
- The bit-template strings, instruction formats and opcode matching: the MARS decoder does these. Overlapping opcodes such as `001111` for `compel` and `grimoire` are resolved there too, and so is the extraction of operands from the instruction word. The model takes the operand values the decoder hands over.
- Appending the instructions to the MARS instruction list in `populate()`: registration with the host, with no semantics of its own.
- MARS memory internals (`setWord`/`getWord`): memory is a map whose domain is the set of addresses the host accepts. Any refusal is one fault, `MemoryAccess`.
- One map domain stands for the addresses accepted for writing and for reading alike; a host that accepted a write at an address but refused a read there is not modelled. `Scenarios.StoreThenLoad` relies on this for `stored == loaded` when the store fails.
- `RegisterFile.getValue` on a number outside 0..31, which `blood_bag` and `drink` reach through their offset field: host code that is not part of this model. The model stops both instructions with the single fault `NoSuchRegister` before anything changes. The tag also stands for any number above 31 that the host maps to one of its internal registers, whose values the model does not hold.
- The text of the `ProcessingException` messages: faults are the tags `NoSuchRegister`, `Misaligned` and `MemoryAccess`.
- `processBranch` and `processJump`, the host's program-counter logic: the model records only the transfer requested.
- `SystemIO.printString` and integer-to-string formatting: a printed line is an abstract `Event` that carries the two register numbers it names.
- `RegisterFile.getNumber`: a parameter `hostNumber` of `GetRegisterNumber`. An unknown name gets whatever that resolver answers, unchanged.
- `RegisterFile.updateRegister`'s treatment of register 0: writes are plain array updates.
- The check that register operands lie in 0..31: MARS does it before an execution step, so the model states it as `requires IsRegister(…)`. The offset field of `blood_bag` and `drink` is not a register operand and is not restricted.
- Signed integer readings: stated on bit patterns (`IsNegative`, `IsInt16`) rather than as `int` values. Reasoning through conversions between bit-vectors and integers is beyond the solver budget this model keeps to.
- `LongProduct.LongProductLow`: its body writes `Widen` and `Narrow` out inline for each sign combination instead of calling them, and no lemma proves it equal to `Narrow(Widen(a) * Widen(b))` with the calls; with the 64-bit product between the calls that equality is out of the solver's reach. `Widen`, `Narrow` and `NarrowWiden` state the casts themselves.

## Findings

| source | as written | input that shows it | evidently intended | confidence | as-written member | corrected member |
|---|---|---|---|---|---|---|
| mars/mips/instructions/customlangs/TheVampireDiariesAssembly.java:36 | `summon $rt, $rs, $imm` sign-extends `operands[1]`, the number of register `$rs`, and loads that | `summon $Elena, $zero, 100` leaves 0 in `$Elena` (`Scenarios.SummonLoadsRegisterNumber`; corrected: `Scenarios.SummonCorrectedLoadsHundred`) | load the sign-extended immediate `operands[2]` (100), as the instruction's description says | high; not executed | `Simulator.Machine.summon` | `Simulator.Machine.SummonCorrected` |
| mars/mips/instructions/customlangs/TheVampireDiariesAssembly.java:245-248 | `compel` tests bit 1 of the register number `operands[0]` and writes the number OR 4 | `$Elena` (register 8) holding 2, vervain set: becomes 12 (`InstructionFacts.CompelDiscrepancy`, `Scenarios.CompelIgnoresVervain`; corrected: `Scenarios.CompelCorrectedRespectsVervain`) | test bit 1 of the register's value and, if clear, set bit 2 of that value; 2 stays 2 | high; not executed | `Simulator.Machine.compel` | `Simulator.Machine.CompelCorrected` |
| mars/mips/instructions/customlangs/TheVampireDiariesAssembly.java:94-96 | `blood_bag $rt, offset($rs)` takes the base register from `operands[1]`, the offset field, and sign-extends `operands[2]`, the number of `$rs`, as the offset | `blood_bag $Elena, 0($Stefan)` with register 0 holding 0: address `0 + 9`, misaligned, so the store faults (`Scenarios.BloodBagReadsOffsetAsRegister`) | address = value of `$rs` + sign-extended offset, as in MIPS `sw`; the round trip holds on the corrected pair (`Scenarios.StoreThenLoadCorrected`) | high; not executed | `Simulator.Machine.blood_bag` | `Simulator.Machine.BloodBagCorrected` |
| mars/mips/instructions/customlangs/TheVampireDiariesAssembly.java:118 | `drink $rt, offset($rs)` computes its address the same way, from `operands[1]` as a register and `operands[2]` as the offset | `drink $Elena, 0($Stefan)` with register 0 holding 0 faults on address 9 (`Scenarios.DrinkReadsOffsetAsRegister`) | address = value of `$rs` + sign-extended offset, as in MIPS `lw` (`Scenarios.DrinkCorrectedLoadsFromBase`) | high; not executed | `Simulator.Machine.drink` | `Simulator.Machine.DrinkCorrected` |
