/** Patched ARM instructions. Thumb immediates are spread over four fields and treated bit by bit;
    ARM64 words are taken apart with division and remainder, since their immediates enter address
    arithmetic. */
module Instructions {
  import opened Options
  import opened Words

  // ------------------------------------------------------------------ Thumb MOVW and MOVT

  /** A 32-bit Thumb instruction as its two halfwords, each in the low half of a word. */
  datatype Thumb = Thumb(op1: bv32, op2: bv32)

  /** Patches the low 16 bits of `v` into the instruction. */
  function ApplyMOV(i: Thumb, v: bv32): Thumb {
    Thumb((i.op1 & 0xfbf0) | ((v & 0x800) >> 1) | ((v >> 12) & 0xf),
          (i.op2 & 0x8f00) | ((v & 0x700) << 4) | (v & 0xff))
  }

  /** The immediate of a MOVW or MOVT instruction, as `readMOV` extracts it. */
  function ImmediateOf(i: Thumb): bv32 {
    (i.op2 & 0x00ff) | ((i.op2 >> 4) & 0x0700) | ((i.op1 << 1) & 0x0800) | ((i.op1 & 0x000f) << 12)
  }

  /** What `readMOV` does not complain about. */
  predicate IsMOV(i: Thumb, movt: bool) {
    i.op1 & 0xfbf0 == (if movt then 0xf2c0 else 0xf240) && i.op2 & 0x8000 == 0
  }

  /** Everything but the immediate: opcode and destination register. */
  function OpcodeOf(i: Thumb): Thumb {
    Thumb(i.op1 & 0xfbf0, i.op2 & 0x8f00)
  }

  /** The immediate is imm4:i:imm3:imm8: four bits at bit 0 and one at bit 10 of the first halfword,
      three at bit 12 and eight at bit 0 of the second. */
  lemma MOVEncoding(op1: bv32, op2: bv32)
    ensures ImmediateOf(Thumb(op1, op2)) ==
      ((op1 & 0xf) << 12) | (((op1 >> 10) & 1) << 11) | (((op2 >> 12) & 7) << 8) | (op2 & 0xff)
  {
  }

  /** The patched instruction has the new immediate. */
  lemma MOVImmediate(i: Thumb, v: bv32)
    ensures ImmediateOf(ApplyMOV(i, v)) == v & 0xffff
  {
  }

  /** Nothing else has changed. */
  lemma MOVOpcode(i: Thumb, v: bv32)
    ensures OpcodeOf(ApplyMOV(i, v)) == OpcodeOf(i)
  {
  }

  /** So it is still the instruction it was. */
  lemma MOVStays(i: Thumb, v: bv32, movt: bool)
    requires IsMOV(i, movt)
    ensures IsMOV(ApplyMOV(i, v), movt)
  {
  }

  /** A MOVW and MOVT pair. */
  datatype Pair = Pair(low: Thumb, high: Thumb)

  function Join(low: bv32, high: bv32): bv32 {
    low | (high << 16)
  }

  /** The 32-bit constant that the pair loads. */
  function Loaded(m: Pair): bv32 {
    Join(ImmediateOf(m.low), ImmediateOf(m.high))
  }

  function Patched(m: Pair, w: bv32): Pair {
    Pair(ApplyMOV(m.low, w), ApplyMOV(m.high, w >> 16))
  }

  /** Addition modulo 2^32. */
  function Plus(a: bv32, b: bv32): bv32 {
    a + b
  }

  function ApplyMOV32T(m: Pair, v: bv32): Pair {
    Patched(m, Plus(v, Loaded(m)))
  }

  lemma Halves(w: bv32, low: bv32, high: bv32)
    requires low == w & 0xffff && high == (w >> 16) & 0xffff
    ensures Join(low, high) == w
  {
  }

  lemma PatchedLoads(m: Pair, w: bv32)
    ensures Loaded(Patched(m, w)) == w
  {
    MOVImmediate(m.low, w);
    MOVImmediate(m.high, w >> 16);
    Halves(w, ImmediateOf(ApplyMOV(m.low, w)), ImmediateOf(ApplyMOV(m.high, w >> 16)));
  }

  lemma PatchedKeeps(m: Pair, w: bv32)
    ensures OpcodeOf(Patched(m, w).low) == OpcodeOf(m.low) && OpcodeOf(Patched(m, w).high) == OpcodeOf(m.high)
  {
    MOVOpcode(m.low, w);
    MOVOpcode(m.high, w >> 16);
  }

  lemma PlusAdds(a: bv32, b: bv32, sum: bv32)
    requires sum == Plus(a, b)
    ensures sum == a + b
  {
  }

  lemma LoadsSum(m: Pair, v: bv32)
    ensures Loaded(ApplyMOV32T(m, v)) == Plus(v, Loaded(m))
  {
    PatchedLoads(m, Plus(v, Loaded(m)));
  }

  /** The patched pair loads the old constant plus `v`, as 32-bit words, that is modulo 2^32. */
  lemma MOV32TAdds(m: Pair, v: bv32, was: bv32, now: bv32)
    requires was == Loaded(m) && now == Loaded(ApplyMOV32T(m, v))
    ensures now == v + was
  {
    LoadsSum(m, v);
    PlusAdds(v, was, now);
  }

  /** Opcodes and registers stay. */
  lemma MOV32TKeepsOpcodes(m: Pair, v: bv32)
    ensures OpcodeOf(ApplyMOV32T(m, v).low) == OpcodeOf(m.low) && OpcodeOf(ApplyMOV32T(m, v).high) == OpcodeOf(m.high)
  {
    PatchedKeeps(m, Plus(v, Loaded(m)));
  }

  // ------------------------------------------------------------------ ARM64 ADRP and ADD

  const TWO_12: nat := 0x1000
  const TWO_20: int := 0x10_0000
  const TWO_21: int := 0x20_0000

  /** Bits `at` upwards of a word, `size` being two to their number. */
  function Field(w: nat, at: nat, size: nat): (r: nat)
    requires at > 0 && size > 0
  {
    w / at % size
  }

  /** The low 21 bits of a number, read as a signed number. */
  function Wrap21(x: int): (r: int)
    ensures -TWO_20 <= r < TWO_20
  {
    if x % TWO_21 < TWO_20 then x % TWO_21 else x % TWO_21 - TWO_21
  }

  lemma WrapSmall(x: int)
    requires -TWO_20 <= x < TWO_20
    ensures Wrap21(x) == x
  {
  }

  /** An ADR or ADRP instruction has the two low bits of its immediate at bit 29, the other 19 at bit 5. */
  function AdrLow(w: nat): nat { Field(w, 0x2000_0000, 4) }

  function AdrHigh(w: nat): nat { Field(w, 0x20, 0x8_0000) }

  function AdrImmediate(w: nat): int {
    Wrap21(AdrHigh(w) * 4 + AdrLow(w))
  }

  /** The word without its immediate. */
  function AdrOther(w: nat): (nat, nat, nat) {
    (Field(w, 0x8000_0000, 2), Field(w, 0x100_0000, 0x20), w % 0x20)
  }

  function SetAdr(w: nat, imm: int): nat
    requires w < TWO_32
  {
    AdrWord(AdrOther(w), imm % 4, imm / 4 % 0x8_0000)
  }

  /** A word from its fields. */
  function AdrWord(other: (nat, nat, nat), low: nat, high: nat): nat {
    other.0 * 0x8000_0000 + low * 0x2000_0000 + other.1 * 0x100_0000 + high * 0x20 + other.2
  }

  lemma AdrLowIs(other: (nat, nat, nat), low: nat, high: nat)
    requires other.0 < 2 && other.1 < 0x20 && other.2 < 0x20 && low < 4 && high < 0x8_0000
    ensures AdrWord(other, low, high) < TWO_32 && AdrLow(AdrWord(other, low, high)) == low
  {
    Shifted29(other.0, low, other.1 * 0x100_0000 + high * 0x20 + other.2);
  }

  lemma Shifted29(x: nat, f: nat, r: nat)
    requires f < 4 && r < 0x2000_0000
    ensures (x * 0x8000_0000 + f * 0x2000_0000 + r) / 0x2000_0000 == x * 4 + f
    ensures (x * 4 + f) % 4 == f
  {
  }

  lemma AdrHighIs(other: (nat, nat, nat), low: nat, high: nat)
    requires other.0 < 2 && other.1 < 0x20 && other.2 < 0x20 && low < 4 && high < 0x8_0000
    ensures AdrHigh(AdrWord(other, low, high)) == high
  {
    Shifted5(other.0 * 0x80 + low * 0x20 + other.1, high, other.2);
  }

  lemma Shifted5(x: nat, f: nat, r: nat)
    requires f < 0x8_0000 && r < 0x20
    ensures (x * 0x100_0000 + f * 0x20 + r) / 0x20 == x * 0x8_0000 + f
    ensures (x * 0x8_0000 + f) % 0x8_0000 == f
  {
  }

  lemma Shifted24(x: nat, f: nat, r: nat)
    requires f < 0x20 && r < 0x100_0000
    ensures (x * 0x2000_0000 + f * 0x100_0000 + r) / 0x100_0000 == x * 0x20 + f
    ensures (x * 0x20 + f) % 0x20 == f
  {
  }

  lemma Lowest5(x: nat, r: nat)
    requires r < 0x20
    ensures (x * 0x20 + r) % 0x20 == r
  {
  }

  lemma Highest(x: nat, r: nat)
    requires x < 2 && r < 0x8000_0000
    ensures (x * 0x8000_0000 + r) / 0x8000_0000 % 2 == x
  {
  }

  lemma AdrOtherIs(other: (nat, nat, nat), low: nat, high: nat)
    requires other.0 < 2 && other.1 < 0x20 && other.2 < 0x20 && low < 4 && high < 0x8_0000
    ensures AdrOther(AdrWord(other, low, high)) == other
  {
    var w := AdrWord(other, low, high);
    assert w % 0x20 == other.2 by {
      Lowest5(other.0 * 0x400_0000 + low * 0x100_0000 + other.1 * 0x8_0000 + high, other.2);
    }
    assert Field(w, 0x100_0000, 0x20) == other.1 by {
      Shifted24(other.0 * 4 + low, other.1, high * 0x20 + other.2);
    }
    assert Field(w, 0x8000_0000, 2) == other.0 by {
      Highest(other.0, low * 0x2000_0000 + other.1 * 0x100_0000 + high * 0x20 + other.2);
    }
  }

  lemma LowAndHigh(imm: int, low: nat, high: nat)
    requires low == imm % 4 && high == imm / 4 % 0x8_0000
    ensures high * 4 + low == imm % TWO_21
  {
  }

  lemma WrapModulo(x: int, y: int)
    requires y == x % TWO_21
    ensures Wrap21(y) == Wrap21(x)
  {
  }

  /** An immediate put together from its parts. */
  lemma ImmediateIs(w: nat, imm: int, low: nat, high: nat)
    requires AdrLow(w) == low && AdrHigh(w) == high && high * 4 + low == imm % TWO_21
    ensures AdrImmediate(w) == Wrap21(imm)
  {
    WrapModulo(imm, high * 4 + low);
  }

  /** The new immediate is what was put in, modulo 2^21. */
  lemma AdrImmediateSet(w: nat, imm: int)
    requires w < TWO_32
    ensures AdrImmediate(SetAdr(w, imm)) == Wrap21(imm)
  {
    var other, low, high := AdrOther(w), imm % 4, imm / 4 % 0x8_0000;
    AdrOtherBounds(w);
    AdrLowIs(other, low, high);
    AdrHighIs(other, low, high);
    LowAndHigh(imm, low, high);
    ImmediateIs(AdrWord(other, low, high), imm, low, high);
  }

  /** No other bit changes. */
  lemma AdrOtherKept(w: nat, imm: int)
    requires w < TWO_32
    ensures SetAdr(w, imm) < TWO_32 && AdrOther(SetAdr(w, imm)) == AdrOther(w)
  {
    AdrOtherBounds(w);
    AdrLowIs(AdrOther(w), imm % 4, imm / 4 % 0x8_0000);
    AdrOtherIs(AdrOther(w), imm % 4, imm / 4 % 0x8_0000);
  }

  lemma AdrOtherBounds(w: nat)
    requires w < TWO_32
    ensures AdrOther(w).0 < 2 && AdrOther(w).1 < 0x20 && AdrOther(w).2 < 0x20
  {
  }

  /** How many units lie between the units of two addresses. */
  function Distance(s: nat, p: nat, unit: nat): int
    requires unit > 0
  {
    s / unit - p / unit
  }

  function Plus64(s: nat, imm: int): nat {
    (s + imm) % TWO_64
  }

  /** The old immediate is an addend to the target `s`; the new one is the distance in units of `unit`
      (one, or the page size for ADRP). */
  function ApplyArm64Addr(w: nat, s: nat, p: nat, unit: nat): nat
    requires w < TWO_32 && unit > 0
  {
    SetAdr(w, Distance(Plus64(s, AdrImmediate(w)), p, unit))
  }

  /** The new immediate is the distance in units from `p` to the target plus the old immediate, and
      no other bit changes. */
  lemma AddrPatched(w: nat, s: nat, p: nat, unit: nat)
    requires w < TWO_32 && unit > 0
    ensures var r := ApplyArm64Addr(w, s, p, unit);
      r < TWO_32 && AdrOther(r) == AdrOther(w) &&
        AdrImmediate(r) == Wrap21((s + AdrImmediate(w)) % 0x1_0000_0000_0000_0000 / unit - p / unit)
  {
    DistanceIs(s, AdrImmediate(w), p, unit);
    AddrPatchedBy(w, s, p, unit, Distance(Plus64(s, AdrImmediate(w)), p, unit));
  }

  lemma DistanceIs(s: nat, imm: int, p: nat, unit: nat)
    requires unit > 0
    ensures Distance(Plus64(s, imm), p, unit) == (s + imm) % 0x1_0000_0000_0000_0000 / unit - p / unit
  {
  }

  lemma AddrPatchedBy(w: nat, s: nat, p: nat, unit: nat, imm: int)
    requires w < TWO_32 && unit > 0 && imm == Distance(Plus64(s, AdrImmediate(w)), p, unit)
    ensures var r := ApplyArm64Addr(w, s, p, unit);
      r < TWO_32 && AdrOther(r) == AdrOther(w) && AdrImmediate(r) == Wrap21(imm)
  {
    AdrImmediateSet(w, imm);
    AdrOtherKept(w, imm);
  }

  /** The 12-bit immediate of an ADD, load or store instruction sits at bit 10. */
  function AddImmediate(w: nat): nat { Field(w, 0x400, 0x1000) }

  function AddOther(w: nat): (nat, nat) {
    (w / 0x40_0000, w % 0x400)
  }

  function SetAdd(w: nat, imm: nat): nat {
    AddOther(w).0 * 0x40_0000 + imm * 0x400 + AddOther(w).1
  }

  /** `limit` is 2 to the power 12 minus the range limit. */
  function ApplyArm64Imm(w: nat, imm: nat, limit: nat): nat
    requires 0 < limit <= TWO_12
  {
    SetAdd(w, (imm + AddImmediate(w)) % TWO_64 % limit)
  }

  lemma AddFields(w: nat, imm: nat)
    requires w < TWO_32 && imm < TWO_12
    ensures var r := SetAdd(w, imm); r < TWO_32 && AddImmediate(r) == imm && AddOther(r) == AddOther(w)
  {
    AddParts(w / 0x40_0000, imm, w % 0x400);
  }

  lemma AddParts(high: nat, imm: nat, low: nat)
    requires high < 0x400 && imm < TWO_12 && low < 0x400
    ensures var r := high * 0x40_0000 + imm * 0x400 + low;
      r < TWO_32 && r / 0x400 == high * 0x1000 + imm && r % 0x400 == low && r / 0x40_0000 == high
    ensures (high * 0x1000 + imm) % 0x1000 == imm
  {
  }

  /** The immediate grows by `imm` within its range, and no other bit changes. */
  lemma ImmPatched(w: nat, imm: nat, limit: nat)
    requires w < TWO_32 && 0 < limit <= TWO_12
    ensures var r := ApplyArm64Imm(w, imm, limit);
      r < TWO_32 && AddOther(r) == AddOther(w) && AddImmediate(r) == (imm + AddImmediate(w)) % TWO_64 % limit
  {
    AddFields(w, (imm + AddImmediate(w)) % TWO_64 % limit);
  }

  // ------------------------------------------------------------------ the range extension thunk

  const ADRP_X16: nat := 0x9000_0010
  const ADD_X16: nat := 0x9100_0210

  /** The two instructions the thunk at `rva` starts with. */
  function ThunkAdrp(target: nat, rva: nat): nat {
    ApplyArm64Addr(ADRP_X16, target, rva, TWO_12)
  }

  function ThunkAdd(target: nat): nat {
    ApplyArm64Imm(ADD_X16, target % TWO_12, TWO_12)
  }

  lemma ThunkStarts()
    ensures AdrImmediate(ADRP_X16) == 0 && AddImmediate(ADD_X16) == 0
  {
  }

  lemma AdrpIs(w: nat, target: nat, rva: nat)
    requires w < TWO_32 && AdrImmediate(w) == 0 && target < TWO_32 && rva < TWO_32
    ensures var r := ApplyArm64Addr(w, target, rva, TWO_12);
      AdrImmediate(r) == Distance(target, rva, TWO_12) && AdrOther(r) == AdrOther(w)
  {
    AddrPatchedBy(w, target, rva, TWO_12, Distance(Plus64(target, 0), rva, TWO_12));
    PlusZero(target);
    DistanceSmall(target, rva);
    WrapSmall(Distance(target, rva, TWO_12));
  }

  lemma PlusZero(s: nat)
    requires s < TWO_64
    ensures Plus64(s, 0) == s
  {
  }

  /** The linker fills in the distance of the pages and touches nothing else. */
  lemma ThunkAdrpIs(target: nat, rva: nat)
    requires target < TWO_32 && rva < TWO_32
    ensures AdrImmediate(ThunkAdrp(target, rva)) == Distance(target, rva, TWO_12)
    ensures AdrOther(ThunkAdrp(target, rva)) == AdrOther(ADRP_X16)
  {
    ThunkStarts();
    AdrpIs(ADRP_X16, target, rva);
  }

  lemma DistanceSmall(target: nat, rva: nat)
    requires target < TWO_32 && rva < TWO_32
    ensures -TWO_20 <= Distance(target, rva, TWO_12) < TWO_20
  {
  }

  /** And the offset in the page. */
  lemma ThunkAddIs(target: nat)
    ensures AddImmediate(ThunkAdd(target)) == target % TWO_12 && AddOther(ThunkAdd(target)) == AddOther(ADD_X16)
  {
    ImmPatched(ADD_X16, target % TWO_12, TWO_12);
    ThunkStarts();
  }

  // ------------------------------------------------------------------ running the thunk

  const BR_X16: nat := 0xd61f_0200

  /** The program counter and the registers x0 to x30. */
  datatype Cpu = Cpu(pc: nat, x: seq<nat>)

  /** Bits from `bit` on, `size` of them, both given as powers of two. */
  function Bits(w: nat, bit: nat, size: nat): nat
    requires bit > 0 && size > 0
  {
    w / bit % size
  }

  /** What an instruction does, for the three that the thunk is made of. */
  function Execute(w: nat, cpu: Cpu): Option<Cpu>
    requires |cpu.x| == 31
  {
    var rd, rn := Bits(w, 1, 32), Bits(w, 32, 32);
    if Bits(w, 0x8000_0000, 2) == 1 && Bits(w, 0x100_0000, 32) == 0x10 && rd < 31 then
      // ADRP: op 1, then immlo, 10000, immhi, Rd
      var imm := Bits(w, 32, 0x8_0000) * 4 + Bits(w, 0x2000_0000, 4);
      var pages := if imm >= 0x10_0000 then imm - 0x20_0000 else imm;
      Some(Cpu(cpu.pc + 4, cpu.x[rd := (cpu.pc - cpu.pc % 0x1000 + pages * 0x1000) % 0x1_0000_0000_0000_0000]))
    else if Bits(w, 0x40_0000, 0x400) == 0x244 && rd < 31 && rn < 31 then
      // ADD (immediate), 64 bits, not shifted: imm12, Rn, Rd
      Some(Cpu(cpu.pc + 4, cpu.x[rd := (cpu.x[rn] + Bits(w, 0x400, 0x1000)) % 0x1_0000_0000_0000_0000]))
    else if Bits(w, 0x400, 0x40_0000) == 0x35_87c0 && rd == 0 && rn < 31 then
      // BR: Rn
      Some(Cpu(cpu.x[rn], cpu.x))
    else None
  }

  lemma AdrpExecutes(w: nat, d: int, cpu: Cpu)
    requires w < TWO_32 && |cpu.x| == 31 && AdrOther(w) == AdrOther(ADRP_X16) && AdrImmediate(w) == d
    ensures Execute(w, cpu) ==
      Some(Cpu(cpu.pc + 4, cpu.x[16 := (cpu.pc - cpu.pc % 0x1000 + d * 0x1000) % 0x1_0000_0000_0000_0000]))
  {
    AdrpFields(w);
    ImmediateSigned(AdrHigh(w), AdrLow(w));
  }

  lemma AdrpFields(w: nat)
    requires AdrOther(w) == AdrOther(ADRP_X16)
    ensures Bits(w, 0x8000_0000, 2) == 1 && Bits(w, 0x100_0000, 32) == 0x10 && Bits(w, 1, 32) == 16
    ensures Bits(w, 32, 0x8_0000) == AdrHigh(w) && Bits(w, 0x2000_0000, 4) == AdrLow(w)
  {
  }

  lemma ImmediateSigned(high: nat, low: nat)
    requires high < 0x8_0000 && low < 4
    ensures var imm := high * 4 + low; Wrap21(imm) == if imm >= 0x10_0000 then imm - 0x20_0000 else imm
  {
  }

  lemma AddExecutes(w: nat, imm: nat, cpu: Cpu)
    requires w < TWO_32 && |cpu.x| == 31 && AddOther(w) == AddOther(ADD_X16) && AddImmediate(w) == imm
    ensures Execute(w, cpu) ==
      Some(Cpu(cpu.pc + 4, cpu.x[16 := (cpu.x[16] + imm) % 0x1_0000_0000_0000_0000]))
  {
    AddFieldsAre(w);
  }

  lemma AddFieldsAre(w: nat)
    requires w < TWO_32 && AddOther(w) == AddOther(ADD_X16)
    ensures Bits(w, 0x8000_0000, 2) == 1 && Bits(w, 0x100_0000, 32) == 0x11 && Bits(w, 0x40_0000, 0x400) == 0x244
    ensures Bits(w, 1, 32) == 16 && Bits(w, 32, 32) == 16 && Bits(w, 0x400, 0x1000) == AddImmediate(w)
  {
    assert w / 0x40_0000 == 0x244 && w % 0x400 == 0x210;
    var imm := w / 0x400 % 0x1000;
    assert w == 0x244 * 0x40_0000 + imm * 0x400 + 0x210;
    AddWord(imm, w);
  }

  lemma AddWord(imm: nat, w: nat)
    requires imm < 0x1000 && w == 0x244 * 0x40_0000 + imm * 0x400 + 0x210
    ensures w / 0x8000_0000 == 1 && w / 0x100_0000 == 0x91 && w / 0x40_0000 == 0x244
    ensures w % 32 == 16 && w / 32 % 32 == 16
  {
    Lowest5(0x244 * 0x2_0000 + imm * 0x20 + 16, 16);
    assert w / 32 == (0x244 * 0x1000 + imm) * 0x20 + 16;
    Lowest5(0x244 * 0x1000 + imm, 16);
  }

  lemma BranchExecutes(cpu: Cpu)
    requires |cpu.x| == 31
    ensures Execute(BR_X16, cpu) == Some(Cpu(cpu.x[16], cpu.x))
  {
  }

  /** Page of the program counter, plus distance, plus offset. */
  lemma PagesMeet(base: nat, rva: nat, target: nat, pc: nat)
    requires base % 0x1000 == 0 && pc == base + rva
    ensures pc - pc % 0x1000 + Distance(target, rva, TWO_12) * 0x1000 + target % TWO_12 == base + target
  {
  }

  lemma SumsModulo(a: int, b: int)
    ensures (a % TWO_64 + b) % TWO_64 == (a + b) % TWO_64
  {
  }

  /** The thunk's three instructions, one after the other. */
  function RunThunk(target: nat, rva: nat, cpu: Cpu): Option<Cpu>
    requires |cpu.x| == 31 && target < TWO_32 && rva < TWO_32
  {
    var first := Execute(ThunkAdrp(target, rva), cpu);
    if first.None? then None
    else
      var second := Execute(ThunkAdd(target), first.value);
      if second.None? then None else Execute(BR_X16, second.value)
  }

  /** Wherever the image is loaded, and whatever the registers hold, the three instructions of the
      thunk jump to its target and change no register but x16. */
  lemma ThunkReachesTarget(target: nat, rva: nat, base: nat, cpu: Cpu)
    requires target < TWO_32 && rva < TWO_32 && base % 0x1000 == 0 && |cpu.x| == 31 && cpu.pc == base + rva
    ensures var address := (base + target) % 0x1_0000_0000_0000_0000;
      RunThunk(target, rva, cpu) == Some(Cpu(address, cpu.x[16 := address]))
  {
    var d := Distance(target, rva, TWO_12);
    var page := (cpu.pc - cpu.pc % 0x1000 + d * 0x1000) % 0x1_0000_0000_0000_0000;
    var address := (page + target % TWO_12) % 0x1_0000_0000_0000_0000;
    var first, second := Cpu(cpu.pc + 4, cpu.x[16 := page]), Cpu(cpu.pc + 8, cpu.x[16 := address]);
    assert Execute(ThunkAdrp(target, rva), cpu) == Some(first) by { AdrpRuns(target, rva, cpu, d); }
    assert Execute(ThunkAdd(target), first) == Some(second) by { AddRuns(target, first, cpu.x, page); }
    BranchExecutes(second);
    AddressIs(base, rva, target, cpu.pc, d, page);
  }

  lemma AdrpRuns(target: nat, rva: nat, cpu: Cpu, d: int)
    requires target < TWO_32 && rva < TWO_32 && |cpu.x| == 31 && d == Distance(target, rva, TWO_12)
    ensures Execute(ThunkAdrp(target, rva), cpu) ==
      Some(Cpu(cpu.pc + 4, cpu.x[16 := (cpu.pc - cpu.pc % 0x1000 + d * 0x1000) % 0x1_0000_0000_0000_0000]))
  {
    ThunkAdrpIs(target, rva);
    AdrpExecutes(ThunkAdrp(target, rva), d, cpu);
  }

  lemma AddRuns(target: nat, cpu: Cpu, x: seq<nat>, page: nat)
    requires |x| == 31 && cpu.x == x[16 := page]
    ensures Execute(ThunkAdd(target), cpu) ==
      Some(Cpu(cpu.pc + 4, x[16 := (page + target % TWO_12) % 0x1_0000_0000_0000_0000]))
  {
    ThunkAddIs(target);
    AddExecutes(ThunkAdd(target), target % TWO_12, cpu);
    TwiceUpdated(x, page, (page + target % TWO_12) % 0x1_0000_0000_0000_0000);
  }

  lemma AddressIs(base: nat, rva: nat, target: nat, pc: nat, d: int, page: int)
    requires base % 0x1000 == 0 && pc == base + rva && d == Distance(target, rva, TWO_12)
    requires page == (pc - pc % 0x1000 + d * 0x1000) % 0x1_0000_0000_0000_0000
    ensures (page + target % TWO_12) % 0x1_0000_0000_0000_0000 == (base + target) % 0x1_0000_0000_0000_0000
  {
    PagesMeet(base, rva, target, pc);
    SumsModulo(pc - pc % 0x1000 + d * 0x1000, target % TWO_12);
  }

  lemma TwiceUpdated(x: seq<nat>, a: nat, b: nat)
    requires |x| > 16
    ensures x[16 := a][16 := b] == x[16 := b]
  {
  }
}
