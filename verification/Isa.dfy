/** The RRISC instruction set (pytools/isa.py): 12-bit words, their fields, the two
    packing functions, and the decoded form of an instruction.

    Python shifts and masks on non-negative integers are written as `/` and `%`, and the
    OR of disjoint bit fields as `+`; both are exact. */
module Isa {

  type Word = x: int | 0 <= x < 4096
  type Reg = x: int | 0 <= x < 8
  type Imm6 = x: int | 0 <= x < 64
  type Bit = x: int | 0 <= x < 2

  /** `v & WORD_MASK`, for a value of either sign. */
  function Mask12(v: int): Word { v % 4096 }

  lemma MaskId(v: int)
    requires 0 <= v < 4096
    ensures Mask12(v) == v
  {
  }

  // Opcodes (bits 11:9) and the sub-opcodes of OP_SPEC (bits 2:0).
  const OP_AND := 0
  const OP_SUB := 1
  const OP_ADD := 2
  const OP_ADDC := 3
  const OP_LUI := 4
  const OP_ADDI := 5
  const OP_SUBI := 6
  const OP_SPEC := 7

  const RB_JALR := 0
  const RB_ROR := 1
  const RB_ROL := 2
  const RB_LWR := 3
  const RB_SWR := 4

  /** Bitwise AND of two natural numbers. */
  function BitAnd(a: nat, b: nat): (r: nat)
    ensures r <= a && r <= b
  {
    if a == 0 then 0
    else 2 * BitAnd(a / 2, b / 2) + (if a % 2 == 1 && b % 2 == 1 then 1 else 0)
  }

  /** Bitwise OR of two natural numbers. */
  function BitOr(a: nat, b: nat): nat
    decreases a + b
  {
    if a == 0 && b == 0 then 0
    else 2 * BitOr(a / 2, b / 2) + (if a % 2 == 1 || b % 2 == 1 then 1 else 0)
  }

  /** Bitwise exclusive OR of two natural numbers. */
  function BitXor(a: nat, b: nat): nat
    decreases a + b
  {
    if a == 0 && b == 0 then 0
    else 2 * BitXor(a / 2, b / 2) + (if a % 2 != b % 2 then 1 else 0)
  }

  /** A number of `k` one bits. */
  function Ones(k: nat): nat {
    if k == 0 then 0 else 2 * Ones(k - 1) + 1
  }

  /** ANDing with `k` one bits keeps a number of at most `k` bits. */
  lemma {:induction false} AndOnes(a: nat, k: nat)
    requires a <= Ones(k)
    ensures BitAnd(a, Ones(k)) == a
    decreases k
  {
    if k != 0 {
      AndOnes(a / 2, k - 1);
      assert Ones(k) / 2 == Ones(k - 1) && Ones(k) % 2 == 1;
    }
  }

  lemma DivModUnique(a: int, m: int, q: int, r: int)
    requires m > 0 && 0 <= r < m && a == q * m + r
    ensures a / m == q && a % m == r
  {
    var q', r' := a / m, a % m;
    SmallMultiple(q - q', m, r' - r);
  }

  lemma SmallMultiple(k: int, m: int, d: int)
    requires m > 0 && -m < d < m && k * m == d
    ensures k == 0
  {
    assert k <= 0;
    assert k >= 0;
  }

  lemma {:induction false} AndZero(a: nat)
    ensures BitAnd(a, 0) == 0
  {
    if a != 0 { AndZero(a / 2); }
  }

  /** `x & r7` is `x`: the runtime's register move. */
  lemma AndFull(a: Word)
    ensures BitAnd(a, 4095) == a
  {
    assert Ones(12) == 4095 by {
      assert Ones(4) == 15;
      assert Ones(8) == 255;
    }
    AndOnes(a, 12);
  }

  /** OR and XOR from AND and addition: the identities behind the synthetic instructions. */
  lemma {:induction false} OrXorFromAnd(a: nat, b: nat)
    ensures a + b - BitAnd(a, b) == BitOr(a, b)
    ensures a + b - 2 * BitAnd(a, b) == BitXor(a, b)
    decreases a + b
  {
    if a != 0 || b != 0 { OrXorFromAnd(a / 2, b / 2); }
  }

  /** `encode_r3`. */
  function EncodeR3(op: int, rd: int, ra: int, rb: int): Word {
    op % 8 * 512 + rd % 8 * 64 + ra % 8 * 8 + rb % 8
  }

  /** `encode_ri`. */
  function EncodeRi(op: int, rd: int, imm6: int): Word {
    op % 8 * 512 + rd % 8 * 64 + imm6 % 64
  }

  /** `branch_offset`: rd = 7 gives -64..-1, anything else 0..63. */
  function BranchOffset(rd: int, imm6: int): int {
    if rd == 7 then imm6 % 64 - 64 else imm6 % 64
  }

  /** What a word asks the processor to do. `Other` is a word that fits no instruction. */
  datatype Instr =
    | And(rd: Reg, ra: Reg, rb: Reg)
    | Sub(rd: Reg, ra: Reg, rb: Reg)
    | Add(rd: Reg, ra: Reg, rb: Reg)
    | Addc(rd: Reg, ra: Reg, rb: Reg)
    | Bf(off: int)
    | Bt(off: int)
    | Lui(rd: Reg, imm: Imm6)
    | Addi(rd: Reg, imm: Imm6)
    | Subi(rd: Reg, imm: Imm6)
    | Jalr(rd: Reg, ra: Reg)
    | Ror(rd: Reg, ra: Reg)
    | Rol(rd: Reg, ra: Reg)
    | Lwr(rd: Reg, ra: Reg)
    | Swr(rd: Reg, ra: Reg)
    | Halt
    | Other

  /** The dispatch of `CPU.step` on the fields of a word; `halt` says the word is 0o7777. */
  function FromFields(op: Reg, rd: Reg, ra: Reg, rb: Reg, imm: Imm6, halt: bool): Instr {
    if op == 0 then And(rd, ra, rb)
    else if op == 1 then Sub(rd, ra, rb)
    else if op == 2 then Add(rd, ra, rb)
    else if op == 3 then Addc(rd, ra, rb)
    else if op == 4 && (rd == 0 || rd == 7) then Bf(BranchOffset(rd, imm))
    else if op == 5 && (rd == 0 || rd == 7) then Bt(BranchOffset(rd, imm))
    else if op == 4 then Lui(rd, imm)
    else if op == 5 then Addi(rd, imm)
    else if op == 6 then Subi(rd, imm)
    else if rb == 0 then Jalr(rd, ra)
    else if rb == 1 then Ror(rd, ra)
    else if rb == 2 then Rol(rd, ra)
    else if rb == 3 then Lwr(rd, ra)
    else if rb == 4 then Swr(rd, ra)
    else if halt then Halt
    else Other
  }

  /** The field split of `decode`, dispatched as in `CPU.step`. */
  function Decode(w: Word): Instr {
    FromFields(w / 512 % 8, w / 64 % 8, w / 8 % 8, w % 8, w % 64, w == 4095)
  }

  /** An instruction the assembler can emit: branches reach -64..63, and `lui` and `addi`
      do not name r0 or r7. */
  predicate Encodable(i: Instr) {
    match i
    case Bf(off) => -64 <= off < 64
    case Bt(off) => -64 <= off < 64
    case Lui(rd, _) => 0 < rd < 7
    case Addi(rd, _) => 0 < rd < 7
    case Other => false
    case _ => true
  }

  /** The assembler's word for each instruction. */
  function Encode(i: Instr): Word
    requires Encodable(i)
  {
    match i
    case And(rd, ra, rb) => EncodeR3(OP_AND, rd, ra, rb)
    case Sub(rd, ra, rb) => EncodeR3(OP_SUB, rd, ra, rb)
    case Add(rd, ra, rb) => EncodeR3(OP_ADD, rd, ra, rb)
    case Addc(rd, ra, rb) => EncodeR3(OP_ADDC, rd, ra, rb)
    case Bf(off) => EncodeRi(OP_LUI, if off < 0 then 7 else 0, off)
    case Bt(off) => EncodeRi(OP_ADDI, if off < 0 then 7 else 0, off)
    case Lui(rd, imm) => EncodeRi(OP_LUI, rd, imm)
    case Addi(rd, imm) => EncodeRi(OP_ADDI, rd, imm)
    case Subi(rd, imm) => EncodeRi(OP_SUBI, rd, imm)
    case Jalr(rd, ra) => EncodeR3(OP_SPEC, rd, ra, RB_JALR)
    case Ror(rd, ra) => EncodeR3(OP_SPEC, rd, ra, RB_ROR)
    case Rol(rd, ra) => EncodeR3(OP_SPEC, rd, ra, RB_ROL)
    case Lwr(rd, ra) => EncodeR3(OP_SPEC, rd, ra, RB_LWR)
    case Swr(rd, ra) => EncodeR3(OP_SPEC, rd, ra, RB_SWR)
    case Halt => 4095
  }

  lemma FieldsR3(op: Reg, rd: Reg, ra: Reg, rb: Reg)
    ensures var w := EncodeR3(op, rd, ra, rb);
            w / 512 % 8 == op && w / 64 % 8 == rd && w / 8 % 8 == ra && w % 8 == rb
  {
    Small(op); Small(rd); Small(ra); Small(rb);
    var w := EncodeR3(op, rd, ra, rb);
    Split(op, 512, rd * 64 + ra * 8 + rb);
    Split(op * 8 + rd, 64, ra * 8 + rb);
    Split(op * 64 + rd * 8 + ra, 8, rb);
    Split(op, 8, rd);
    Split(op * 8 + rd, 8, ra);
  }

  lemma FieldsRi(op: Reg, rd: Reg, imm6: int)
    ensures var w := EncodeRi(op, rd, imm6);
            w / 512 % 8 == op && w / 64 % 8 == rd && w % 64 == imm6 % 64
  {
    Small(op); Small(rd);
    Split(op, 512, rd * 64 + imm6 % 64);
    Split(op * 8 + rd, 64, imm6 % 64);
    Split(op, 8, rd);
  }

  lemma Small(x: Reg)
    ensures x % 8 == x
  {
  }

  lemma Split(hi: int, m: int, lo: int)
    requires 0 <= lo < m
    ensures (hi * m + lo) / m == hi && (hi * m + lo) % m == lo
  {
    DivModUnique(hi * m + lo, m, hi, lo);
  }

  /** Every encodable instruction survives the trip through its word. */
  lemma DecodeEncode(i: Instr)
    requires Encodable(i)
    ensures Decode(Encode(i)) == i
  {
    hide Decode, Encode;
    if i.And? || i.Sub? || i.Add? || i.Addc? { DecodeArithmetic(i); }
    else if i.Bf? || i.Bt? || i.Lui? || i.Addi? || i.Subi? { DecodeImmediate(i); }
    else { DecodeSpecial(i); }
  }

  lemma DecodeArithmetic(i: Instr)
    requires i.And? || i.Sub? || i.Add? || i.Addc?
    ensures Decode(Encode(i)) == i
  {
    hide Decode, EncodeR3, EncodeRi;
    match i
    case And(rd, ra, rb) => DecodeR3(0, rd, ra, rb);
    case Sub(rd, ra, rb) => DecodeR3(1, rd, ra, rb);
    case Add(rd, ra, rb) => DecodeR3(2, rd, ra, rb);
    case Addc(rd, ra, rb) => DecodeR3(3, rd, ra, rb);
  }

  lemma DecodeImmediate(i: Instr)
    requires Encodable(i) && (i.Bf? || i.Bt? || i.Lui? || i.Addi? || i.Subi?)
    ensures Decode(Encode(i)) == i
  {
    hide Decode, EncodeR3, EncodeRi;
    match i
    case Bf(off) => DecodeRi(4, if off < 0 then 7 else 0, off);
    case Bt(off) => DecodeRi(5, if off < 0 then 7 else 0, off);
    case Lui(rd, imm) => DecodeRi(4, rd, imm);
    case Addi(rd, imm) => DecodeRi(5, rd, imm);
    case Subi(rd, imm) => DecodeRi(6, rd, imm);
  }

  lemma DecodeSpecial(i: Instr)
    requires i.Jalr? || i.Ror? || i.Rol? || i.Lwr? || i.Swr? || i.Halt?
    ensures Decode(Encode(i)) == i
  {
    hide Decode, EncodeR3, EncodeRi;
    match i
    case Jalr(rd, ra) => DecodeR3(7, rd, ra, 0);
    case Ror(rd, ra) => DecodeR3(7, rd, ra, 1);
    case Rol(rd, ra) => DecodeR3(7, rd, ra, 2);
    case Lwr(rd, ra) => DecodeR3(7, rd, ra, 3);
    case Swr(rd, ra) => DecodeR3(7, rd, ra, 4);
    case Halt => DecodeHalt();
  }

  lemma DecodeHalt()
    ensures Decode(4095) == Halt
  {
  }

  lemma DecodeR3(op: Reg, rd: Reg, ra: Reg, rb: Reg)
    requires op < 4 || (op == 7 && rb < 5)
    ensures Decode(EncodeR3(op, rd, ra, rb)) == FromFields(op, rd, ra, rb, 0, false)
  {
    FieldsR3(op, rd, ra, rb);
    hide EncodeR3;
  }

  lemma DecodeRi(op: Reg, rd: Reg, imm6: int)
    requires 4 <= op < 7
    ensures Decode(EncodeRi(op, rd, imm6)) == FromFields(op, rd, 0, 0, imm6 % 64, false)
  {
    FieldsRi(op, rd, imm6);
    hide EncodeRi;
  }
}
