/** The integer runtime in machine code (lib/librcc.s), run by `Machine.Run`.

    The text section is 127 words long; `Code(k)` is its k-th instruction, with every local
    label replaced by the offset the assembler computes.  The section may sit anywhere in
    memory, even across the wrap from 0o7777 to 0. */
module Librcc {
  import opened Isa
  import opened Machine

  const MUL := 0
  const UDIV := 9
  const UMOD := 24
  const DIV := 39
  const MOD := 90

  function MulCode(k: nat): Instr {
    if k == 0 then And(1, 0, 0) else if k == 1 then Sub(0, 0, 2) else if k == 2 then Bf(5)
    else if k == 3 then Add(1, 1, 3) else if k == 4 then Subi(2, 1)
    else if k == 5 then Sub(0, 0, 7) else if k == 6 then Bt(-5) else if k == 7 then And(2, 1, 7)
    else Jalr(0, 5)
  }

  function UdivCode(k: nat): Instr {
    if k == 9 then Sub(0, 0, 2) else if k == 10 then Bf(12) else if k == 11 then And(4, 3, 7)
    else if k == 12 then And(2, 2, 7) else if k == 13 then And(1, 0, 0)
    else if k == 14 then Sub(0, 4, 2) else if k == 15 then Bt(5)
    else if k == 16 then Sub(4, 4, 2) else if k == 17 then Addi(1, 1)
    else if k == 18 then Sub(0, 0, 7) else if k == 19 then Bt(-5)
    else if k == 20 then And(2, 1, 7) else if k == 21 then Jalr(0, 5)
    else if k == 22 then And(2, 0, 0) else Jalr(0, 5)
  }

  function UmodCode(k: nat): Instr {
    if k == 24 then Sub(0, 0, 2) else if k == 25 then Bf(12) else if k == 26 then And(4, 3, 7)
    else if k == 27 then And(2, 2, 7) else if k == 28 then And(1, 0, 0)
    else if k == 29 then Sub(0, 4, 2) else if k == 30 then Bt(5)
    else if k == 31 then Sub(4, 4, 2) else if k == 32 then Addi(1, 1)
    else if k == 33 then Sub(0, 0, 7) else if k == 34 then Bt(-5)
    else if k == 35 then And(2, 4, 7) else if k == 36 then Jalr(0, 5)
    else if k == 37 then And(2, 0, 0) else Jalr(0, 5)
  }

  function DivHead(k: nat): Instr {
    if k == 39 then Sub(0, 0, 2) else if k == 40 then Bf(48) else if k == 41 then Subi(6, 1)
    else if k == 42 then Swr(5, 6) else if k == 43 then And(1, 3, 7)
    else if k == 44 then Rol(1, 1) else if k == 45 then Rol(4, 0)
    else if k == 46 then Subi(6, 1) else if k == 47 then Swr(4, 6)
    else if k == 48 then And(1, 2, 7) else if k == 49 then Rol(1, 1)
    else if k == 50 then Rol(4, 0) else if k == 51 then Subi(6, 1) else Swr(4, 6)
  }

  function DivMiddle(k: nat): Instr {
    if k == 53 then And(1, 6, 7) else if k == 54 then Addi(1, 1) else if k == 55 then Lwr(4, 1)
    else if k == 56 then Sub(0, 0, 4) else if k == 57 then Bf(2)
    else if k == 58 then Sub(3, 0, 3) else if k == 59 then And(1, 6, 7)
    else if k == 60 then Lwr(4, 1) else if k == 61 then Sub(0, 0, 4) else if k == 62 then Bf(2)
    else if k == 63 then Sub(2, 0, 2) else if k == 64 then And(4, 3, 7)
    else if k == 65 then And(1, 0, 0) else if k == 66 then Sub(0, 4, 2)
    else if k == 67 then Bt(5) else if k == 68 then Sub(4, 4, 2) else if k == 69 then Addi(1, 1)
    else if k == 70 then Sub(0, 0, 7) else Bt(-5)
  }

  function DivTail(k: nat): Instr {
    if k == 72 then And(2, 1, 7) else if k == 73 then And(1, 6, 7)
    else if k == 74 then Lwr(1, 1) else if k == 75 then Addi(6, 1)
    else if k == 76 then And(4, 6, 7) else if k == 77 then Lwr(4, 4)
    else if k == 78 then Addi(6, 1) else if k == 79 then Add(1, 1, 4)
    else if k == 80 then Subi(1, 1) else if k == 81 then Sub(0, 0, 1) else if k == 82 then Bt(2)
    else if k == 83 then Sub(2, 0, 2) else if k == 84 then And(1, 6, 7)
    else if k == 85 then Lwr(5, 1) else if k == 86 then Addi(6, 1)
    else if k == 87 then Jalr(0, 5) else if k == 88 then And(2, 0, 0) else Jalr(0, 5)
  }

  function ModHead(k: nat): Instr {
    if k == 90 then Sub(0, 0, 2) else if k == 91 then Bf(34) else if k == 92 then Subi(6, 1)
    else if k == 93 then Swr(5, 6) else if k == 94 then And(1, 3, 7)
    else if k == 95 then Rol(1, 1) else if k == 96 then Rol(4, 0)
    else if k == 97 then Subi(6, 1) else if k == 98 then Swr(4, 6)
    else if k == 99 then Sub(0, 0, 4) else if k == 100 then Bf(2)
    else if k == 101 then Sub(3, 0, 3) else if k == 102 then And(1, 2, 7)
    else if k == 103 then Rol(1, 1) else if k == 104 then Bf(2)
    else if k == 105 then Sub(2, 0, 2) else if k == 106 then And(4, 3, 7) else And(1, 0, 0)
  }

  function ModTail(k: nat): Instr {
    if k == 108 then Sub(0, 4, 2) else if k == 109 then Bt(5) else if k == 110 then Sub(4, 4, 2)
    else if k == 111 then Addi(1, 1) else if k == 112 then Sub(0, 0, 7)
    else if k == 113 then Bt(-5) else if k == 114 then And(1, 6, 7)
    else if k == 115 then Lwr(1, 1) else if k == 116 then Addi(6, 1)
    else if k == 117 then Sub(0, 0, 1) else if k == 118 then Bf(2)
    else if k == 119 then Sub(4, 0, 4) else if k == 120 then And(2, 4, 7)
    else if k == 121 then And(1, 6, 7) else if k == 122 then Lwr(5, 1)
    else if k == 123 then Addi(6, 1) else if k == 124 then Jalr(0, 5)
    else if k == 125 then And(2, 0, 0) else Jalr(0, 5)
  }

  function Code(k: nat): Instr {
    if k < 9 then MulCode(k) else if k < 24 then UdivCode(k) else if k < 39 then UmodCode(k)
    else if k < 53 then DivHead(k) else if k < 72 then DivMiddle(k) else if k < 90 then DivTail(k)
    else if k < 108 then ModHead(k) else ModTail(k)
  }

  lemma CodeEncodable(k: nat)
    ensures Encodable(Code(k))
  {
  }

  function At(b: Word, k: int): Word { Mask12(b + k) }

  /** The word at offset `k` is the library's. */
  ghost predicate Holds(mem: Memory, b: Word, k: nat) {
    Encodable(Code(k)) && Read(mem, At(b, k)) == Encode(Code(k))
  }

  /** The assembled section is in memory from address `b` on. */
  ghost predicate Loaded(mem: Memory, b: Word) { forall k: nat | k < 127 :: Holds(mem, b, k) }

  lemma FetchCode(s: State, b: Word, k: nat)
    requires Loaded(s.mem, b) && k < 127 && s.pc == At(b, k)
    ensures Fetch(s) == Code(k)
  {
    hide Code;
    assert Holds(s.mem, b, k);
    DecodeEncode(Code(k));
    hide Encode, Decode;
  }

  /** One more step of a run, through the instruction at offset `k`. */
  lemma RunCode(s: State, b: Word, k: nat, n: nat)
    requires Loaded(s.mem, b) && k < 127 && s.pc == At(b, k) && n > 0
    ensures Run(s, n) == Run(Exec(s, Code(k)), n - 1)
  {
    FetchCode(s, b, k);
    hide Fetch, Exec, Code;
  }

  lemma GotoAt(b: Word, k: int, off: int)
    ensures Mask12(At(b, k) + off) == At(b, k + off)
  {
  }

  /** Where the instruction at offset `k` sends the program counter. */
  function PcAfter(s: State, b: Word, k: int, i: Instr): Word {
    match i
    case Bf(off) => At(b, if s.t == 0 then k + off else k + 1)
    case Bt(off) => At(b, if s.t == 0 then k + 1 else k + off)
    case Jalr(_, ra) => s.Get(ra)
    case _ => At(b, k + 1)
  }

  lemma SetKeepsPc(s: State, r: Reg, v: int)
    ensures s.Set(r, v).pc == s.pc
  {
    hide Mask12;
  }

  lemma ExecPc(s: State, b: Word, k: nat, i: Instr)
    requires s.pc == At(b, k)
    ensures Exec(s, i).pc == PcAfter(s, b, k, i)
  {
    hide Mask12, At, BitAnd, Read, Write, State.Set, State.Get;
    GotoAt(b, k, 1);
    var n := s.Next();
    match i
    case Bf(off) => GotoAt(b, k, off);
    case Bt(off) => GotoAt(b, k, off);
    case And(rd, ra, rb) => SetKeepsPc(n, rd, BitAnd(s.Get(ra), s.Get(rb)));
    case Sub(rd, ra, rb) => SetKeepsPc(n, rd, s.Get(ra) - s.Get(rb));
    case Add(rd, ra, rb) => SetKeepsPc(n, rd, s.Get(ra) + s.Get(rb));
    case Addc(rd, ra, rb) => SetKeepsPc(n, rd, s.Get(ra) + s.Get(rb) + s.t);
    case Lui(rd, imm) => SetKeepsPc(n, rd, imm * 64);
    case Addi(rd, imm) => SetKeepsPc(n, rd, s.Get(rd) + imm);
    case Subi(rd, imm) => SetKeepsPc(n, rd, s.Get(rd) - imm);
    case Ror(rd, ra) => SetKeepsPc(n, rd, s.Get(ra) / 2 + s.t * 2048);
    case Rol(rd, ra) => SetKeepsPc(n, rd, s.Get(ra) * 2 % 4096 + s.t);
    case Lwr(rd, ra) => SetKeepsPc(n, rd, Read(s.mem, s.Get(ra)));
    case _ =>
  }

  /** One step of a run, through the instruction `i` at offset `k`. */
  lemma Do(s: State, b: Word, k: nat, n: nat, i: Instr) returns (s': State)
    requires Loaded(s.mem, b) && k < 127 && s.pc == At(b, k) && n > 0 && Code(k) == i
    ensures s' == Exec(s, i) && s'.pc == PcAfter(s, b, k, i)
    ensures Run(s, n) == Run(s', n - 1)
  {
    hide Run, Code, Loaded, Exec, PcAfter;
    RunCode(s, b, k, n);
    ExecPc(s, b, k, i);
    s' := Exec(s, i);
  }

  lemma RunZero(s: State)
    ensures Run(s, 0) == s
  {
  }

  // ---- multiply -----------------------------------------------------------------

  lemma MulText()
    ensures Code(0) == And(1, 0, 0) && Code(1) == Sub(0, 0, 2) && Code(2) == Bf(5)
    ensures Code(3) == Add(1, 1, 3) && Code(4) == Subi(2, 1) && Code(5) == Sub(0, 0, 7)
    ensures Code(6) == Bt(-5) && Code(7) == And(2, 1, 7) && Code(8) == Jalr(0, 5)
  {
  }

  /** One turn of the multiply loop. */
  lemma MulTurn(s: State, b: Word)
    requires Loaded(s.mem, b) && s.pc == At(b, 1) && s.r2 > 0
    ensures Run(s, 6) == s.(r1 := Mask12(s.r1 + s.r3), r2 := Mask12(s.r2 - 1), t := 1)
  {
    hide Loaded, Run, Code, At, Mask12;
    MulText();
    MaskId(s.r2 - 1);
    var s1 := Do(s, b, 1, 6, Sub(0, 0, 2));
    var s2 := Do(s1, b, 2, 5, Bf(5));
    var s3 := Do(s2, b, 3, 4, Add(1, 1, 3));
    var s4 := Do(s3, b, 4, 3, Subi(2, 1));
    var s5 := Do(s4, b, 5, 2, Sub(0, 0, 7));
    var s6 := Do(s5, b, 6, 1, Bt(-5));
    RunZero(s6);
  }

  lemma MulExit(s: State, b: Word)
    requires Loaded(s.mem, b) && s.pc == At(b, 1) && s.r2 == 0
    ensures Run(s, 4) == s.(r2 := s.r1, t := 0, pc := s.r5)
  {
    hide Loaded, Run, Code, At, Mask12, BitAnd;
    MulText();
    MaskId(s.r1);
    AndFull(s.r1);
    var s1 := Do(s, b, 1, 4, Sub(0, 0, 2));
    var s2 := Do(s1, b, 2, 3, Bf(5));
    var s3 := Do(s2, b, 7, 2, And(2, 1, 7));
    var s4 := Do(s3, b, 8, 1, Jalr(0, 5));
    RunZero(s4);
  }

  lemma AddUp(x: int, y: int, k: int)
    ensures Mask12(Mask12(x + y) + (k - 1) * y) == Mask12(x + k * y)
  {
    assert k * y == (k - 1) * y + y;
  }

  lemma {:induction false} MulLoop(s: State, b: Word)
    requires Loaded(s.mem, b) && s.pc == At(b, 1)
    ensures var p := Mask12(s.r1 + s.r2 * s.r3);
            Run(s, 6 * s.r2 + 4) == s.(r1 := p, r2 := p, t := 0, pc := s.r5)
    decreases s.r2
  {
    hide Loaded, Run, At, Mask12;
    if s.r2 == 0 {
      MaskId(s.r1);
      MulExit(s, b);
    } else {
      MulTurn(s, b);
      MaskId(s.r2 - 1);
      var s' := s.(r1 := Mask12(s.r1 + s.r3), r2 := s.r2 - 1, t := 1);
      MulLoop(s', b);
      RunSum(s, 6, 6 * s'.r2 + 4);
      AddUp(s.r1, s.r3, s.r2);
    }
  }

  /** `__mul`: r2 is the product of r2 and r3 modulo 4096; r3, r4, r5, r6 and memory are
      untouched, and the call returns to r5 after 6 * r2 + 5 steps. */
  lemma MulCorrect(s: State, b: Word)
    requires Loaded(s.mem, b) && s.pc == At(b, MUL)
    ensures var p := Mask12(s.r2 * s.r3);
            Run(s, 6 * s.r2 + 5) == s.(r1 := p, r2 := p, t := 0, pc := s.r5)
  {
    hide Loaded, Run, Code, At, Mask12, BitAnd;
    MulText();
    MaskId(0);
    var s1 := Do(s, b, 0, 6 * s.r2 + 5, And(1, 0, 0));
    assert s1 == s.(r1 := 0, pc := At(b, 1)) by { ClearsTo(0); }
    MulLoop(s1, b);
  }

  lemma ClearsTo(x: Word)
    ensures BitAnd(0, x) == 0
  {
  }

  // ---- the division loop, shared by all four routines ---------------------------

  /** The four copies of the repeated-subtraction loop. */
  predicate IsLoop(k: nat) { k == 14 || k == 29 || k == 66 || k == 108 }

  lemma LoopText(k: nat)
    requires IsLoop(k)
    ensures Code(k) == Sub(0, 4, 2) && Code(k + 1) == Bt(5) && Code(k + 2) == Sub(4, 4, 2)
    ensures Code(k + 3) == Addi(1, 1) && Code(k + 4) == Sub(0, 0, 7) && Code(k + 5) == Bt(-5)
    ensures k + 6 < 127
  {
  }

  lemma LoopTurn(s: State, b: Word, k: nat)
    requires IsLoop(k) && Loaded(s.mem, b) && s.pc == At(b, k) && s.r4 >= s.r2
    ensures Run(s, 6) == s.(r4 := s.r4 - s.r2, r1 := Mask12(s.r1 + 1), t := 1)
  {
    hide Loaded, Run, Code, At, Mask12, IsLoop;
    LoopText(k);
    MaskId(s.r4 - s.r2);
    var s1 := Do(s, b, k, 6, Sub(0, 4, 2));
    var s2 := Do(s1, b, k + 1, 5, Bt(5));
    var s3 := Do(s2, b, k + 2, 4, Sub(4, 4, 2));
    var s4 := Do(s3, b, k + 3, 3, Addi(1, 1));
    var s5 := Do(s4, b, k + 4, 2, Sub(0, 0, 7));
    var s6 := Do(s5, b, k + 5, 1, Bt(-5));
    RunZero(s6);
  }

  lemma LoopExit(s: State, b: Word, k: nat)
    requires IsLoop(k) && Loaded(s.mem, b) && s.pc == At(b, k) && s.r4 < s.r2
    ensures Run(s, 2) == s.(t := 1, pc := At(b, k + 6))
  {
    hide Loaded, Run, Code, At, Mask12, IsLoop;
    LoopText(k);
    var s1 := Do(s, b, k, 2, Sub(0, 4, 2));
    var s2 := Do(s1, b, k + 1, 1, Bt(5));
    RunZero(s2);
  }

  lemma DivSmall(n: Word, d: Word)
    requires d > 0
    ensures 0 <= n / d < 4096 && 0 <= n % d < 4096
  {
  }

  /** Unsigned quotient and remainder of two words. */
  function Quot(n: Word, d: Word): Word
    requires d > 0
  {
    DivSmall(n, d);
    n / d
  }

  function Rem(n: Word, d: Word): Word
    requires d > 0
  {
    DivSmall(n, d);
    n % d
  }

  lemma DivSub(n: nat, d: nat)
    requires 0 < d
    ensures n < d ==> n / d == 0 && n % d == n
    ensures d <= n ==> n / d == (n - d) / d + 1 && n % d == (n - d) % d
  {
    if n < d {
      DivModUnique(n, d, 0, n);
    } else {
      var q, r := (n - d) / d, (n - d) % d;
      assert n == (q + 1) * d + r;
      DivModUnique(n, d, q + 1, r);
    }
  }

  /** From the loop head with r1 = x and r4 = n the loop reaches its exit with r1 = x + n / d
      and r4 = n % d. */
  lemma {:induction false} LoopRuns(s: State, b: Word, k: nat)
    requires IsLoop(k) && Loaded(s.mem, b) && s.pc == At(b, k) && s.r2 > 0
    ensures Run(s, 6 * Quot(s.r4, s.r2) + 2)
            == s.(r1 := Mask12(s.r1 + Quot(s.r4, s.r2)), r4 := Rem(s.r4, s.r2), t := 1, pc := At(b, k + 6))
    decreases s.r4
  {
    hide Loaded, Run, At, Mask12, IsLoop;
    DivSub(s.r4, s.r2);
    if s.r4 < s.r2 {
      LoopExit(s, b, k);
      MaskId(s.r1);
    } else {
      LoopTurn(s, b, k);
      var s' := s.(r4 := s.r4 - s.r2, r1 := Mask12(s.r1 + 1), t := 1);
      LoopRuns(s', b, k);
      RunSum(s, 6, 6 * Quot(s'.r4, s'.r2) + 2);
      AddUp(s.r1, 1, Quot(s.r4, s.r2));
    }
  }

  // ---- unsigned divide and remainder --------------------------------------------

  lemma UdivText()
    ensures Code(9) == Sub(0, 0, 2) && Code(10) == Bf(12) && Code(11) == And(4, 3, 7)
    ensures Code(12) == And(2, 2, 7) && Code(13) == And(1, 0, 0)
    ensures Code(20) == And(2, 1, 7) && Code(21) == Jalr(0, 5)
    ensures Code(22) == And(2, 0, 0) && Code(23) == Jalr(0, 5)
    ensures Code(24) == Sub(0, 0, 2) && Code(25) == Bf(12) && Code(26) == And(4, 3, 7)
    ensures Code(27) == And(2, 2, 7) && Code(28) == And(1, 0, 0)
    ensures Code(35) == And(2, 4, 7) && Code(36) == Jalr(0, 5)
    ensures Code(37) == And(2, 0, 0) && Code(38) == Jalr(0, 5)
  {
  }

  /** A zero divisor: four steps and a zero result, in either routine. */
  lemma UnsignedByZero(s: State, b: Word, k: nat)
    requires (k == UDIV || k == UMOD) && Loaded(s.mem, b) && s.pc == At(b, k) && s.r2 == 0
    ensures Run(s, 4) == s.(t := 0, pc := s.r5)
  {
    hide Loaded, Run, Code, At, Mask12, BitAnd;
    UdivText();
    MaskId(0);
    var s1 := Do(s, b, k, 4, Sub(0, 0, 2));
    var s2 := Do(s1, b, k + 1, 3, Bf(12));
    var s3 := Do(s2, b, k + 13, 2, And(2, 0, 0));
    var s4 := Do(s3, b, k + 14, 1, Jalr(0, 5));
    ClearsTo(0);
    RunZero(s4);
  }

  /** The common prologue, up to the loop head. */
  lemma UnsignedEnter(s: State, b: Word, k: nat)
    requires (k == UDIV || k == UMOD) && Loaded(s.mem, b) && s.pc == At(b, k) && s.r2 > 0
    ensures Run(s, 5) == s.(r1 := 0, r4 := s.r3, t := 1, pc := At(b, k + 5))
  {
    hide Loaded, Run, Code, At, Mask12, BitAnd;
    UdivText();
    MaskId(0);
    MaskId(s.r2);
    MaskId(s.r3);
    AndFull(s.r2);
    AndFull(s.r3);
    ClearsTo(0);
    var s1 := Do(s, b, k, 5, Sub(0, 0, 2));
    var s2 := Do(s1, b, k + 1, 4, Bf(12));
    var s3 := Do(s2, b, k + 2, 3, And(4, 3, 7));
    var s4 := Do(s3, b, k + 3, 2, And(2, 2, 7));
    var s5 := Do(s4, b, k + 4, 1, And(1, 0, 0));
    RunZero(s5);
  }

  /** The move of the result into r2 and the return. */
  lemma UnsignedLeave(s: State, b: Word, k: nat)
    requires (k == UDIV || k == UMOD) && Loaded(s.mem, b) && s.pc == At(b, k + 11)
    ensures Run(s, 2) == s.(r2 := if k == UDIV then s.r1 else s.r4, pc := s.r5)
  {
    hide Loaded, Run, Code, At, Mask12, BitAnd;
    UdivText();
    var v := if k == UDIV then s.r1 else s.r4;
    MaskId(v);
    AndFull(v);
    var s1 := Do(s, b, k + 11, 2, if k == UDIV then And(2, 1, 7) else And(2, 4, 7));
    var s2 := Do(s1, b, k + 12, 1, Jalr(0, 5));
    RunZero(s2);
  }

  /** `__udiv` and `__umod`: quotient and remainder of r3 by r2, and zero for a zero divisor.
      r3, r5, r6 and memory are untouched; the step count is explicit. */
  lemma UnsignedCorrect(s: State, b: Word, k: nat)
    requires (k == UDIV || k == UMOD) && Loaded(s.mem, b) && s.pc == At(b, k)
    ensures s.r2 == 0 ==> Run(s, 4) == s.(t := 0, pc := s.r5)
    ensures s.r2 > 0 ==>
              var q, r := Quot(s.r3, s.r2), Rem(s.r3, s.r2);
              Run(s, 6 * q + 9)
              == s.(r1 := q, r2 := if k == UDIV then q else r, r4 := r, t := 1, pc := s.r5)
  {
    hide Loaded, Run, At, Mask12, Quot, Rem;
    if s.r2 == 0 {
      UnsignedByZero(s, b, k);
    } else {
      var q: int := Quot(s.r3, s.r2);
      UnsignedEnter(s, b, k);
      var s1 := s.(r1 := 0, r4 := s.r3, t := 1, pc := At(b, k + 5));
      LoopRuns(s1, b, k + 5);
      MaskId(q);
      var s2 := s1.(r1 := q, r4 := Rem(s.r3, s.r2), t := 1, pc := At(b, k + 11));
      UnsignedLeave(s2, b, k);
      RunSum(s, 5, 6 * q + 2);
      RunSum(s, 6 * q + 7, 2);
    }
  }

  // ---- signed divide and remainder ----------------------------------------------

  /** The sign bit of a word. */
  function Neg(x: Word): Bit { x / 2048 }

  /** The magnitude of a word read as two's complement; -2048 has magnitude 2048. */
  function Mag(x: Word): Word { if x >= 2048 then 4096 - x else x }

  /** A word the callee may use as a stack slot: RAM, outside the loaded section. */
  ghost predicate Free(mem: Memory, b: Word, a: Word) {
    mem[a].Ram? && forall k: nat | k < 127 :: Apart(b, k, a)
  }

  ghost predicate Apart(b: Word, k: nat, a: Word) { At(b, k) != a }

  lemma WriteFree(mem: Memory, b: Word, a: Word, v: Word)
    requires Free(mem, b, a)
    ensures Read(Write(mem, a, v), a) == v
    ensures forall a': Word | a' != a :: Write(mem, a, v)[a'] == mem[a']
    ensures forall a': Word | Free(mem, b, a') :: Free(Write(mem, a, v), b, a')
    ensures Loaded(mem, b) ==> Loaded(Write(mem, a, v), b)
  {
    hide Code, Encode, Encodable, At;
    if Loaded(mem, b) {
      forall k: nat | k < 127 ensures Holds(Write(mem, a, v), b, k) { assert Apart(b, k, a) && Holds(mem, b, k); }
    }
  }

  lemma SlotsDiffer(r6: Word)
    ensures Mask12(r6 - 1) != Mask12(r6 - 2) && Mask12(r6 - 1) != Mask12(r6 - 3)
    ensures Mask12(r6 - 2) != Mask12(r6 - 3)
    ensures Mask12(Mask12(r6 - 1) - 1) == Mask12(r6 - 2)
    ensures Mask12(Mask12(r6 - 2) - 1) == Mask12(r6 - 3)
    ensures Mask12(Mask12(r6 - 3) + 1) == Mask12(r6 - 2)
    ensures Mask12(Mask12(r6 - 2) + 1) == Mask12(r6 - 1)
    ensures Mask12(Mask12(r6 - 1) + 1) == r6
  {
  }

  /** Memory once the return address and the sign of the dividend have been pushed. */
  function Pushed2(mem: Memory, r6: Word, lr: Word, n: Word): Memory {
    Write(Write(mem, Mask12(r6 - 1), lr), Mask12(r6 - 2), Neg(n))
  }

  /** Memory once the sign of the divisor has been pushed as well. */
  function Pushed3(mem: Memory, r6: Word, lr: Word, n: Word, d: Word): Memory {
    Write(Pushed2(mem, r6, lr, n), Mask12(r6 - 3), Neg(d))
  }

  ghost predicate Free2(mem: Memory, b: Word, r6: Word) {
    Free(mem, b, Mask12(r6 - 1)) && Free(mem, b, Mask12(r6 - 2))
  }

  ghost predicate Free3(mem: Memory, b: Word, r6: Word) {
    Free2(mem, b, r6) && Free(mem, b, Mask12(r6 - 3))
  }

  lemma PushedSlots2(mem: Memory, b: Word, r6: Word, lr: Word, n: Word)
    requires Loaded(mem, b) && Free2(mem, b, r6)
    ensures Loaded(Write(mem, Mask12(r6 - 1), lr), b)
    ensures var m := Pushed2(mem, r6, lr, n);
            Loaded(m, b) && (Free3(mem, b, r6) ==> Free3(m, b, r6))
            && Read(m, Mask12(r6 - 1)) == lr && Read(m, Mask12(r6 - 2)) == Neg(n)
            && forall a: Word | a != Mask12(r6 - 1) && a != Mask12(r6 - 2) :: m[a] == mem[a]
  {
    SlotsDiffer(r6);
    hide Loaded, Free, Write, Mask12, Neg;
    WriteFree(mem, b, Mask12(r6 - 1), lr);
    WriteFree(Write(mem, Mask12(r6 - 1), lr), b, Mask12(r6 - 2), Neg(n));
  }

  lemma PushedSlots3(mem: Memory, b: Word, r6: Word, lr: Word, n: Word, d: Word)
    requires Loaded(mem, b) && Free3(mem, b, r6)
    ensures var m := Pushed3(mem, r6, lr, n, d);
            Loaded(m, b) && Read(m, Mask12(r6 - 1)) == lr
            && Read(m, Mask12(r6 - 2)) == Neg(n) && Read(m, Mask12(r6 - 3)) == Neg(d)
            && forall a: Word | a != Mask12(r6 - 1) && a != Mask12(r6 - 2) && a != Mask12(r6 - 3) ::
                 m[a] == mem[a]
  {
    SlotsDiffer(r6);
    hide Loaded, Free, Write, Mask12, Neg, Pushed2;
    PushedSlots2(mem, b, r6, lr, n);
    WriteFree(Pushed2(mem, r6, lr, n), b, Mask12(r6 - 3), Neg(d));
  }

  lemma NegRol(x: Word)
    ensures Neg(x) == x / 2048 && Mask12(Neg(x)) == Neg(x) && (0 < Neg(x) <==> x >= 2048)
    ensures Mask12(0 * 2 % 4096 + Neg(x)) == Neg(x)
    ensures Mask12(if Neg(x) > 0 then 0 - x else x) == Mag(x)
  {
  }

  lemma DivHeadText()
    ensures Code(39) == Sub(0, 0, 2) && Code(40) == Bf(48) && Code(41) == Subi(6, 1)
    ensures Code(42) == Swr(5, 6) && Code(43) == And(1, 3, 7) && Code(44) == Rol(1, 1)
    ensures Code(45) == Rol(4, 0) && Code(46) == Subi(6, 1) && Code(47) == Swr(4, 6)
  {
  }

  lemma ModHeadText()
    ensures Code(90) == Sub(0, 0, 2) && Code(91) == Bf(34) && Code(92) == Subi(6, 1)
    ensures Code(93) == Swr(5, 6) && Code(94) == And(1, 3, 7) && Code(95) == Rol(1, 1)
    ensures Code(96) == Rol(4, 0) && Code(97) == Subi(6, 1) && Code(98) == Swr(4, 6)
  {
  }

  lemma ZeroText()
    ensures Code(88) == And(2, 0, 0) && Code(89) == Jalr(0, 5)
    ensures Code(125) == And(2, 0, 0) && Code(126) == Jalr(0, 5)
  {
  }

  lemma SignedByZero(s: State, b: Word, k: nat)
    requires (k == DIV || k == MOD) && Loaded(s.mem, b) && s.pc == At(b, k) && s.r2 == 0
    ensures Run(s, 4) == s.(t := 0, pc := s.r5)
  {
    hide Loaded, Run, Code, At, Mask12, BitAnd;
    DivHeadText();
    ModHeadText();
    ZeroText();
    MaskId(0);
    ClearsTo(0);
    var z := if k == DIV then 88 else 125;
    var s1 := Do(s, b, k, 4, Sub(0, 0, 2));
    var s2 := Do(s1, b, k + 1, 3, Bf(if k == DIV then 48 else 34));
    var s3 := Do(s2, b, z, 2, And(2, 0, 0));
    var s4 := Do(s3, b, z + 1, 1, Jalr(0, 5));
    RunZero(s4);
  }

  /** Both routines first test the divisor and save the return address. */
  lemma SaveReturn(s: State, b: Word, k: nat) returns (s': State)
    requires (k == DIV || k == MOD) && Loaded(s.mem, b) && s.pc == At(b, k) && s.r2 > 0
    ensures s' == Run(s, 4)
    ensures s'.pc == At(b, k + 4) && s'.r2 == s.r2 && s'.r3 == s.r3
    ensures s'.r5 == s.r5 && s'.r6 == Mask12(s.r6 - 1) && s'.running == s.running
    ensures s'.mem == Write(s.mem, Mask12(s.r6 - 1), s.r5)
  {
    hide Loaded, Run, Code, At, Mask12, Write;
    DivHeadText();
    ModHeadText();
    var s1 := Do(s, b, k, 4, Sub(0, 0, 2));
    var s2 := Do(s1, b, k + 1, 3, Bf(if k == DIV then 48 else 34));
    var s3 := Do(s2, b, k + 2, 2, Subi(6, 1));
    var s4 := Do(s3, b, k + 3, 1, Swr(5, 6));
    RunZero(s4);
    s' := s4;
  }

  /** Then they push the sign bit of the dividend. */
  lemma SaveSign(s: State, b: Word, k: nat) returns (s': State)
    requires (k == DIV || k == MOD) && Loaded(s.mem, b) && s.pc == At(b, k + 4)
    ensures s' == Run(s, 5)
    ensures s'.pc == At(b, k + 9) && s'.r2 == s.r2 && s'.r3 == s.r3 && s'.r4 == Neg(s.r3)
    ensures s'.r5 == s.r5 && s'.r6 == Mask12(s.r6 - 1) && s'.running == s.running
    ensures s'.mem == Write(s.mem, Mask12(s.r6 - 1), Neg(s.r3))
  {
    hide Loaded, Run, Code, At, Mask12, Write, BitAnd, Neg;
    DivHeadText();
    ModHeadText();
    MaskId(s.r3);
    AndFull(s.r3);
    NegRol(s.r3);
    var s1 := Do(s, b, k + 4, 5, And(1, 3, 7));
    var s2 := Do(s1, b, k + 5, 4, Rol(1, 1));
    var s3 := Do(s2, b, k + 6, 3, Rol(4, 0));
    var s4 := Do(s3, b, k + 7, 2, Subi(6, 1));
    var s5 := Do(s4, b, k + 8, 1, Swr(4, 6));
    RunZero(s5);
    s' := s5;
  }

  lemma SignedEnter(s: State, b: Word, k: nat) returns (s': State)
    requires (k == DIV || k == MOD) && Loaded(s.mem, b) && s.pc == At(b, k) && s.r2 > 0
    requires Free2(s.mem, b, s.r6)
    ensures s' == Run(s, 9)
    ensures s'.pc == At(b, k + 9) && s'.r2 == s.r2 && s'.r3 == s.r3 && s'.r4 == Neg(s.r3)
    ensures s'.r5 == s.r5 && s'.r6 == Mask12(s.r6 - 2) && s'.running == s.running
    ensures s'.mem == Pushed2(s.mem, s.r6, s.r5, s.r3)
  {
    hide Loaded, Run, At, Mask12, Write, Free, Read, Neg;
    SlotsDiffer(s.r6);
    PushedSlots2(s.mem, b, s.r6, s.r5, s.r3);
    var s1 := SaveReturn(s, b, k);
    s' := SaveSign(s1, b, k);
    RunSum(s, 4, 5);
  }

  lemma DivSignText()
    ensures Code(48) == And(1, 2, 7) && Code(49) == Rol(1, 1) && Code(50) == Rol(4, 0)
    ensures Code(51) == Subi(6, 1) && Code(52) == Swr(4, 6)
  {
  }

  lemma DivMagText()
    ensures Code(53) == And(1, 6, 7) && Code(54) == Addi(1, 1) && Code(55) == Lwr(4, 1)
    ensures Code(56) == Sub(0, 0, 4) && Code(57) == Bf(2) && Code(58) == Sub(3, 0, 3)
    ensures Code(59) == And(1, 6, 7) && Code(60) == Lwr(4, 1) && Code(61) == Sub(0, 0, 4)
    ensures Code(62) == Bf(2) && Code(63) == Sub(2, 0, 2) && Code(64) == And(4, 3, 7)
    ensures Code(65) == And(1, 0, 0)
  {
  }

  lemma DivTailText()
    ensures Code(72) == And(2, 1, 7) && Code(73) == And(1, 6, 7) && Code(74) == Lwr(1, 1)
    ensures Code(75) == Addi(6, 1) && Code(76) == And(4, 6, 7) && Code(77) == Lwr(4, 4)
    ensures Code(78) == Addi(6, 1) && Code(79) == Add(1, 1, 4) && Code(80) == Subi(1, 1)
  {
  }

  lemma DivLeaveText()
    ensures Code(81) == Sub(0, 0, 1) && Code(82) == Bt(2) && Code(83) == Sub(2, 0, 2)
    ensures Code(84) == And(1, 6, 7) && Code(85) == Lwr(5, 1) && Code(86) == Addi(6, 1)
    ensures Code(87) == Jalr(0, 5)
  {
  }

  /** `__div` pushes the sign bit of the divisor as well. */
  lemma DivSaveSign(s: State, b: Word) returns (s': State)
    requires Loaded(s.mem, b) && s.pc == At(b, 48)
    ensures s' == Run(s, 5)
    ensures s'.pc == At(b, 53) && s'.r2 == s.r2 && s'.r3 == s.r3
    ensures s'.r5 == s.r5 && s'.r6 == Mask12(s.r6 - 1) && s'.running == s.running
    ensures s'.mem == Write(s.mem, Mask12(s.r6 - 1), Neg(s.r2))
  {
    hide Loaded, Run, Code, At, Mask12, Write, BitAnd, Neg;
    DivSignText();
    MaskId(s.r2);
    AndFull(s.r2);
    NegRol(s.r2);
    var s1 := Do(s, b, 48, 5, And(1, 2, 7));
    var s2 := Do(s1, b, 49, 4, Rol(1, 1));
    var s3 := Do(s2, b, 50, 3, Rol(4, 0));
    var s4 := Do(s3, b, 51, 2, Subi(6, 1));
    var s5 := Do(s4, b, 52, 1, Swr(4, 6));
    RunZero(s5);
    s' := s5;
  }

  /** The dividend is replaced by its magnitude; `n` is the dividend. */
  lemma DivMagDividend(s: State, b: Word) returns (s': State)
    requires Loaded(s.mem, b) && s.pc == At(b, 53)
    requires Read(s.mem, Mask12(s.r6 + 1)) == Neg(s.r3)
    ensures s' == Run(s, 5 + Neg(s.r3))
    ensures s'.pc == At(b, 59) && s'.r2 == s.r2 && s'.r3 == Mag(s.r3)
    ensures s'.r5 == s.r5 && s'.r6 == s.r6 && s'.running == s.running && s'.mem == s.mem
  {
    hide Loaded, Run, Code, At, Mask12, Read, BitAnd, Neg, Mag;
    DivMagText();
    MaskId(s.r6);
    AndFull(s.r6);
    NegRol(s.r3);
    var n: int := Neg(s.r3);
    var s1 := Do(s, b, 53, 5 + n, And(1, 6, 7));
    var s2 := Do(s1, b, 54, 4 + n, Addi(1, 1));
    var s3 := Do(s2, b, 55, 3 + n, Lwr(4, 1));
    var s4 := Do(s3, b, 56, 2 + n, Sub(0, 0, 4));
    s' := Do(s4, b, 57, 1 + n, Bf(2));
    if n == 0 {
      MaskId(s.r3);
    } else {
      s' := Do(s', b, 58, n, Sub(3, 0, 3));
    }
    RunZero(s');
  }

  /** The divisor is replaced by its magnitude. */
  lemma DivMagDivisor(s: State, b: Word) returns (s': State)
    requires Loaded(s.mem, b) && s.pc == At(b, 59) && Read(s.mem, s.r6) == Neg(s.r2)
    ensures s' == Run(s, 4 + Neg(s.r2))
    ensures s'.pc == At(b, 64) && s'.r2 == Mag(s.r2) && s'.r3 == s.r3
    ensures s'.r5 == s.r5 && s'.r6 == s.r6 && s'.running == s.running && s'.mem == s.mem
  {
    hide Loaded, Run, Code, At, Mask12, Read, BitAnd, Neg, Mag;
    DivMagText();
    MaskId(s.r6);
    AndFull(s.r6);
    NegRol(s.r2);
    var n: int := Neg(s.r2);
    var s1 := Do(s, b, 59, 4 + n, And(1, 6, 7));
    var s2 := Do(s1, b, 60, 3 + n, Lwr(4, 1));
    var s3 := Do(s2, b, 61, 2 + n, Sub(0, 0, 4));
    s' := Do(s3, b, 62, 1 + n, Bf(2));
    if n == 0 {
      MaskId(s.r2);
    } else {
      s' := Do(s', b, 63, n, Sub(2, 0, 2));
    }
    RunZero(s');
  }

  /** The quotient of the magnitudes. */
  lemma DivMagnitudes(s: State, b: Word) returns (s': State)
    requires Loaded(s.mem, b) && s.pc == At(b, 64) && s.r2 > 0
    ensures s' == Run(s, 6 * Quot(s.r3, s.r2) + 4)
    ensures s'.pc == At(b, 72) && s'.r1 == Quot(s.r3, s.r2)
    ensures s'.r5 == s.r5 && s'.r6 == s.r6 && s'.running == s.running && s'.mem == s.mem
  {
    hide Loaded, Run, Code, At, Mask12, BitAnd, Quot, Rem;
    DivMagText();
    MaskId(0);
    MaskId(s.r3);
    AndFull(s.r3);
    ClearsTo(0);
    MaskId(Quot(s.r3, s.r2));
    var s1 := Do(s, b, 64, 2, And(4, 3, 7));
    var s2 := Do(s1, b, 65, 1, And(1, 0, 0));
    RunZero(s2);
    LoopRuns(s2, b, 66);
    RunSum(s, 2, 6 * Quot(s.r3, s.r2) + 2);
    s' := Run(s2, 6 * Quot(s.r3, s.r2) + 2);
  }

  /** The quotient moves to r2 and the sign of the divisor is popped into r1. */
  lemma DivPopDivisor(s: State, b: Word) returns (s': State)
    requires Loaded(s.mem, b) && s.pc == At(b, 72)
    ensures s' == Run(s, 4)
    ensures s'.pc == At(b, 76) && s'.r2 == s.r1 && s'.r1 == Read(s.mem, s.r6)
    ensures s'.r5 == s.r5 && s'.r6 == Mask12(s.r6 + 1)
    ensures s'.running == s.running && s'.mem == s.mem
  {
    hide Loaded, Run, Code, At, Mask12, Read, BitAnd;
    DivTailText();
    MaskId(s.r1);
    AndFull(s.r1);
    MaskId(s.r6);
    AndFull(s.r6);
    MaskId(Read(s.mem, s.r6));
    var s1 := Do(s, b, 72, 4, And(2, 1, 7));
    var s2 := Do(s1, b, 73, 3, And(1, 6, 7));
    var s3 := Do(s2, b, 74, 2, Lwr(1, 1));
    s' := Do(s3, b, 75, 1, Addi(6, 1));
    RunZero(s');
  }

  /** The sign of the dividend is popped and added: r1 ends as the sum of the two sign bits
      less one, zero exactly when the signs differ. */
  lemma DivPopDividend(s: State, b: Word) returns (s': State)
    requires Loaded(s.mem, b) && s.pc == At(b, 76) && s.r1 < 2 && Read(s.mem, s.r6) < 2
    ensures s' == Run(s, 5)
    ensures s'.pc == At(b, 81) && s'.r2 == s.r2
    ensures s'.r1 == Mask12(s.r1 + Read(s.mem, s.r6) - 1)
    ensures s'.r5 == s.r5 && s'.r6 == Mask12(s.r6 + 1)
    ensures s'.running == s.running && s'.mem == s.mem
  {
    hide Loaded, Run, Code, At, Mask12, Read, BitAnd;
    DivTailText();
    var x := Read(s.mem, s.r6);
    MaskId(s.r6);
    AndFull(s.r6);
    MaskId(x);
    MaskId(s.r1 + x);
    var s1 := Do(s, b, 76, 5, And(4, 6, 7));
    var s2 := Do(s1, b, 77, 4, Lwr(4, 4));
    var s3 := Do(s2, b, 78, 3, Addi(6, 1));
    var s4 := Do(s3, b, 79, 2, Add(1, 1, 4));
    s' := Do(s4, b, 80, 1, Subi(1, 1));
    RunZero(s');
  }

  /** The quotient is negated when r1 is zero; then the return address is popped. */
  lemma DivLeave(s: State, b: Word) returns (s': State)
    requires Loaded(s.mem, b) && s.pc == At(b, 81)
    ensures s' == Run(s, if s.r1 == 0 then 7 else 6)
    ensures s'.pc == Read(s.mem, s.r6) == s'.r5
    ensures s'.r2 == if s.r1 == 0 then Mask12(0 - s.r2) else s.r2
    ensures s'.r6 == Mask12(s.r6 + 1) && s'.running == s.running && s'.mem == s.mem
  {
    hide Loaded, Run, Code, At, Mask12, Read, BitAnd;
    DivLeaveText();
    var n := if s.r1 == 0 then 1 else 0;
    var s1 := Do(s, b, 81, 6 + n, Sub(0, 0, 1));
    var s2 := Do(s1, b, 82, 5 + n, Bt(2));
    if n == 1 { s2 := Do(s2, b, 83, 5, Sub(2, 0, 2)); }
    s' := DivReturn(s2, b);
  }

  lemma DivReturn(s: State, b: Word) returns (s': State)
    requires Loaded(s.mem, b) && s.pc == At(b, 84)
    ensures s' == Run(s, 4)
    ensures s'.pc == Read(s.mem, s.r6) == s'.r5 && s'.r2 == s.r2
    ensures s'.r6 == Mask12(s.r6 + 1) && s'.running == s.running && s'.mem == s.mem
  {
    hide Loaded, Run, Code, At, Mask12, Read, BitAnd;
    DivLeaveText();
    MaskId(s.r6);
    AndFull(s.r6);
    MaskId(Read(s.mem, s.r6));
    var s1 := Do(s, b, 84, 4, And(1, 6, 7));
    var s2 := Do(s1, b, 85, 3, Lwr(5, 1));
    var s3 := Do(s2, b, 86, 2, Addi(6, 1));
    s' := Do(s3, b, 87, 1, Jalr(0, 5));
    RunZero(s');
  }

  /** A word read as two's complement. */
  function Signed(x: Word): int { if x >= 2048 then x - 4096 else x }

  function Abs(x: int): nat { if x < 0 then -x else x }

  /** The quotient of section 6.5.5 of ISO/IEC 9899:1999: truncated toward zero. */
  function TruncDiv(a: int, b: int): int
    requires b != 0
  {
    if (a < 0) == (b < 0) then Abs(a) / Abs(b) else -(Abs(a) / Abs(b))
  }

  /** The remainder that goes with it: the sign of the dividend. */
  function TruncMod(a: int, b: int): int
    requires b != 0
  {
    if a < 0 then -(Abs(a) % Abs(b)) else Abs(a) % Abs(b)
  }

  /** These two are the quotient and remainder of the C standard. */
  lemma TruncLaw(a: int, b: int)
    requires b != 0
    ensures a == TruncDiv(a, b) * b + TruncMod(a, b)
    ensures Abs(TruncMod(a, b)) < Abs(b)
    ensures TruncMod(a, b) != 0 ==> (TruncMod(a, b) < 0 <==> a < 0)
  {
    var q, r := Abs(a) / Abs(b), Abs(a) % Abs(b);
    assert Abs(a) == q * Abs(b) + r;
    if a < 0 && b < 0 {
      assert q * b == -(q * -b);
    } else if a < 0 {
      assert -q * b == -(q * b);
    } else if b < 0 {
      assert -q * b == q * -b;
    }
  }

  /** Quotient and remainder of magnitudes, with the signs put back as the code does. */
  lemma SignsBack(n: Word, d: Word)
    requires d > 0
    ensures Mag(d) > 0
    ensures Mask12(TruncDiv(Signed(n), Signed(d)))
            == if Neg(n) == Neg(d) then Quot(Mag(n), Mag(d)) else Mask12(0 - Quot(Mag(n), Mag(d)))
    ensures Mask12(TruncMod(Signed(n), Signed(d)))
            == if Neg(n) == 0 then Rem(Mag(n), Mag(d)) else Mask12(0 - Rem(Mag(n), Mag(d)))
  {
    assert Mag(n) == Abs(Signed(n)) && Mag(d) == Abs(Signed(d));
    assert Signed(n) < 0 <==> Neg(n) == 1;
    assert Signed(d) < 0 <==> Neg(d) == 1;
    hide Mask12, Signed, Neg, Mag;
    MaskId(Quot(Mag(n), Mag(d)));
    MaskId(Rem(Mag(n), Mag(d)));
  }

  /** Steps taken by `__div` for a non-zero divisor. */
  function DivSteps(n: Word, d: Word): nat
    requires Mag(d) > 0
  {
    6 * Quot(Mag(n), Mag(d)) + 42 + Neg(n) + Neg(d) + (if Neg(n) == Neg(d) then 0 else 1)
  }

  /** `__div` up to the head of the division: signs saved, magnitudes in r3 and r2. */
  lemma DivPrologue(s: State, b: Word) returns (s': State)
    requires Loaded(s.mem, b) && s.pc == At(b, DIV) && s.r2 > 0 && Free3(s.mem, b, s.r6)
    ensures s' == Run(s, 23 + Neg(s.r3) + Neg(s.r2))
    ensures s'.pc == At(b, 64) && s'.r2 == Mag(s.r2) && s'.r3 == Mag(s.r3)
    ensures s'.r6 == Mask12(s.r6 - 3) && s'.running == s.running
    ensures s'.mem == Pushed3(s.mem, s.r6, s.r5, s.r3, s.r2)
  {
    hide Loaded, Run, At, Mask12, Free, Read, Write, Neg, Mag;
    SlotsDiffer(s.r6);
    PushedSlots2(s.mem, b, s.r6, s.r5, s.r3);
    PushedSlots3(s.mem, b, s.r6, s.r5, s.r3, s.r2);
    var n: int, d: int := Neg(s.r3), Neg(s.r2);
    var s1 := SignedEnter(s, b, DIV);
    var s2 := DivSaveSign(s1, b);
    var s3 := DivMagDividend(s2, b);
    s' := DivMagDivisor(s3, b);
    RunSum(s, 9, 5);
    RunSum(s, 14, 5 + n);
    RunSum(s, 19 + n, 4 + d);
  }

  /** `__div` from there to the return. */
  lemma DivEpilogue(s: State, b: Word, mem: Memory, r6: Word, lr: Word, n: Word, d: Word)
    returns (s': State)
    requires Loaded(mem, b) && Free3(mem, b, r6) && s.mem == Pushed3(mem, r6, lr, n, d)
    requires s.pc == At(b, 64) && s.r6 == Mask12(r6 - 3) && s.r2 > 0
    ensures s' == Run(s, 6 * Quot(s.r3, s.r2) + 19 + if Neg(n) == Neg(d) then 0 else 1)
    ensures s'.pc == lr == s'.r5 && s'.r6 == r6 && s'.mem == s.mem && s'.running == s.running
    ensures s'.r2 == if Neg(n) == Neg(d) then Quot(s.r3, s.r2) else Mask12(0 - Quot(s.r3, s.r2))
  {
    SumZero(Neg(n), Neg(d));
    hide Loaded, Run, At, Mask12, Free, Read, Write, Quot, Neg;
    SlotsDiffer(r6);
    PushedSlots3(mem, b, r6, lr, n, d);
    var q: int := Quot(s.r3, s.r2);
    var s1 := DivMagnitudes(s, b);
    var s2 := DivPopDivisor(s1, b);
    var s3 := DivPopDividend(s2, b);
    s' := DivLeave(s3, b);
    RunSum(s, 6 * q + 4, 4);
    RunSum(s, 6 * q + 8, 5);
    RunSum(s, 6 * q + 13, if s3.r1 == 0 then 7 else 6);
  }

  lemma SumZero(x: Bit, y: Bit)
    ensures Mask12(y + x - 1) == 0 <==> x != y
  {
  }

  /** `__div`, wherever it is loaded and whatever the state: a zero divisor gives zero at once;
      otherwise, given three free words below r6, r2 ends as the C quotient of r3 by r2 modulo
      4096 (so -2048 / -1 is -2048), control is back at r5, r5 and r6 are restored, and only the
      three stack words have changed. */
  lemma DivCorrect(s: State, b: Word)
    requires Loaded(s.mem, b) && s.pc == At(b, DIV)
    ensures s.r2 == 0 ==> Run(s, 4) == s.(t := 0, pc := s.r5)
    ensures s.r2 != 0 && Free3(s.mem, b, s.r6) ==>
              Mag(s.r2) > 0 &&
              var s' := Run(s, DivSteps(s.r3, s.r2));
              s'.r2 == Mask12(TruncDiv(Signed(s.r3), Signed(s.r2)))
              && s'.pc == s.r5 && s'.r5 == s.r5 && s'.r6 == s.r6 && s'.running == s.running
              && s'.mem == Pushed3(s.mem, s.r6, s.r5, s.r3, s.r2)
              && forall a: Word | a != Mask12(s.r6 - 1) && a != Mask12(s.r6 - 2) && a != Mask12(s.r6 - 3) ::
                   s'.mem[a] == s.mem[a]
  {
    hide Loaded, Run, At, Mask12, Free, Read, Write, Quot, Rem, Neg, Mag, Signed, TruncDiv, TruncMod;
    if s.r2 == 0 {
      SignedByZero(s, b, DIV);
    } else if Free3(s.mem, b, s.r6) {
      PushedSlots3(s.mem, b, s.r6, s.r5, s.r3, s.r2);
      SignsBack(s.r3, s.r2);
      var n: int, d: int := Neg(s.r3), Neg(s.r2);
      var s1 := DivPrologue(s, b);
      var s2 := DivEpilogue(s1, b, s.mem, s.r6, s.r5, s.r3, s.r2);
      RunSum(s, 23 + n + d,
             6 * Quot(Mag(s.r3), Mag(s.r2)) + 19 + if Neg(s.r3) == Neg(s.r2) then 0 else 1);
    }
  }

  lemma ModMagText()
    ensures Code(99) == Sub(0, 0, 4) && Code(100) == Bf(2) && Code(101) == Sub(3, 0, 3)
    ensures Code(102) == And(1, 2, 7) && Code(103) == Rol(1, 1) && Code(104) == Bf(2)
    ensures Code(105) == Sub(2, 0, 2) && Code(106) == And(4, 3, 7)
    ensures Code(107) == And(1, 0, 0)
  {
  }

  lemma ModLeaveText()
    ensures Code(114) == And(1, 6, 7) && Code(115) == Lwr(1, 1) && Code(116) == Addi(6, 1)
    ensures Code(117) == Sub(0, 0, 1) && Code(118) == Bf(2) && Code(119) == Sub(4, 0, 4)
    ensures Code(120) == And(2, 4, 7) && Code(121) == And(1, 6, 7)
    ensures Code(122) == Lwr(5, 1) && Code(123) == Addi(6, 1) && Code(124) == Jalr(0, 5)
  {
  }

  /** `__mod` takes magnitudes without saving the sign of the divisor. */
  lemma ModMagDividend(s: State, b: Word) returns (s': State)
    requires Loaded(s.mem, b) && s.pc == At(b, 99) && s.r4 == Neg(s.r3)
    ensures s' == Run(s, 2 + Neg(s.r3))
    ensures s'.pc == At(b, 102) && s'.r2 == s.r2 && s'.r3 == Mag(s.r3)
    ensures s'.r5 == s.r5 && s'.r6 == s.r6 && s'.running == s.running && s'.mem == s.mem
  {
    hide Loaded, Run, Code, At, Mask12, Neg, Mag;
    ModMagText();
    NegRol(s.r3);
    var n: int := Neg(s.r3);
    var s1 := Do(s, b, 99, 2 + n, Sub(0, 0, 4));
    s' := Do(s1, b, 100, 1 + n, Bf(2));
    if n == 0 {
      MaskId(s.r3);
    } else {
      s' := Do(s', b, 101, n, Sub(3, 0, 3));
    }
    RunZero(s');
  }

  lemma ModMagDivisor(s: State, b: Word) returns (s': State)
    requires Loaded(s.mem, b) && s.pc == At(b, 102)
    ensures s' == Run(s, 5 + Neg(s.r2))
    ensures s'.pc == At(b, 108) && s'.r2 == Mag(s.r2) && s'.r4 == s.r3 && s'.r1 == 0
    ensures s'.r5 == s.r5 && s'.r6 == s.r6 && s'.running == s.running && s'.mem == s.mem
  {
    hide Loaded, Run, Code, At, Mask12, BitAnd, Neg, Mag;
    ModMagText();
    NegRol(s.r2);
    MaskId(s.r2);
    AndFull(s.r2);
    MaskId(s.r3);
    AndFull(s.r3);
    MaskId(0);
    ClearsTo(0);
    var n: int := Neg(s.r2);
    var s1 := Do(s, b, 102, 5 + n, And(1, 2, 7));
    var s2 := Do(s1, b, 103, 4 + n, Rol(1, 1));
    var s3 := Do(s2, b, 104, 3 + n, Bf(2));
    if n == 0 {
      assert s3.r2 == Mag(s.r2);
    } else {
      s3 := Do(s3, b, 105, 2 + n, Sub(2, 0, 2));
    }
    var s4 := Do(s3, b, 106, 2, And(4, 3, 7));
    s' := Do(s4, b, 107, 1, And(1, 0, 0));
    RunZero(s');
  }

  /** The remainder takes back the sign of the dividend, and the return address is popped. */
  lemma ModLeave(s: State, b: Word) returns (s': State)
    requires Loaded(s.mem, b) && s.pc == At(b, 114) && Read(s.mem, s.r6) < 2
    ensures s' == Run(s, 10 + Read(s.mem, s.r6))
    ensures s'.pc == Read(s.mem, Mask12(s.r6 + 1)) == s'.r5
    ensures s'.r2 == if Read(s.mem, s.r6) == 0 then s.r4 else Mask12(0 - s.r4)
    ensures s'.r6 == Mask12(Mask12(s.r6 + 1) + 1) && s'.running == s.running && s'.mem == s.mem
  {
    hide Loaded, Run, Code, At, Mask12, Read, BitAnd;
    ModLeaveText();
    var n: int := Read(s.mem, s.r6);
    MaskId(s.r6);
    AndFull(s.r6);
    MaskId(n);
    var s1 := Do(s, b, 114, 10 + n, And(1, 6, 7));
    var s2 := Do(s1, b, 115, 9 + n, Lwr(1, 1));
    var s3 := Do(s2, b, 116, 8 + n, Addi(6, 1));
    var s4 := Do(s3, b, 117, 7 + n, Sub(0, 0, 1));
    var s5 := Do(s4, b, 118, 6 + n, Bf(2));
    if n == 0 {
      MaskId(s.r4);
    } else {
      s5 := Do(s5, b, 119, 5 + n, Sub(4, 0, 4));
    }
    s' := ModReturn(s5, b);
  }

  lemma ModReturn(s: State, b: Word) returns (s': State)
    requires Loaded(s.mem, b) && s.pc == At(b, 120)
    ensures s' == Run(s, 5)
    ensures s'.pc == Read(s.mem, s.r6) == s'.r5 && s'.r2 == s.r4
    ensures s'.r6 == Mask12(s.r6 + 1) && s'.running == s.running && s'.mem == s.mem
  {
    hide Loaded, Run, Code, At, Mask12, Read, BitAnd;
    ModLeaveText();
    MaskId(s.r4);
    AndFull(s.r4);
    MaskId(s.r6);
    AndFull(s.r6);
    MaskId(Read(s.mem, s.r6));
    var s1 := Do(s, b, 120, 5, And(2, 4, 7));
    var s2 := Do(s1, b, 121, 4, And(1, 6, 7));
    var s3 := Do(s2, b, 122, 3, Lwr(5, 1));
    var s4 := Do(s3, b, 123, 2, Addi(6, 1));
    s' := Do(s4, b, 124, 1, Jalr(0, 5));
    RunZero(s');
  }

  /** Steps taken by `__mod` for a non-zero divisor. */
  function ModSteps(n: Word, d: Word): nat
    requires Mag(d) > 0
  {
    6 * Quot(Mag(n), Mag(d)) + 28 + 2 * Neg(n) + Neg(d)
  }

  lemma ModPrologue(s: State, b: Word) returns (s': State)
    requires Loaded(s.mem, b) && s.pc == At(b, MOD) && s.r2 > 0 && Free2(s.mem, b, s.r6)
    ensures s' == Run(s, 16 + Neg(s.r3) + Neg(s.r2))
    ensures s'.pc == At(b, 108) && s'.r2 == Mag(s.r2) && s'.r4 == Mag(s.r3) && s'.r1 == 0
    ensures s'.r6 == Mask12(s.r6 - 2) && s'.running == s.running
    ensures s'.mem == Pushed2(s.mem, s.r6, s.r5, s.r3)
  {
    hide Loaded, Run, At, Mask12, Free, Read, Write, Neg, Mag;
    PushedSlots2(s.mem, b, s.r6, s.r5, s.r3);
    var n: int, d: int := Neg(s.r3), Neg(s.r2);
    var s1 := SignedEnter(s, b, MOD);
    var s2 := ModMagDividend(s1, b);
    s' := ModMagDivisor(s2, b);
    RunSum(s, 9, 2 + n);
    RunSum(s, 11 + n, 5 + d);
  }

  lemma ModEpilogue(s: State, b: Word, mem: Memory, r6: Word, lr: Word, n: Word)
    returns (s': State)
    requires Loaded(mem, b) && Free2(mem, b, r6) && s.mem == Pushed2(mem, r6, lr, n)
    requires s.pc == At(b, 108) && s.r6 == Mask12(r6 - 2) && s.r2 > 0
    ensures s' == Run(s, 6 * Quot(s.r4, s.r2) + 12 + Neg(n))
    ensures s'.pc == lr == s'.r5 && s'.r6 == r6 && s'.mem == s.mem && s'.running == s.running
    ensures s'.r2 == if Neg(n) == 0 then Rem(s.r4, s.r2) else Mask12(0 - Rem(s.r4, s.r2))
  {
    hide Loaded, Run, At, Mask12, Free, Read, Write, Quot, Rem, Neg;
    SlotsDiffer(r6);
    PushedSlots2(mem, b, r6, lr, n);
    var q: int := Quot(s.r4, s.r2);
    LoopRuns(s, b, 108);
    var s1 := Run(s, 6 * q + 2);
    s' := ModLeave(s1, b);
    RunSum(s, 6 * q + 2, 10 + Neg(n));
  }

  /** `__mod`, likewise: the C remainder, with two free words below r6. */
  lemma ModCorrect(s: State, b: Word)
    requires Loaded(s.mem, b) && s.pc == At(b, MOD)
    ensures s.r2 == 0 ==> Run(s, 4) == s.(t := 0, pc := s.r5)
    ensures s.r2 != 0 && Free2(s.mem, b, s.r6) ==>
              Mag(s.r2) > 0 &&
              var s' := Run(s, ModSteps(s.r3, s.r2));
              s'.r2 == Mask12(TruncMod(Signed(s.r3), Signed(s.r2)))
              && s'.pc == s.r5 && s'.r5 == s.r5 && s'.r6 == s.r6 && s'.running == s.running
              && s'.mem == Pushed2(s.mem, s.r6, s.r5, s.r3)
              && forall a: Word | a != Mask12(s.r6 - 1) && a != Mask12(s.r6 - 2) :: s'.mem[a] == s.mem[a]
  {
    hide Loaded, Run, At, Mask12, Free, Read, Write, Quot, Rem, Neg, Mag, Signed, TruncDiv, TruncMod;
    if s.r2 == 0 {
      SignedByZero(s, b, MOD);
    } else if Free2(s.mem, b, s.r6) {
      PushedSlots2(s.mem, b, s.r6, s.r5, s.r3);
      SignsBack(s.r3, s.r2);
      var n: int, d: int := Neg(s.r3), Neg(s.r2);
      var s1 := ModPrologue(s, b);
      var s2 := ModEpilogue(s1, b, s.mem, s.r6, s.r5, s.r3);
      RunSum(s, 16 + n + d, 6 * Quot(Mag(s.r3), Mag(s.r2)) + 12 + n);
    }
  }

  lemma MaskShift(x: int, k: int)
    ensures Mask12(x + 4096 * k) == Mask12(x)
  {
  }

  lemma MaskedProduct(a: int, x: int, r: int)
    ensures Mask12(Mask12(a) * Mask12(x) + Mask12(r)) == Mask12(a * x + r)
  {
    var i, j, l := a / 4096, x / 4096, r / 4096;
    var a', x', r' := Mask12(a), Mask12(x), Mask12(r);
    assert a == a' + 4096 * i && x == x' + 4096 * j && r == r' + 4096 * l;
    hide Mask12;
    Expand(a', i, x', j);
    MaskShift(a' * x' + r', a' * j + i * x' + 4096 * (i * j) + l);
  }

  lemma Expand(a: int, i: int, x: int, j: int)
    ensures (a + 4096 * i) * (x + 4096 * j) == a * x + 4096 * (a * j + i * x + 4096 * (i * j))
  {
  }

  lemma SignedMasks(x: Word)
    ensures Mask12(Signed(x)) == x && (x != 0 ==> Signed(x) != 0)
  {
  }

  /** The law that ties the two routines together: called with the same dividend and a
      non-zero divisor, their results satisfy a == (a / b) * b + a % b modulo 4096. */
  lemma DivModLaw(s: State, u: State, b: Word)
    requires Loaded(s.mem, b) && s.pc == At(b, DIV) && Free3(s.mem, b, s.r6)
    requires Loaded(u.mem, b) && u.pc == At(b, MOD) && Free2(u.mem, b, u.r6)
    requires s.r3 == u.r3 && s.r2 == u.r2 != 0
    ensures Mag(s.r2) > 0
    ensures Mask12(Run(s, DivSteps(s.r3, s.r2)).r2 * s.r2 + Run(u, ModSteps(s.r3, s.r2)).r2) == s.r3
  {
    hide Loaded, Run, At, Mask12, Free2, Free3, DivSteps, ModSteps, Mag, Signed, TruncDiv, TruncMod;
    DivCorrect(s, b);
    ModCorrect(u, b);
    SignedMasks(s.r3);
    SignedMasks(s.r2);
    var x, y := Signed(s.r3), Signed(s.r2);
    TruncLaw(x, y);
    MaskedProduct(TruncDiv(x, y), y, TruncMod(x, y));
  }

  /** The one quotient that does not fit: run on -2048 and -1 the routines leave -2048 and 0. */
  lemma MinByMinusOne(s: State, u: State, b: Word)
    requires Loaded(s.mem, b) && s.pc == At(b, DIV) && Free3(s.mem, b, s.r6) && s.r3 == 2048 && s.r2 == 4095
    requires Loaded(u.mem, b) && u.pc == At(b, MOD) && Free2(u.mem, b, u.r6) && u.r3 == 2048 && u.r2 == 4095
    ensures Signed(2048) == -2048 && Signed(4095) == -1 && Mag(4095) > 0
    ensures Run(s, DivSteps(2048, 4095)).r2 == 2048 && Run(u, ModSteps(2048, 4095)).r2 == 0
  {
    hide Loaded, Run, At, Free2, Free3, DivSteps, ModSteps;
    assert TruncDiv(-2048, -1) == 2048 && TruncMod(-2048, -1) == 0;
    DivCorrect(s, b);
    ModCorrect(u, b);
  }

  // ---- there is such a memory -----------------------------------------------------

  /** The cell at `a` with the library at `b` and zeros elsewhere, all writable. */
  function HeldCell(b: Word, a: int): Cell {
    var k: int := (a - b) % 4096;
    Ram(if k < 127 && Encodable(Code(k)) then Encode(Code(k)) else 0)
  }

  function Holding(b: Word): Memory {
    var m := seq(4096, a requires 0 <= a < 4096 => HeldCell(b, a));
    assert |m| == 4096;
    m
  }

  lemma HeldAt(b: Word, k: nat)
    requires k < 127
    ensures Holds(Holding(b), b, k)
  {
    CodeEncodable(k);
    Around(b, k);
    hide Code, Encode, Encodable, At;
  }

  /** An address at least 127 words past `b`. */
  ghost predicate Past(b: Word, a: Word) { (a - b) % 4096 >= 127 }

  lemma HeldFree(b: Word, a: Word)
    requires Past(b, a)
    ensures Free(Holding(b), b, a)
  {
    hide Code, Encode, Encodable, At;
    forall k: nat | k < 127 ensures Apart(b, k, a) { Around(b, k); }
  }

  /** The library fits at any address, with a stack wherever its code is not. */
  lemma LibraryFits(b: Word, r6: Word)
    requires Past(b, Mask12(r6 - 1)) && Past(b, Mask12(r6 - 2)) && Past(b, Mask12(r6 - 3))
    ensures Loaded(Holding(b), b) && Free3(Holding(b), b, r6)
  {
    hide Holds, Holding, Free, Past, Mask12;
    forall k: nat | k < 127 ensures Holds(Holding(b), b, k) { HeldAt(b, k); }
    HeldFree(b, Mask12(r6 - 1));
    HeldFree(b, Mask12(r6 - 2));
    HeldFree(b, Mask12(r6 - 3));
  }

  lemma Around(b: Word, k: nat)
    requires k < 4096
    ensures (At(b, k) - b) % 4096 == k
  {
  }
}
