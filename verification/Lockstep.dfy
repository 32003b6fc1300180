/** The two simulators run in lockstep, and both are the abstract machine. */
module Lockstep {
  import opened Isa
  import opened ObjFile
  import opened SimModel
  import M = Machine

  lemma BorrowBit(a: Word, b: Word)
    ensures Bit12(a - b) == if a < b then 1 else 0
  {
  }

  lemma MaskTwice(v: int)
    ensures Mask12(Mask12(v)) == Mask12(v)
  {
  }

  lemma SetMasked(regs: seq<Word>, rd: Reg, v: int)
    requires |regs| == 8
    ensures SetReg(regs, rd, Mask12(v)) == SetReg(regs, rd, v)
  {
    hide Mask12;
    MaskTwice(v);
  }

  lemma SetKeepsGood(regs: seq<Word>, rd: Reg, v: int)
    requires |regs| == 8 && regs[0] == 0 && regs[7] == 4095
    ensures var r := SetReg(regs, rd, v); |r| == 8 && r[0] == 0 && r[7] == 4095
  {
  }

  lemma BusWriteGood(banks: seq<Bank>, a: Word, v: Word)
    requires forall i | 0 <= i < |banks| :: GoodBank(banks[i])
    ensures var bs := BusWrite(banks, a, v);
            |bs| == |banks| && forall i | 0 <= i < |bs| ::
              GoodBank(bs[i]) && bs[i].base == banks[i].base && bs[i].size == banks[i].size && bs[i].kind == banks[i].kind
    ensures Disjoint(banks) ==> Disjoint(BusWrite(banks, a, v))
  {
  }

  /** The C borrow test on bit 12 is the Python comparison, and the whole step agrees. */
  lemma ExecAgrees(s: Sim, op: Reg, rd: Reg, ra: Reg, rb: Reg, imm: Imm6, halt: bool)
    requires Good(s) && Disjoint(s.banks) && (halt ==> op == 7 && rb == 7)
    ensures PyExec(s, op, rd, ra, rb, imm, halt) == Ok(CExec(s, op, rd, ra, rb, imm, halt))
  {
    hide GoodBank, Disjoint, BusRead, BusWrite, ScanRead, ScanWrite, BitAnd, Mask12, SetReg, Bit12, Val;
    BusIsScan(s.banks, Val(s.regs, ra), Val(s.regs, rd));
    BorrowBit(Val(s.regs, ra), Val(s.regs, rb));
    BorrowBit(Val(s.regs, rd), imm);
    SetMasked(s.regs, rd, Val(s.regs, ra) - Val(s.regs, rb));
    SetMasked(s.regs, rd, Val(s.regs, rd) - imm);
  }

  lemma HaltWord(ir: Word)
    ensures ir == 4095 ==> ir / 512 % 8 == 7 && ir % 8 == 7
  {
  }

  lemma StepAgrees(s: Sim)
    requires Good(s) && Disjoint(s.banks)
    ensures PyStep(s) == Ok(CStep(s))
  {
    hide PyExec, CExec, BusRead, ScanRead, Disjoint;
    BusIsScan(s.banks, s.pc, 0);
    var ir := ScanRead(s.banks, s.pc);
    HaltWord(ir);
    ExecAgrees(s, ir / 512 % 8, ir / 64 % 8, ir / 8 % 8, ir % 8, ir % 64, ir == 4095);
  }

  /** The registers of the result are those of one register write, the banks those of one
      memory write at most. */
  lemma ExecShape(s: Sim, op: Reg, rd: Reg, ra: Reg, rb: Reg, imm: Imm6, halt: bool)
    returns (r: Reg, v: int, write: bool, a: Word, w: Word)
    requires Good(s)
    ensures var s' := CExec(s, op, rd, ra, rb, imm, halt);
            s'.regs == SetReg(s.regs, r, v) && s'.banks == (if write then ScanWrite(s.banks, a, w) else s.banks)
            && s'.retired == s.retired + 1 && s'.cycles > s.cycles
  {
    r := rd;
    hide GoodBank, ScanRead, ScanWrite, BitAnd, Mask12, Bit12, Val, SetReg;
    a, w, write := Val(s.regs, ra), Val(s.regs, rd), !halt && op == 7 && rb == 4;
    var next: int := Mask12(s.pc + 1);
    SetZero(s.regs);
    if halt { r, v := 0, 0; }
    else if op == 0 { v := BitAnd(Val(s.regs, ra), Val(s.regs, rb)); }
    else if op == 1 { v := Val(s.regs, ra) - Val(s.regs, rb); }
    else if op == 2 { v := Val(s.regs, ra) + Val(s.regs, rb); }
    else if op == 3 { v := Val(s.regs, ra) + Val(s.regs, rb) + s.t; }
    else if op == 4 { if rd == 0 || rd == 7 { r, v := 0, 0; } else { v := imm * 64; } }
    else if op == 5 { if rd == 0 || rd == 7 { r, v := 0, 0; } else { v := Val(s.regs, rd) + imm; } }
    else if op == 6 { v := Val(s.regs, rd) - imm; }
    else if rb == 0 { v := next; }
    else if rb == 1 { v := Val(s.regs, ra) / 2 + s.t * 2048; }
    else if rb == 2 { v := Val(s.regs, ra) * 2 % 4096 + s.t; }
    else if rb == 3 { v := ScanRead(s.banks, Val(s.regs, ra)); }
    else { r, v := 0, 0; }
  }

  lemma SetZero(regs: seq<Word>)
    requires |regs| == 8
    ensures SetReg(regs, 0, 0) == regs
  {
  }

  /** The same for the Python step. */
  lemma PyShape(s: Sim, op: Reg, rd: Reg, ra: Reg, rb: Reg, imm: Imm6, halt: bool)
    returns (r: Reg, v: int, write: bool, a: Word, w: Word)
    requires Good(s)
    ensures var out := PyExec(s, op, rd, ra, rb, imm, halt);
            out.Ok? ==>
              out.value.regs == SetReg(s.regs, r, v)
              && out.value.banks == (if write then BusWrite(s.banks, a, w) else s.banks)
              && out.value.retired == s.retired + 1 && out.value.cycles > s.cycles
  {
    hide GoodBank, BusRead, BusWrite, BitAnd, Mask12, Bit12, Val, SetReg;
    r := rd;
    a, w, write := Val(s.regs, ra), Val(s.regs, rd), op == 7 && rb == 4;
    var next: int := Mask12(s.pc + 1);
    SetZero(s.regs);
    if op == 0 { v := BitAnd(Val(s.regs, ra), Val(s.regs, rb)); }
    else if op == 1 { v := Mask12(Val(s.regs, ra) - Val(s.regs, rb)); }
    else if op == 2 { v := Val(s.regs, ra) + Val(s.regs, rb); }
    else if op == 3 { v := Val(s.regs, ra) + Val(s.regs, rb) + s.t; }
    else if op == 4 { if rd == 0 || rd == 7 { r, v := 0, 0; } else { v := imm * 64; } }
    else if op == 5 { if rd == 0 || rd == 7 { r, v := 0, 0; } else { v := Val(s.regs, rd) + imm; } }
    else if op == 6 { v := Mask12(Val(s.regs, rd) - imm); }
    else if rb == 0 { v := next; }
    else if rb == 1 { v := Val(s.regs, ra) / 2 + s.t * 2048; }
    else if rb == 2 { v := Val(s.regs, ra) * 2 % 4096 + s.t; }
    else if rb == 3 {
      if BusRead(s.banks, Val(s.regs, ra)).Ok? { v := BusRead(s.banks, Val(s.regs, ra)).value; } else { v := 0; }
    }
    else { r, v := 0, 0; }
  }

  lemma ScanWriteKeeps(banks: seq<Bank>, a: Word, v: Word)
    requires forall i | 0 <= i < |banks| :: GoodBank(banks[i])
    ensures var bs := ScanWrite(banks, a, v);
            (forall i | 0 <= i < |bs| :: GoodBank(bs[i])) && (Disjoint(banks) ==> Disjoint(bs))
  {
  }

  /** What a step costs: one instruction, and one cycle, or two for a load from or a store to memory. */
  lemma StepCounts(s: Sim)
    requires Good(s)
    ensures var i := Decode(ScanRead(s.banks, s.pc));
            CStep(s).retired == s.retired + 1 && CStep(s).cycles == s.cycles + if i.Lwr? || i.Swr? then 2 else 1
  {
    hide GoodBank, ScanRead, ScanWrite, SetReg, Val, Mask12, BitAnd, Bit12;
  }

  lemma CStepGood(s: Sim)
    requires Good(s)
    ensures Good(CStep(s)) && CStep(s).cycles > s.cycles && CStep(s).retired == s.retired + 1
    ensures Disjoint(s.banks) ==> Disjoint(CStep(s).banks)
  {
    hide GoodBank, Disjoint, ScanRead, ScanWrite, CExec;
    var ir := ScanRead(s.banks, s.pc);
    var r, v, write, a, w := ExecShape(s, ir / 512 % 8, ir / 64 % 8, ir / 8 % 8, ir % 8, ir % 64, ir == 4095);
    SetKeepsGood(s.regs, r, v);
    ScanWriteKeeps(s.banks, a, w);
    hide SetReg;
  }

  lemma PyStepGood(s: Sim)
    requires Good(s) && PyStep(s).Ok?
    ensures Good(PyStep(s).value) && PyStep(s).value.cycles > s.cycles && PyStep(s).value.retired == s.retired + 1
  {
    hide GoodBank, Disjoint, BusRead, BusWrite, PyExec;
    var ir := BusRead(s.banks, s.pc).value;
    var r, v, write, a, w := PyShape(s, ir / 512 % 8, ir / 64 % 8, ir / 8 % 8, ir % 8, ir % 64, ir == 4095);
    SetKeepsGood(s.regs, r, v);
    BusWriteGood(s.banks, a, w);
    hide SetReg;
  }

  // ---- the run loops --------------------------------------------------------------

  /** How a run that is not endless ends. */
  datatype Outcome = Halted(s: Sim) | CycleLimit(s: Sim) | Conflict(c: BusConflict) | StillRunning(s: Sim)

  /** `n` turns of the Python run loop; `max` cycles at most when `max` is positive. */
  function PyRun(s: Sim, max: nat, n: nat): Outcome
    requires Good(s)
    decreases n
  {
    if !s.running then Halted(s)
    else if n == 0 then StillRunning(s)
    else
      match PyStep(s)
      case Err(c) => Conflict(c)
      case Ok(s') =>
        PyStepGood(s);
        if max > 0 && s'.cycles >= max then CycleLimit(s') else PyRun(s', max, n - 1)
  }

  /** `n` turns of the C loop. */
  function CRun(s: Sim, max: nat, n: nat): Outcome
    requires Good(s)
    decreases n
  {
    if !s.running then Halted(s)
    else if n == 0 then StillRunning(s)
    else
      CStepGood(s);
      var s' := CStep(s);
      if max > 0 && s'.cycles >= max then CycleLimit(s') else CRun(s', max, n - 1)
  }

  /** One turn of the Python loop. */
  lemma PyRunTurn(s: Sim, max: nat, n: nat)
    requires Good(s) && s.running && n > 0
    ensures match PyStep(s)
            case Err(c) => PyRun(s, max, n) == Conflict(c)
            case Ok(s') =>
              Good(s') && s'.cycles > s.cycles
              && PyRun(s, max, n) == if max > 0 && s'.cycles >= max then CycleLimit(s') else PyRun(s', max, n - 1)
  {
    hide Good, PyStep;
    if PyStep(s).Ok? { PyStepGood(s); }
  }

  /** Where a run ends without a turn: halted, or out of turns. */
  lemma PyRunEnds(max: nat)
    ensures forall s: Sim, n: nat | Good(s) && !s.running :: PyRun(s, max, n) == Halted(s)
    ensures forall s: Sim | Good(s) && s.running :: PyRun(s, max, 0) == StillRunning(s)
  {
    hide Good, PyStep;
  }

  /** Every turn costs a cycle, so a limited run is over after as many turns as cycles are left. */
  lemma {:induction false} PyTurnsSuffice(s: Sim, max: nat, n: nat)
    requires Good(s) && max > 0 && n > 0 && s.cycles + n >= max
    ensures !PyRun(s, max, n).StillRunning?
    decreases n
  {
    hide Good, PyStep;
    if s.running {
      PyRunTurn(s, max, n);
      hide PyRun;
      if PyStep(s).Ok? && PyStep(s).value.cycles < max { PyTurnsSuffice(PyStep(s).value, max, n - 1); }
    }
  }

  /** One turn of the C loop. */
  lemma CRunTurn(s: Sim, max: nat, n: nat)
    requires Good(s) && s.running && n > 0
    ensures Good(CStep(s)) && CStep(s).cycles > s.cycles
    ensures CRun(s, max, n)
         == if max > 0 && CStep(s).cycles >= max then CycleLimit(CStep(s)) else CRun(CStep(s), max, n - 1)
  {
    hide Good, CStep;
    CStepGood(s);
  }

  /** How a run ends: halted below the limit, at the limit at once when it is reached, or out of turns. */
  lemma {:induction false} CRunMeans(s: Sim, max: nat, n: nat)
    requires Good(s) && s.running && (max > 0 ==> s.cycles < max)
    ensures match CRun(s, max, n)
            case Halted(s') => !s'.running && (max > 0 ==> s'.cycles < max)
            case CycleLimit(s') => max > 0 && max <= s'.cycles <= max + 1
            case StillRunning(s') => s'.running && (max > 0 ==> s'.cycles < max) && s'.retired == s.retired + n
            case Conflict(_) => false
    decreases n
  {
    hide Good, CStep;
    if n > 0 {
      CRunTurn(s, max, n);
      StepCounts(s);
      CRunEnds(max);
      if CStep(s).running && (max > 0 ==> CStep(s).cycles < max) { CRunMeans(CStep(s), max, n - 1); }
    }
  }

  lemma CRunEnds(max: nat)
    ensures forall s: Sim, n: nat | Good(s) && !s.running :: CRun(s, max, n) == Halted(s)
    ensures forall s: Sim | Good(s) && s.running :: CRun(s, max, 0) == StillRunning(s)
    ensures forall s: Sim, n: nat | Good(s) :: !CRun(s, max, n).Conflict?
  {
    hide Good, CStep;
    forall s: Sim, n: nat | Good(s) ensures !CRun(s, max, n).Conflict? { CNeverConflicts(s, max, n); }
  }

  lemma {:induction false} CNeverConflicts(s: Sim, max: nat, n: nat)
    requires Good(s)
    ensures !CRun(s, max, n).Conflict?
    decreases n
  {
    hide Good, CStep;
    if s.running && n > 0 {
      CStepGood(s);
      CNeverConflicts(CStep(s), max, n - 1);
    }
  }

  lemma {:induction false} CTurnsSuffice(s: Sim, max: nat, n: nat)
    requires Good(s) && max > 0 && n > 0 && s.cycles + n >= max
    ensures !CRun(s, max, n).StillRunning?
    decreases n
  {
    hide Good, CStep;
    if s.running {
      CRunTurn(s, max, n);
      if CStep(s).cycles < max { CTurnsSuffice(CStep(s), max, n - 1); }
    }
  }

  /** The two simulators run in lockstep: from equal states on disjoint banks they agree, after any
      number of turns, on registers, T, pc, every bank, the running flag, the retired and cycle
      counts and the way the run ends; the Python bus never reports a conflict. */
  lemma {:induction false} RunsAgree(s: Sim, max: nat, n: nat)
    requires Good(s) && Disjoint(s.banks)
    ensures PyRun(s, max, n) == CRun(s, max, n)
    decreases n
  {
    hide Good, Disjoint, PyStep, CStep;
    if n > 0 && s.running {
      StepAgrees(s);
      CStepGood(s);
      var s' := CStep(s);
      if !(max > 0 && s'.cycles >= max) { RunsAgree(s', max, n - 1); }
    }
  }

  // ---- the abstract machine -------------------------------------------------------

  function CellAt(banks: seq<Bank>, a: Word): M.Cell
    requires forall i | 0 <= i < |banks| :: GoodBank(banks[i])
  {
    match FirstBank(banks, a, 0)
    case None => M.Open
    case Some(i) =>
      if banks[i].kind == IoBank then M.Io
      else if banks[i].kind == RamBank then M.Ram(Answer(banks[i], a))
      else M.Rom(Answer(banks[i], a))
  }

  /** The address space the banks present. */
  function FlatMemory(banks: seq<Bank>): M.Memory
    requires forall i | 0 <= i < |banks| :: GoodBank(banks[i])
  {
    seq(4096, a requires 0 <= a < 4096 => CellAt(banks, a))
  }

  /** Forget the banks and the counters. */
  function Abstract(s: Sim): M.State
    requires Good(s)
  {
    M.State(s.regs[1], s.regs[2], s.regs[3], s.regs[4], s.regs[5], s.regs[6], s.t, s.pc,
            FlatMemory(s.banks), s.running)
  }

  /** The flat memory cell by cell: the stored word, writable or not, of the only bank that covers the address,
      an io page, or nothing. */
  lemma CellIs(banks: seq<Bank>, a: Word, k: nat)
    requires (forall i | 0 <= i < |banks| :: GoodBank(banks[i])) && k <= |banks|
    requires forall i | 0 <= i < |banks| && i != k :: !Covers(banks[i], a)
    ensures k < |banks| && Covers(banks[k], a) ==>
              var b := banks[k];
              GoodBank(b)
              && FlatMemory(banks)[a] == match b.kind
                                         case RamBank => M.Ram(b.data[a - b.base])
                                         case RomBank => M.Rom(b.data[a - b.base])
                                         case IoBank => M.Io
    ensures k == |banks| ==> FlatMemory(banks)[a] == M.Open
  {
    FirstIs(banks, a, 0);
    assert FlatMemory(banks)[a] == CellAt(banks, a);
    hide FlatMemory;
  }

  lemma FlatRead(banks: seq<Bank>, a: Word)
    requires forall i | 0 <= i < |banks| :: GoodBank(banks[i])
    ensures M.Read(FlatMemory(banks), a) == ScanRead(banks, a)
  {
    assert FlatMemory(banks)[a] == CellAt(banks, a);
    hide GoodBank, FlatMemory;
  }

  lemma {:induction false} SameScan(banks: seq<Bank>, banks': seq<Bank>, a: Word, i: nat)
    requires |banks| == |banks'| && i <= |banks|
    requires forall k | 0 <= k < |banks| :: banks[k].base == banks'[k].base && banks[k].size == banks'[k].size
    ensures FirstBank(banks, a, i) == FirstBank(banks', a, i)
    decreases |banks| - i
  {
    if i < |banks| { SameScan(banks, banks', a, i + 1); }
  }

  lemma ScanWriteShape(banks: seq<Bank>, a: Word, v: Word)
    requires forall i | 0 <= i < |banks| :: GoodBank(banks[i])
    ensures var bs := ScanWrite(banks, a, v);
            |bs| == |banks| && forall i | 0 <= i < |bs| ::
              GoodBank(bs[i]) && bs[i].base == banks[i].base && bs[i].size == banks[i].size && bs[i].kind == banks[i].kind
  {
  }

  lemma WrittenCell(banks: seq<Bank>, a: Word, v: Word, x: Word)
    requires forall i | 0 <= i < |banks| :: GoodBank(banks[i])
    ensures forall i | 0 <= i < |ScanWrite(banks, a, v)| :: GoodBank(ScanWrite(banks, a, v)[i])
    ensures CellAt(ScanWrite(banks, a, v), x)
            == if x == a && CellAt(banks, a).Ram? then M.Ram(v) else CellAt(banks, x)
  {
    ScanWriteShape(banks, a, v);
    SameScan(banks, ScanWrite(banks, a, v), x, 0);
    hide FirstBank;
  }

  lemma FlatWrite(banks: seq<Bank>, a: Word, v: Word)
    requires forall i | 0 <= i < |banks| :: GoodBank(banks[i])
    ensures forall i | 0 <= i < |ScanWrite(banks, a, v)| :: GoodBank(ScanWrite(banks, a, v)[i])
    ensures FlatMemory(ScanWrite(banks, a, v)) == M.Write(FlatMemory(banks), a, v)
  {
    ScanWriteShape(banks, a, v);
    hide GoodBank, ScanWrite, CellAt;
    forall x: Word
      ensures FlatMemory(ScanWrite(banks, a, v))[x] == M.Write(FlatMemory(banks), a, v)[x]
    {
      WrittenCell(banks, a, v, x);
    }
    assert FlatMemory(ScanWrite(banks, a, v)) == M.Write(FlatMemory(banks), a, v);
  }

  lemma GetIs(s: Sim, r: Reg)
    requires Good(s)
    ensures Abstract(s).Get(r) == s.regs[r]
  {
    hide FlatMemory, GoodBank;
  }

  /** A register write on the list and on the record. */
  lemma SetIs(s: Sim, r: Reg, v: int)
    requires Good(s)
    ensures Good(s.(regs := SetReg(s.regs, r, v)))
    ensures Abstract(s.(regs := SetReg(s.regs, r, v))) == Abstract(s).Set(r, v)
  {
    hide FlatMemory, GoodBank, Mask12;
  }

  /** A step of the C simulator is a step of the abstract machine, on any banks; on disjoint ones
      so is a step of the Python simulator. */
  lemma StepRefines(s: Sim)
    requires Good(s)
    ensures Good(CStep(s)) && Abstract(CStep(s)) == M.Step(Abstract(s))
    ensures Disjoint(s.banks) ==> PyStep(s) == Ok(CStep(s))
  {
    if Disjoint(s.banks) { StepAgrees(s); }
    hide PyStep;
    CStepGood(s);
    var ir := ScanRead(s.banks, s.pc);
    FlatRead(s.banks, s.pc);
    AbstractT(s);
    HaltWord(ir);
    hide ScanRead, Disjoint, CExec, M.Exec, FromFields, FlatMemory, Abstract, Good;
    ExecRefines(s, ir / 512 % 8, ir / 64 % 8, ir / 8 % 8, ir % 8, ir % 64, ir == 4095);
  }

  /** Over a whole run: however it ends, the state is that of the abstract machine after as many steps as
      instructions were retired. */
  lemma {:induction false} RunRefines(s: Sim, max: nat, n: nat)
    requires Good(s)
    ensures var out := CRun(s, max, n);
            !out.Conflict? && Good(out.s) && out.s.retired >= s.retired
            && Abstract(out.s) == M.Run(Abstract(s), out.s.retired - s.retired)
    decreases n
  {
    hide Good, CStep, Abstract, M.Step;
    if s.running && n > 0 {
      CRunTurn(s, max, n);
      StepRefines(s);
      StepCounts(s);
      if !(max > 0 && CStep(s).cycles >= max) { RunRefines(CStep(s), max, n - 1); }
    }
  }

  /** The facts that carry register and memory accesses from one state to the other. */
  ghost predicate Bridge(s: Sim, rd: Reg, ra: Reg, rb: Reg) {
    Good(s)
    && Abstract(s).Get(ra) == Val(s.regs, ra) && Abstract(s).Get(rb) == Val(s.regs, rb)
    && Abstract(s).Get(rd) == Val(s.regs, rd)
  }

  lemma Bridged(s: Sim, rd: Reg, ra: Reg, rb: Reg)
    requires Good(s)
    ensures Bridge(s, rd, ra, rb)
  {
    GetIs(s, ra);
    GetIs(s, rb);
    GetIs(s, rd);
    hide FlatMemory, GoodBank, Abstract;
  }

  /** A step that writes one register and moves on. */
  lemma WriteRefines(s: Sim, rd: Reg, v: int, t: Bit, memory: bool)
    requires Good(s)
    ensures var s' := Advance(s, SetReg(s.regs, rd, v), t, Mask12(s.pc + 1), s.running, s.banks, memory);
            Good(s') && Abstract(s') == Abstract(s).Next().Set(rd, v).(t := t)
            && (t == s.t ==> Abstract(s') == Abstract(s).Next().Set(rd, v))
  {
    SetIs(s, rd, v);
    M.SetAndPc(Abstract(s), rd, v, Mask12(s.pc + 1));
    hide SetReg, FlatMemory, GoodBank, M.State.Set, Mask12;
    SetKeepsT(Abstract(s).Next(), rd, v);
  }

  lemma SetKeepsT(s: M.State, r: Reg, v: int)
    ensures s.Set(r, v).t == s.t
  {
    hide Mask12;
  }

  /** A step that only sets the program counter and the running flag. */
  lemma JumpRefines(s: Sim, pc: Word, running: bool)
    requires Good(s)
    ensures var s' := Advance(s, s.regs, s.t, pc, running, s.banks, false);
            Good(s') && Abstract(s') == Abstract(s).(pc := pc, running := running)
  {
    hide FlatMemory, GoodBank;
  }

  lemma LinkRefines(s: Sim, rd: Reg, ra: Reg)
    requires Good(s)
    ensures var s' := Advance(s, SetReg(s.regs, rd, Mask12(s.pc + 1)), s.t, Val(s.regs, ra), s.running, s.banks, false);
            Good(s') && Abstract(s') == M.Exec(Abstract(s), Jalr(rd, ra))
  {
    SetIs(s, rd, Mask12(s.pc + 1));
    M.SetAndPc(Abstract(s), rd, s.pc + 1, Mask12(s.pc + 1));
    GetIs(s, ra);
    SetMaskedM(Abstract(s), rd, s.pc + 1);
    hide SetReg, FlatMemory, GoodBank, M.State.Set, M.State.Get, Mask12;
  }

  lemma SetMaskedM(s: M.State, r: Reg, v: int)
    ensures s.Set(r, Mask12(v)) == s.Set(r, v)
  {
    hide Mask12;
    MaskTwice(v);
  }

  lemma StoreRefines(s: Sim, rd: Reg, ra: Reg)
    requires Good(s)
    ensures var s' := Advance(s, s.regs, s.t, Mask12(s.pc + 1), s.running, ScanWrite(s.banks, Val(s.regs, ra), Val(s.regs, rd)), true);
            Good(s') && Abstract(s') == M.Exec(Abstract(s), Swr(rd, ra))
  {
    FlatWrite(s.banks, Val(s.regs, ra), Val(s.regs, rd));
    GetIs(s, ra);
    GetIs(s, rd);
    hide ScanWrite, FlatMemory, GoodBank, M.State.Get, Mask12, M.Write;
  }

  lemma ExecRefines(s: Sim, op: Reg, rd: Reg, ra: Reg, rb: Reg, imm: Imm6, halt: bool)
    requires Good(s) && (halt ==> op == 7 && rb == 7)
    ensures Good(CExec(s, op, rd, ra, rb, imm, halt))
    ensures Abstract(CExec(s, op, rd, ra, rb, imm, halt)) == M.Exec(Abstract(s), FromFields(op, rd, ra, rb, imm, halt))
  {
    hide *;
    if op < 4 {
      AluRefines(s, op, rd, ra, rb, imm, halt);
    } else if op < 7 {
      ImmediateRefines(s, op, rd, ra, rb, imm, halt);
    } else {
      SpecialRefines(s, op, rd, ra, rb, imm, halt);
    }
  }

  lemma AluRefines(s: Sim, op: Reg, rd: Reg, ra: Reg, rb: Reg, imm: Imm6, halt: bool)
    requires Good(s) && op < 4 && !halt
    ensures Good(CExec(s, op, rd, ra, rb, imm, halt))
    ensures Abstract(CExec(s, op, rd, ra, rb, imm, halt)) == M.Exec(Abstract(s), FromFields(op, rd, ra, rb, imm, halt))
  {
    hide Good, GoodBank, FlatMemory, Abstract, BitAnd, Mask12, SetReg, Bit12, Val, Advance, M.State.Set, M.State.Get, M.State.Next;
    AbstractT(s);
    Bridged(s, rd, ra, rb);
    var x: int, y: int := Val(s.regs, ra), Val(s.regs, rb);
    BorrowBit(x, y);
    if op == 0 {
      WriteRefines(s, rd, BitAnd(x, y), s.t, false);
    } else if op == 1 {
      WriteRefines(s, rd, x - y, if x < y then 1 else 0, false);
    } else if op == 2 {
      WriteRefines(s, rd, x + y, if x + y > 4095 then 1 else 0, false);
    } else {
      WriteRefines(s, rd, x + y + s.t, if x + y + s.t > 4095 then 1 else 0, false);
    }
  }

  lemma AbstractT(s: Sim)
    requires Good(s)
    ensures Abstract(s).t == s.t && Abstract(s).pc == s.pc && Abstract(s).running == s.running
    ensures Abstract(s).mem == FlatMemory(s.banks)
    ensures |s.regs| == 8 && forall i | 0 <= i < |s.banks| :: GoodBank(s.banks[i])
  {
    hide FlatMemory, GoodBank;
  }

  lemma ImmediateRefines(s: Sim, op: Reg, rd: Reg, ra: Reg, rb: Reg, imm: Imm6, halt: bool)
    requires Good(s) && 4 <= op < 7 && !halt
    ensures Good(CExec(s, op, rd, ra, rb, imm, halt))
    ensures Abstract(CExec(s, op, rd, ra, rb, imm, halt)) == M.Exec(Abstract(s), FromFields(op, rd, ra, rb, imm, halt))
  {
    hide Good, GoodBank, FlatMemory, Abstract, Mask12, SetReg, Bit12, Val, Advance, M.State.Set, M.State.Get, CBranchOffset, BranchOffset;
    AbstractT(s);
    Bridged(s, rd, rd, rd);
    var x: int := Val(s.regs, rd);
    BorrowBit(x, imm);
    SmallOffset(rd, imm);
    if op < 6 && (rd == 0 || rd == 7) {
      JumpRefines(s, Mask12(s.pc + CBranchOffset(rd, imm)), s.running);
      JumpRefines(s, Mask12(s.pc + 1), s.running);
    } else if op == 4 {
      WriteRefines(s, rd, imm * 64, s.t, false);
    } else if op == 5 {
      WriteRefines(s, rd, x + imm, s.t, false);
    } else {
      WriteRefines(s, rd, x - imm, if x < imm then 1 else 0, false);
    }
  }

  lemma SmallOffset(rd: Reg, imm: Imm6)
    ensures CBranchOffset(rd, imm) == BranchOffset(rd, imm)
  {
  }

  lemma SpecialRefines(s: Sim, op: Reg, rd: Reg, ra: Reg, rb: Reg, imm: Imm6, halt: bool)
    requires Good(s) && op == 7 && (halt ==> rb == 7)
    ensures Good(CExec(s, op, rd, ra, rb, imm, halt))
    ensures Abstract(CExec(s, op, rd, ra, rb, imm, halt)) == M.Exec(Abstract(s), FromFields(op, rd, ra, rb, imm, halt))
  {
    hide Good, GoodBank, FlatMemory, Abstract, ScanRead, ScanWrite, Mask12, SetReg, Val, Advance, M.State.Set, M.State.Get, M.Read, M.Write;
    AbstractT(s);
    Bridged(s, rd, ra, rb);
    var x := Val(s.regs, ra);
    FlatRead(s.banks, x);
    TopBit(x);
    if halt {
      JumpRefines(s, Mask12(s.pc + 1), false);
    } else if rb == 0 {
      LinkRefines(s, rd, ra);
    } else if rb == 1 {
      WriteRefines(s, rd, x / 2 + s.t * 2048, x % 2, false);
    } else if rb == 2 {
      WriteRefines(s, rd, x * 2 % 4096 + s.t, x / 2048, false);
    } else if rb == 3 {
      WriteRefines(s, rd, ScanRead(s.banks, x), s.t, true);
    } else if rb == 4 {
      StoreRefines(s, rd, ra);
    } else {
      JumpRefines(s, Mask12(s.pc + 1), s.running);
    }
  }

  lemma TopBit(x: Word)
    ensures x / 2048 % 2 == x / 2048
  {
  }
}
