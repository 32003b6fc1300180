/** The two simulators as step functions on one state: the Python CPU with its per-address bus
    (pytools/sim.py) and the C loop with its bank scan (sim2.c).  No terminal is attached. */
module SimModel {
  import opened Isa
  import opened ObjFile
  import M = Machine

  datatype BankKind = RamBank | RomBank | IoBank

  /** A memory bank; an io bank has no backing store. */
  datatype Bank = Bank(kind: BankKind, base: nat, size: nat, data: seq<Word>)

  datatype Sim = Sim(regs: seq<Word>, t: Bit, pc: Word, banks: seq<Bank>, running: bool,
                     retired: nat, cycles: nat)

  predicate Covers(b: Bank, a: Word) { b.base <= a < b.base + b.size }

  /** Registers 0 and 7 hold their wired values; banks end within the address space and own
      their words. */
  predicate Good(s: Sim) {
    |s.regs| == 8 && s.regs[0] == 0 && s.regs[7] == 4095
    && forall i | 0 <= i < |s.banks| :: GoodBank(s.banks[i])
  }

  predicate GoodBank(b: Bank) {
    b.base + b.size <= 4096 && (b.kind != IoBank ==> |b.data| == b.size)
  }

  /** No address is in two banks. */
  ghost predicate Disjoint(banks: seq<Bank>) {
    forall i, j, a: Word | 0 <= i < j < |banks| && Covers(banks[i], a) :: !Covers(banks[j], a)
  }

  // ---- the Python bus -------------------------------------------------------------

  /** What one registered device answers. */
  function Answer(b: Bank, a: Word): Word
    requires GoodBank(b) && Covers(b, a)
  {
    if b.kind == IoBank then 0 else b.data[a - b.base]
  }

  /** All answers on the bus at `a`, in registration order. */
  function Responses(banks: seq<Bank>, a: Word): seq<Word>
    requires forall i | 0 <= i < |banks| :: GoodBank(banks[i])
  {
    if banks == [] then []
    else
      Responses(banks[..|banks| - 1], a)
      + if Covers(banks[|banks| - 1], a) then [Answer(banks[|banks| - 1], a)] else []
  }

  datatype BusConflict = BusConflict(addr: Word, values: seq<Word>)

  /** `Bus.read`: nobody answers, one device answers, or a conflict. */
  function BusRead(banks: seq<Bank>, a: Word): Result<Word, BusConflict>
    requires forall i | 0 <= i < |banks| :: GoodBank(banks[i])
  {
    var rs := Responses(banks, a);
    if rs == [] then Ok(4095) else if |rs| == 1 then Ok(rs[0]) else Err(BusConflict(a, rs))
  }

  function WriteBank(b: Bank, a: Word, v: Word): Bank
    requires GoodBank(b)
  {
    if Covers(b, a) && b.kind == RamBank then b.(data := b.data[a - b.base := v]) else b
  }

  /** `Bus.write`: every RAM device at the address takes the word. */
  function BusWrite(banks: seq<Bank>, a: Word, v: Word): seq<Bank>
    requires forall i | 0 <= i < |banks| :: GoodBank(banks[i])
  {
    seq(|banks|, i requires 0 <= i < |banks| => WriteBank(banks[i], a, v))
  }

  // ---- the C bank scan ------------------------------------------------------------

  /** The first bank from `i` on that covers `a`. */
  function FirstBank(banks: seq<Bank>, a: Word, i: nat): (r: Option<nat>)
    requires i <= |banks|
    ensures r.Some? ==> i <= r.value < |banks| && Covers(banks[r.value], a)
    decreases |banks| - i
  {
    if i == |banks| then None
    else if Covers(banks[i], a) then Some(i)
    else FirstBank(banks, a, i + 1)
  }

  function ScanRead(banks: seq<Bank>, a: Word): Word
    requires forall i | 0 <= i < |banks| :: GoodBank(banks[i])
  {
    match FirstBank(banks, a, 0)
    case None => 4095
    case Some(i) => Answer(banks[i], a)
  }

  function ScanWrite(banks: seq<Bank>, a: Word, v: Word): seq<Bank>
    requires forall i | 0 <= i < |banks| :: GoodBank(banks[i])
  {
    match FirstBank(banks, a, 0)
    case None => banks
    case Some(i) => banks[i := WriteBank(banks[i], a, v)]
  }

  // ---- both memories agree --------------------------------------------------------

  lemma {:induction false} NoResponses(banks: seq<Bank>, a: Word)
    requires forall i | 0 <= i < |banks| :: GoodBank(banks[i])
    requires forall i | 0 <= i < |banks| :: !Covers(banks[i], a)
    ensures Responses(banks, a) == []
  {
    if banks != [] { NoResponses(banks[..|banks| - 1], a); }
  }

  lemma {:induction false} OneResponse(banks: seq<Bank>, a: Word, k: nat)
    requires forall i | 0 <= i < |banks| :: GoodBank(banks[i])
    requires k < |banks| && Covers(banks[k], a)
    requires forall i | 0 <= i < |banks| && i != k :: !Covers(banks[i], a)
    ensures Responses(banks, a) == [Answer(banks[k], a)]
  {
    hide Answer;
    var init := banks[..|banks| - 1];
    if k == |banks| - 1 { NoResponses(init, a); } else { OneResponse(init, a, k); }
  }

  lemma {:induction false} FirstIs(banks: seq<Bank>, a: Word, i: nat)
    requires i <= |banks|
    ensures FirstBank(banks, a, i).None? ==> forall j | i <= j < |banks| :: !Covers(banks[j], a)
    decreases |banks| - i
  {
    if i < |banks| { FirstIs(banks, a, i + 1); }
  }

  /** On disjoint banks the per-address bus and the first-match scan read and write alike. */
  lemma BusIsScan(banks: seq<Bank>, a: Word, v: Word)
    requires (forall i | 0 <= i < |banks| :: GoodBank(banks[i])) && Disjoint(banks)
    ensures BusRead(banks, a) == Ok(ScanRead(banks, a))
    ensures BusWrite(banks, a, v) == ScanWrite(banks, a, v)
  {
    hide Answer, GoodBank;
    FirstIs(banks, a, 0);
    match FirstBank(banks, a, 0)
    case None =>
      NoResponses(banks, a);
      assert BusWrite(banks, a, v) == banks;
    case Some(k) =>
      assert forall i | 0 <= i < |banks| && i != k :: !Covers(banks[i], a);
      OneResponse(banks, a, k);
      assert BusWrite(banks, a, v) == banks[k := WriteBank(banks[k], a, v)];
  }

  /** What memory answers: where one bank alone covers the address, its word if it has a store and 0 if it
      is io; where none does, all ones.  The scan takes the first bank that covers it. */
  lemma ReadIs(banks: seq<Bank>, a: Word, k: nat)
    requires (forall i | 0 <= i < |banks| :: GoodBank(banks[i])) && k <= |banks|
    requires forall i | 0 <= i < |banks| && i != k :: !Covers(banks[i], a)
    ensures k < |banks| && Covers(banks[k], a) ==>
              var b := banks[k];
              GoodBank(b) &&
              var w := if b.kind == IoBank then 0 else b.data[a - b.base];
              BusRead(banks, a) == Ok(w) && ScanRead(banks, a) == w
    ensures k == |banks| ==> BusRead(banks, a) == Ok(4095) && ScanRead(banks, a) == 4095
  {
    FirstIs(banks, a, 0);
    if k == |banks| {
      NoResponses(banks, a);
    } else if Covers(banks[k], a) {
      OneResponse(banks, a, k);
    }
  }

  /** A store reaches every RAM bank at the address on the bus, and only the first bank there in the scan. */
  lemma WriteIs(banks: seq<Bank>, a: Word, v: Word, i: nat)
    requires (forall k | 0 <= k < |banks| :: GoodBank(banks[k])) && i < |banks|
    ensures var b, bus, scan := banks[i], BusWrite(banks, a, v), ScanWrite(banks, a, v);
            |bus| == |scan| == |banks|
            && bus[i] == (if Covers(b, a) && b.kind == RamBank then b.(data := b.data[a - b.base := v]) else b)
            && scan[i] == if exists k | 0 <= k < i :: Covers(banks[k], a) then b else bus[i]
  {
    hide GoodBank, Covers;
    FirstIs(banks, a, 0);
    FirstEarliest(banks, a, 0);
  }

  lemma {:induction false} FirstEarliest(banks: seq<Bank>, a: Word, i: nat)
    requires i <= |banks|
    ensures FirstBank(banks, a, i).Some? ==> forall j | i <= j < FirstBank(banks, a, i).value :: !Covers(banks[j], a)
    decreases |banks| - i
  {
    hide Covers;
    if i < |banks| { FirstEarliest(banks, a, i + 1); }
  }

  lemma {:induction false} CountResponses(banks: seq<Bank>, a: Word, j: nat, k: nat)
    requires forall i | 0 <= i < |banks| :: GoodBank(banks[i])
    requires j < k < |banks| && Covers(banks[j], a) && Covers(banks[k], a)
    ensures |Responses(banks, a)| >= 2
  {
    hide Answer;
    if k < |banks| - 1 { CountResponses(banks[..|banks| - 1], a, j, k); } else { SomeResponse(banks[..k], a, j); }
  }

  lemma {:induction false} SomeResponse(banks: seq<Bank>, a: Word, j: nat)
    requires forall i | 0 <= i < |banks| :: GoodBank(banks[i])
    requires j < |banks| && Covers(banks[j], a)
    ensures |Responses(banks, a)| >= 1
  {
    hide Answer;
    if j < |banks| - 1 { SomeResponse(banks[..|banks| - 1], a, j); }
  }

  /** Where banks overlap the two differ: the bus raises a conflict on every shared address, the
      scan answers from the first bank. */
  lemma BusConflicts(banks: seq<Bank>, a: Word, j: nat, k: nat)
    requires forall i | 0 <= i < |banks| :: GoodBank(banks[i])
    requires j < k < |banks| && Covers(banks[j], a) && Covers(banks[k], a)
    ensures BusRead(banks, a).Err?
  {
    CountResponses(banks, a, j, k);
    hide Responses;
  }

  /** The bus answers as the scan does at every address exactly when no two banks overlap. */
  lemma BusIsScanIff(banks: seq<Bank>)
    requires forall i | 0 <= i < |banks| :: GoodBank(banks[i])
    ensures (forall a: Word :: BusRead(banks, a) == Ok(ScanRead(banks, a))) <==> Disjoint(banks)
  {
    hide GoodBank, BusRead, ScanRead, Covers;
    if Disjoint(banks) {
      forall a: Word ensures BusRead(banks, a) == Ok(ScanRead(banks, a)) { BusIsScan(banks, a, 0); }
    } else {
      var i, j, a: Word :| 0 <= i < j < |banks| && Covers(banks[i], a) && Covers(banks[j], a);
      BusConflicts(banks, a, i, j);
    }
  }

  // ---- one step of each -----------------------------------------------------------

  /** `wrreg`. */
  function SetReg(regs: seq<Word>, rd: Reg, v: int): seq<Word>
    requires |regs| == 8
  {
    if rd == 0 || rd == 7 then regs else regs[rd := Mask12(v)]
  }

  function Val(regs: seq<Word>, r: Reg): Word
    requires |regs| == 8
  {
    regs[r]
  }

  function Advance(s: Sim, regs: seq<Word>, t: Bit, pc: Word, running: bool, banks: seq<Bank>, memory: bool): Sim {
    Sim(regs, t, pc, banks, running, s.retired + 1, s.cycles + if memory then 2 else 1)
  }

  /** `CPU.step` on the fields of the fetched word, in the order of its branches; `halt` says the
      word is 0o7777. */
  function PyExec(s: Sim, op: Reg, rd: Reg, ra: Reg, rb: Reg, imm: Imm6, halt: bool): Result<Sim, BusConflict>
    requires Good(s)
  {
    var next := Mask12(s.pc + 1);
    if op == 0 then
      Ok(Advance(s, SetReg(s.regs, rd, BitAnd(Val(s.regs, ra), Val(s.regs, rb))), s.t, next, s.running, s.banks, false))
    else if op == 1 then
      Ok(Advance(s, SetReg(s.regs, rd, Mask12(Val(s.regs, ra) - Val(s.regs, rb))),
                 if Val(s.regs, ra) < Val(s.regs, rb) then 1 else 0, next, s.running, s.banks, false))
    else if op == 2 then
      var v: int := Val(s.regs, ra) + Val(s.regs, rb);
      Ok(Advance(s, SetReg(s.regs, rd, v), if v > 4095 then 1 else 0, next, s.running, s.banks, false))
    else if op == 3 then
      var v: int := Val(s.regs, ra) + Val(s.regs, rb) + s.t;
      Ok(Advance(s, SetReg(s.regs, rd, v), if v > 4095 then 1 else 0, next, s.running, s.banks, false))
    else if op == 4 && (rd == 0 || rd == 7) then
      Ok(Advance(s, s.regs, s.t, if s.t == 0 then Mask12(s.pc + BranchOffset(rd, imm)) else next, s.running, s.banks, false))
    else if op == 5 && (rd == 0 || rd == 7) then
      Ok(Advance(s, s.regs, s.t, if s.t != 0 then Mask12(s.pc + BranchOffset(rd, imm)) else next, s.running, s.banks, false))
    else if op == 4 then
      Ok(Advance(s, SetReg(s.regs, rd, imm * 64), s.t, next, s.running, s.banks, false))
    else if op == 5 then
      Ok(Advance(s, SetReg(s.regs, rd, Val(s.regs, rd) + imm), s.t, next, s.running, s.banks, false))
    else if op == 6 then
      Ok(Advance(s, SetReg(s.regs, rd, Mask12(Val(s.regs, rd) - imm)),
                 if Val(s.regs, rd) < imm then 1 else 0, next, s.running, s.banks, false))
    else if rb == 0 then
      Ok(Advance(s, SetReg(s.regs, rd, next), s.t, Val(s.regs, ra), s.running, s.banks, false))
    else if rb == 1 then
      Ok(Advance(s, SetReg(s.regs, rd, Val(s.regs, ra) / 2 + s.t * 2048), Val(s.regs, ra) % 2, next, s.running, s.banks, false))
    else if rb == 2 then
      Ok(Advance(s, SetReg(s.regs, rd, Val(s.regs, ra) * 2 % 4096 + s.t), Val(s.regs, ra) / 2048 % 2, next, s.running, s.banks, false))
    else if rb == 3 then
      match BusRead(s.banks, Val(s.regs, ra))
      case Err(c) => Err(c)
      case Ok(w) => Ok(Advance(s, SetReg(s.regs, rd, w), s.t, next, s.running, s.banks, true))
    else if rb == 4 then
      Ok(Advance(s, s.regs, s.t, next, s.running, BusWrite(s.banks, Val(s.regs, ra), Val(s.regs, rd)), true))
    else if halt then
      Ok(Advance(s, s.regs, s.t, next, false, s.banks, false))
    else
      Ok(Advance(s, s.regs, s.t, next, s.running, s.banks, false))
  }

  /** `CPU.step`. */
  function PyStep(s: Sim): Result<Sim, BusConflict>
    requires Good(s)
  {
    match BusRead(s.banks, s.pc)
    case Err(c) => Err(c)
    case Ok(ir) => PyExec(s, ir / 512 % 8, ir / 64 % 8, ir / 8 % 8, ir % 8, ir % 64, ir == 4095)
  }

  /** Bit 12 of an `int` in two's complement: the C simulator's borrow test. */
  function Bit12(v: int): Bit { v / 4096 % 2 }

  /** The body of the C loop after the fetch: halt first, then the switch. */
  function CExec(s: Sim, op: Reg, rd: Reg, ra: Reg, rb: Reg, imm: Imm6, halt: bool): Sim
    requires Good(s)
  {
    var next := Mask12(s.pc + 1);
    if halt then
      Advance(s, s.regs, s.t, next, false, s.banks, false)
    else if op == 0 then
      Advance(s, SetReg(s.regs, rd, BitAnd(Val(s.regs, ra), Val(s.regs, rb))), s.t, next, s.running, s.banks, false)
    else if op == 1 then
      var v: int := Val(s.regs, ra) - Val(s.regs, rb);
      Advance(s, SetReg(s.regs, rd, v), Bit12(v), next, s.running, s.banks, false)
    else if op == 2 then
      var v: int := Val(s.regs, ra) + Val(s.regs, rb);
      Advance(s, SetReg(s.regs, rd, v), if v > 4095 then 1 else 0, next, s.running, s.banks, false)
    else if op == 3 then
      var v: int := Val(s.regs, ra) + Val(s.regs, rb) + s.t;
      Advance(s, SetReg(s.regs, rd, v), if v > 4095 then 1 else 0, next, s.running, s.banks, false)
    else if op == 4 then
      if rd == 0 || rd == 7 then
        Advance(s, s.regs, s.t, if s.t == 0 then Mask12(s.pc + CBranchOffset(rd, imm)) else next, s.running, s.banks, false)
      else
        Advance(s, SetReg(s.regs, rd, imm * 64), s.t, next, s.running, s.banks, false)
    else if op == 5 then
      if rd == 0 || rd == 7 then
        Advance(s, s.regs, s.t, if s.t != 0 then Mask12(s.pc + CBranchOffset(rd, imm)) else next, s.running, s.banks, false)
      else
        Advance(s, SetReg(s.regs, rd, Val(s.regs, rd) + imm), s.t, next, s.running, s.banks, false)
    else if op == 6 then
      var v: int := Val(s.regs, rd) - imm;
      Advance(s, SetReg(s.regs, rd, v), Bit12(v), next, s.running, s.banks, false)
    else if rb == 0 then
      Advance(s, SetReg(s.regs, rd, next), s.t, Val(s.regs, ra), s.running, s.banks, false)
    else if rb == 1 then
      Advance(s, SetReg(s.regs, rd, Val(s.regs, ra) / 2 + s.t * 2048), Val(s.regs, ra) % 2, next, s.running, s.banks, false)
    else if rb == 2 then
      Advance(s, SetReg(s.regs, rd, Val(s.regs, ra) * 2 % 4096 + s.t), Val(s.regs, ra) / 2048 % 2, next, s.running, s.banks, false)
    else if rb == 3 then
      Advance(s, SetReg(s.regs, rd, ScanRead(s.banks, Val(s.regs, ra))), s.t, next, s.running, s.banks, true)
    else if rb == 4 then
      Advance(s, s.regs, s.t, next, s.running, ScanWrite(s.banks, Val(s.regs, ra), Val(s.regs, rd)), true)
    else
      Advance(s, s.regs, s.t, next, s.running, s.banks, false)
  }

  /** `branch_offset` of sim2.c. */
  function CBranchOffset(rd: Reg, imm: Imm6): int { if rd == 7 then imm - 64 else imm }

  function CStep(s: Sim): Sim
    requires Good(s)
  {
    var ir := ScanRead(s.banks, s.pc);
    CExec(s, ir / 512 % 8, ir / 64 % 8, ir / 8 % 8, ir % 8, ir % 64, ir == 4095)
  }
}
