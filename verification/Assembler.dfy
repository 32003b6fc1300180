/** The assembler from tokenised statements on (pytools/asm.py, pytools/asm_obj_emit.py): the
    flat path, which relaxes branches by splicing the statement list and encodes an image, and
    the object path, which emits records and leaves relaxation to the linker.

    Statements of one section, without address directives.  Text processing has already turned
    every operand that names a label into `Ref`, `LoadLabel` or `Branch`, and every statement
    whose words do not depend on labels into `Fixed`. */
module Assembler {
  import opened Isa
  import opened ObjFile
  import opened Linker
  import opened Numerals

  datatype WordOp = Const(value: int) | Ref(name: string)

  datatype Op =
    | Empty                                              // a label on its own
    | Directive(linkage: Linkage, names: seq<string>)    // .global, .globl, .local
    | Fixed(words: seq<Word>)                            // label-independent words
    | Words(ops: seq<WordOp>)                            // .word
    | LoadLabel(rd: Reg, name: string)                   // li rd, label
    | Branch(kind: BranchKind, name: string)             // bt label, bf label

  datatype Stmt = Stmt(labels: seq<string>, op: Op, file: string, line: int)

  /** A statement with its word address; -1 marks one inserted by relaxation. */
  datatype Placed = Placed(stmt: Stmt, addr: int)

  datatype AsmError =
    | DuplicateLabel(name: string)
    | UndefinedLabel(name: string)
    | EmptyWordList
    | LoadIntoR0
    | LoadOutOfRange(value: int)
    | BranchOutOfRange(offset: int)
    | NoWords                       // max() of an empty address map

  /** `_stmt_size`. */
  function StmtSize(op: Op): nat {
    match op
    case Empty => 0
    case Directive(_, _) => 0
    case Fixed(ws) => |ws|
    case Words(ops) => if |ops| == 0 then 1 else |ops|
    case LoadLabel(_, _) => 2
    case Branch(_, _) => 1
  }

  // ---- addresses ------------------------------------------------------------------

  /** The first of `labels` already in `seen` or earlier in `labels`. */
  function FirstDuplicate(labels: seq<string>, seen: set<string>): Option<string>
    decreases |labels|
  {
    if labels == [] then None
    else if labels[0] in seen then Some(labels[0])
    else FirstDuplicate(labels[1..], seen + {labels[0]})
  }

  function LabelSet(labels: seq<string>): set<string> { set l | l in labels }

  /** Labels, placed statements and running address after the first `n` statements. */
  datatype Layout = Layout(placed: seq<Placed>, addr: nat, seen: set<string>)

  function Assign(prog: seq<Stmt>, n: nat): Result<Layout, AsmError>
    requires n <= |prog|
  {
    if n == 0 then Ok(Layout([], 0, {}))
    else
      match Assign(prog, n - 1)
      case Err(e) => Err(e)
      case Ok(lay) =>
        var s := prog[n - 1];
        match FirstDuplicate(s.labels, lay.seen)
        case Some(l) => Err(DuplicateLabel(l))
        case None =>
          Ok(Layout(lay.placed + [Placed(s, lay.addr)], lay.addr + StmtSize(s.op),
                    lay.seen + LabelSet(s.labels)))
  }

  /** `assign_addresses`. */
  method AssignAddresses(prog: seq<Stmt>) returns (r: Result<Layout, AsmError>)
    ensures r == Assign(prog, |prog|)
  {
    var placed: seq<Placed> := [];
    var addr: nat := 0;
    var seen: set<string> := {};
    for i := 0 to |prog|
      invariant Assign(prog, i) == Ok(Layout(placed, addr, seen))
    {
      var dup := FirstDuplicate(prog[i].labels, seen);
      if dup.Some? {
        ErrorStays(prog, i + 1, |prog|);
        return Err(DuplicateLabel(dup.value));
      }
      placed := placed + [Placed(prog[i], addr)];
      addr := addr + StmtSize(prog[i].op);
      seen := seen + LabelSet(prog[i].labels);
    }
    return Ok(Layout(placed, addr, seen));
  }

  lemma {:induction false} ErrorStays(prog: seq<Stmt>, i: nat, n: nat)
    requires i <= n <= |prog| && Assign(prog, i).Err?
    ensures Assign(prog, n) == Assign(prog, i)
    decreases n
  {
    if i < n { ErrorStays(prog, i, n - 1); }
  }

  // ---- flat relaxation ------------------------------------------------------------

  /** The label `__br_<n>` that a spliced branch skips to. */
  function SkipName(n: nat): string { "__br_" + Decimal(n) }

  function WithLabels(m: map<string, int>, labels: seq<string>, addr: int): map<string, int> {
    m + map l | l in labels :: addr
  }

  /** `_labels_from_stmts`: later definitions win. */
  function LabelMap(ps: seq<Placed>): map<string, int> {
    if ps == [] then map[]
    else WithLabels(LabelMap(ps[..|ps| - 1]), ps[|ps| - 1].stmt.labels, ps[|ps| - 1].addr)
  }

  /** A branch to a known label that does not reach it. */
  predicate Violates(labels: map<string, int>, p: Placed) {
    p.stmt.op.Branch? && p.stmt.op.name in labels && !InRange(labels[p.stmt.op.name] - p.addr)
  }

  function Inverse(kind: BranchKind): BranchKind { if kind == BT then BF else BT }

  /** The four statements that replace a branch: inverse branch over an absolute jump. */
  function Spliced(p: Placed, k: nat): seq<Placed>
    requires p.stmt.op.Branch?
  {
    var s := p.stmt;
    [Placed(Stmt(s.labels, Branch(Inverse(s.op.kind), SkipName(k)), s.file, s.line), -1),
     Placed(Stmt([], LoadLabel(4, s.op.name), s.file, s.line), -1),
     Placed(Stmt([], Fixed([EncodeR3(OP_SPEC, 0, 4, RB_JALR)]), s.file, s.line), -1),
     Placed(Stmt([SkipName(k)], Empty, s.file, s.line), -1)]
  }

  function CountViolations(ps: seq<Placed>, labels: map<string, int>): nat {
    if ps == [] then 0
    else CountViolations(ps[..|ps| - 1], labels) + if Violates(labels, ps[|ps| - 1]) then 1 else 0
  }

  /** Every violating branch replaced, from the last to the first, numbering from `k`. */
  function Splice(ps: seq<Placed>, labels: map<string, int>, k: nat): seq<Placed> {
    if ps == [] then []
    else
      var init, p := ps[..|ps| - 1], ps[|ps| - 1];
      if Violates(labels, p) then Splice(init, labels, k + 1) + Spliced(p, k)
      else Splice(init, labels, k) + [p]
  }

  /** Address of statement `i` when an old address is kept only where it is ahead. */
  function StartAddr(ps: seq<Placed>, i: nat): int
    requires i < |ps|
    decreases i, 1
  {
    var a := EndAddr(ps, i);
    if ps[i].addr != -1 && ps[i].addr > a then ps[i].addr else a
  }

  function EndAddr(ps: seq<Placed>, i: nat): int
    requires i <= |ps|
    decreases i, 0
  {
    if i == 0 then 0 else StartAddr(ps, i - 1) + StmtSize(ps[i - 1].stmt.op)
  }

  function Recompute(ps: seq<Placed>): seq<Placed> {
    seq(|ps|, i requires 0 <= i < |ps| => ps[i].(addr := StartAddr(ps, i)))
  }

  /** `_recompute_stmt_addrs`: addresses overwritten one after the other. */
  method RecomputeAddrs(ps: seq<Placed>) returns (out: seq<Placed>)
    ensures out == Recompute(ps)
  {
    out := ps;
    var addr := 0;
    for i := 0 to |ps|
      invariant |out| == |ps| && addr == EndAddr(ps, i)
      invariant forall k | 0 <= k < i :: out[k] == ps[k].(addr := StartAddr(ps, k))
      invariant forall k | i <= k < |ps| :: out[k] == ps[k]
    {
      if out[i].addr != -1 && out[i].addr > addr { addr := out[i].addr; }
      out := out[i := out[i].(addr := addr)];
      addr := addr + StmtSize(out[i].stmt.op);
    }
  }

  /** `_relax_branches_chunk`: at most `fuel` rounds, silently. */
  function RelaxRounds(ps: seq<Placed>, k: nat, fuel: nat): seq<Placed>
    decreases fuel
  {
    var labels := LabelMap(ps);
    var v := CountViolations(ps, labels);
    if fuel == 0 || v == 0 then ps
    else RelaxRounds(Recompute(Splice(ps, labels, k)), k + v, fuel - 1)
  }

  lemma {:induction false} SpliceStep(ps: seq<Placed>, labels: map<string, int>, k: nat, i: nat)
    requires i < |ps|
    ensures var c := CountViolations(ps[i + 1..], labels);
            Splice(ps[..i + 1], labels, k + c) + SpliceTail(ps, labels, k, i + 1)
            == Splice(ps[..i], labels, k + CountViolations(ps[i..], labels)) + SpliceTail(ps, labels, k, i)
  {
    var c := CountViolations(ps[i + 1..], labels);
    assert ps[..i + 1][..i] == ps[..i] && ps[..i + 1][i] == ps[i];
    assert ps[i..] == [ps[i]] + ps[i + 1..];
    CountFront(ps[i], ps[i + 1..], labels);
    hide Spliced, Violates, CountViolations;
  }

  lemma {:induction false} CountFront(p: Placed, ps: seq<Placed>, labels: map<string, int>)
    ensures CountViolations([p] + ps, labels)
            == CountViolations(ps, labels) + if Violates(labels, p) then 1 else 0
  {
    hide Violates;
    if ps == [] {
      assert [p] + ps == [p] && [p][..0] == [];
    } else {
      assert ([p] + ps)[..|ps|] == [p] + ps[..|ps| - 1];
      CountFront(p, ps[..|ps| - 1], labels);
    }
  }

  /** What the backward loop has made of the statements from `i` on. */
  function SpliceTail(ps: seq<Placed>, labels: map<string, int>, k: nat, i: nat): seq<Placed>
    requires i <= |ps|
    decreases |ps| - i
  {
    if i == |ps| then []
    else
      (if Violates(labels, ps[i]) then Spliced(ps[i], k + CountViolations(ps[i + 1..], labels)) else [ps[i]])
      + SpliceTail(ps, labels, k, i + 1)
  }

  /** The relaxer as the loop it is: up to 20 rounds, in each the violating branches replaced in
      the list from the back and all addresses recomputed. */
  method RelaxChunk(stmts: seq<Placed>) returns (out: seq<Placed>)
    ensures out == RelaxRounds(stmts, 0, 20)
  {
    out := stmts;
    var skip := 0;
    for round := 0 to 20
      invariant RelaxRounds(out, skip, 20 - round) == RelaxRounds(stmts, 0, 20)
    {
      var labels := LabelMap(out);
      var v := CountViolations(out, labels);
      if v == 0 { return; }
      out := SpliceAll(out, labels, skip);
      out := RecomputeAddrs(out);
      skip := skip + v;
    }
  }

  method SpliceAll(ps: seq<Placed>, labels: map<string, int>, k: nat) returns (out: seq<Placed>)
    ensures out == Splice(ps, labels, k)
  {
    hide Splice, SpliceTail, CountViolations, Violates, Spliced;
    out := ps;
    var next := k;
    var i := |ps|;
    SpliceEnds(ps, labels, k);
    while i > 0
      invariant 0 <= i <= |ps|
      invariant next == k + CountViolations(ps[i..], labels)
      invariant out == ps[..i] + SpliceTail(ps, labels, k, i)
      invariant Splice(ps[..i], labels, next) + SpliceTail(ps, labels, k, i) == Splice(ps, labels, k)
    {
      SpliceStep(ps, labels, k, i - 1);
      TailStep(ps, labels, k, i - 1);
      i := i - 1;
      ghost var tail := SpliceTail(ps, labels, k, i + 1);
      assert out[..i] == ps[..i] && out[i] == ps[i] && out[i + 1..] == tail;
      if Violates(labels, ps[i]) {
        out := out[..i] + Spliced(out[i], next) + out[i + 1..];
        assert out == ps[..i] + (Spliced(ps[i], next) + tail);
        next := next + 1;
      } else {
        assert out == ps[..i] + ([ps[i]] + tail);
      }
    }
    assert ps[..0] == [];
  }

  lemma SpliceEnds(ps: seq<Placed>, labels: map<string, int>, k: nat)
    ensures CountViolations(ps[|ps|..], labels) == 0
    ensures ps == ps[..|ps|] + SpliceTail(ps, labels, k, |ps|)
    ensures Splice(ps[..|ps|], labels, k) + SpliceTail(ps, labels, k, |ps|) == Splice(ps, labels, k)
    ensures Splice([], labels, k + CountViolations(ps, labels)) == []
    ensures forall s: seq<Placed>, n: nat | s == [] :: Splice(s, labels, n) == []
  {
    assert ps[..|ps|] == ps;
  }

  lemma TailStep(ps: seq<Placed>, labels: map<string, int>, k: nat, i: nat)
    requires i < |ps|
    ensures CountViolations(ps[i..], labels)
            == CountViolations(ps[i + 1..], labels) + if Violates(labels, ps[i]) then 1 else 0
    ensures SpliceTail(ps, labels, k, i)
            == (if Violates(labels, ps[i]) then Spliced(ps[i], k + CountViolations(ps[i + 1..], labels)) else [ps[i]])
               + SpliceTail(ps, labels, k, i + 1)
    ensures ps[..i + 1] == ps[..i] + [ps[i]]
    ensures Violates(labels, ps[i]) ==> ps[i].stmt.op.Branch?
  {
    hide Spliced;
    assert ps[i..] == [ps[i]] + ps[i + 1..];
    CountFront(ps[i], ps[i + 1..], labels);
  }

  // ---- flat encoding --------------------------------------------------------------

  function EvalOps(ops: seq<WordOp>, labels: map<string, int>): Result<seq<Word>, AsmError> {
    if ops == [] then Ok([])
    else
      match EvalOps(ops[..|ops| - 1], labels)
      case Err(e) => Err(e)
      case Ok(ws) =>
        match ops[|ops| - 1]
        case Const(v) => Ok(ws + [Mask12(v)])
        case Ref(name) => if name in labels then Ok(ws + [Mask12(labels[name])]) else Err(UndefinedLabel(name))
  }

  /** `_encode`. */
  function EncodeStmt(p: Placed, labels: map<string, int>): Result<seq<Word>, AsmError> {
    match p.stmt.op
    case Empty => Ok([])
    case Directive(_, _) => Ok([])
    case Fixed(ws) => Ok(ws)
    case Words(ops) => if ops == [] then Err(EmptyWordList) else EvalOps(ops, labels)
    case LoadLabel(rd, name) =>
      if rd == 0 then Err(LoadIntoR0)
      else if name !in labels then Err(UndefinedLabel(name))
      else
        var v := labels[name];
        if v < -2048 || v > 4095 then Err(LoadOutOfRange(v))
        else Ok([EncodeRi(OP_LUI, rd, Mask12(v) / 64), EncodeRi(OP_ADDI, rd, Mask12(v) % 64)])
    case Branch(kind, name) =>
      if name !in labels then Err(UndefinedLabel(name))
      else
        var off := labels[name] - p.addr;
        if InRange(off) then Ok([ShortBranch(kind, off)]) else Err(BranchOutOfRange(off))
  }

  /** The address map as a list of writes, statement by statement. */
  function EncodePairs(ps: seq<Placed>, labels: map<string, int>): Result<seq<(nat, Word)>, AsmError> {
    if ps == [] then Ok([])
    else
      match EncodePairs(ps[..|ps| - 1], labels)
      case Err(e) => Err(e)
      case Ok(pairs) =>
        var p := ps[|ps| - 1];
        match EncodeStmt(p, labels)
        case Err(e) => Err(e)
        case Ok(ws) => Ok(pairs + Place(if p.addr < 0 then 0 else p.addr, ws))
  }

  /** `_encode_all`: an empty address map makes `max` fail unless there are no statements. */
  function EncodeAll(ps: seq<Placed>): Result<seq<Word>, AsmError> {
    if ps == [] then Ok([])
    else
      match EncodePairs(ps, LabelMap(ps))
      case Err(e) => Err(e)
      case Ok(pairs) => if pairs == [] then Err(NoWords) else Ok(Image(pairs))
  }

  /** `assemble`, from statements on. */
  function FlatAssemble(prog: seq<Stmt>): Result<seq<Word>, AsmError> {
    match Assign(prog, |prog|)
    case Err(e) => Err(e)
    case Ok(lay) => EncodeAll(RelaxRounds(lay.placed, 0, 20))
  }

  // ---- object emission ------------------------------------------------------------

  /** `linkage_map_from_stmts`: the last directive for a name wins; unnamed labels are local. */
  function LinkageOf(prog: seq<Stmt>, name: string): Linkage {
    if prog == [] then Local
    else
      var op := prog[|prog| - 1].op;
      if op.Directive? && name in op.names then (if op.linkage == Local then Local else Global)
      else LinkageOf(prog[..|prog| - 1], name)
  }

  function SymRecords(labels: seq<string>, prog: seq<Stmt>): seq<Record> {
    seq(|labels|, i requires 0 <= i < |labels| => RecSym(labels[i], LinkageOf(prog, labels[i]), None))
  }

  function WordOpRecords(ops: seq<WordOp>): seq<Record> {
    if ops == [] then []
    else
      WordOpRecords(ops[..|ops| - 1])
      + match ops[|ops| - 1]
        case Const(v) => [RecWord(Mask12(v))]
        case Ref(name) => [RecWord(0), RecReloc(Imm12, name, 0)]
  }

  function FixedRecords(ws: seq<Word>): seq<Record> {
    seq(|ws|, i requires 0 <= i < |ws| => RecWord(ws[i]))
  }

  /** `emit_stmt_records`. */
  function StmtRecords(op: Op): Result<seq<Record>, AsmError> {
    match op
    case Empty => Ok([])
    case Directive(_, _) => Ok([])
    case Fixed(ws) => Ok(FixedRecords(ws))
    case Words(ops) => if ops == [] then Err(EmptyWordList) else Ok(WordOpRecords(ops))
    case LoadLabel(rd, name) =>
      Ok([RecWord(EncodeRi(OP_LUI, rd, 0)), RecWord(EncodeRi(OP_ADDI, rd, 0)), RecReloc(LiImm12, name, 0)])
    case Branch(kind, name) => Ok([RecBrel(kind, name, 0)])
  }

  /** The source position last written to a `loc` record, after the first `n` statements. */
  function CurLoc(ps: seq<Placed>, n: nat): Option<(string, int)>
    requires n <= |ps|
  {
    if n == 0 then None
    else if ps[n - 1].stmt.op.Empty? then CurLoc(ps, n - 1)
    else Some((ps[n - 1].stmt.file, ps[n - 1].stmt.line))
  }

  function LocRecords(ps: seq<Placed>, i: nat): seq<Record>
    requires i < |ps|
  {
    var s := ps[i].stmt;
    if s.op.Empty? || CurLoc(ps, i) == Some((s.file, s.line)) then [] else [RecLoc(s.file, s.line)]
  }

  /** Address after the first `n` statements as `build_records` counts it. */
  function Cursor(ps: seq<Placed>, n: nat): int
    requires n <= |ps|
  {
    if n == 0 then 0 else ps[n - 1].addr + StmtSize(ps[n - 1].stmt.op)
  }

  /** `build_records` over the first `n` statements. */
  function BuildRecords(prog: seq<Stmt>, ps: seq<Placed>, n: nat): Result<seq<Record>, AsmError>
    requires n <= |ps|
  {
    if n == 0 then Ok([])
    else
      match BuildRecords(prog, ps, n - 1)
      case Err(e) => Err(e)
      case Ok(acc) =>
        var p := ps[n - 1];
        var gap := p.addr - Cursor(ps, n - 1);
        match StmtRecords(p.stmt.op)
        case Err(e) => Err(e)
        case Ok(rs) =>
          Ok(acc + (if gap > 0 then [RecZero(gap)] else []) + SymRecords(p.stmt.labels, prog)
             + LocRecords(ps, n - 1) + rs)
  }

  function MinAddr(ps: seq<Placed>): int
    requires ps != []
  {
    if |ps| == 1 then ps[0].addr
    else
      var m := MinAddr(ps[..|ps| - 1]);
      if ps[|ps| - 1].addr < m then ps[|ps| - 1].addr else m
  }

  /** `normalize_section`. */
  function Normalize(ps: seq<Placed>): seq<Placed> {
    if ps == [] then []
    else
      var b := MinAddr(ps);
      seq(|ps|, i requires 0 <= i < |ps| => ps[i].(addr := ps[i].addr - b))
  }

  /** `assemble_object`, from statements on, for a program all in section `text`. */
  function AssembleObject(prog: seq<Stmt>, sources: seq<string>): Result<ObjectFile, AsmError> {
    match Assign(prog, |prog|)
    case Err(e) => Err(e)
    case Ok(lay) =>
      if prog == [] then Ok(ObjectFile(1, sources, []))
      else
        var ps := Normalize(lay.placed);
        match BuildRecords(prog, ps, |ps|)
        case Err(e) => Err(e)
        case Ok(rs) => Ok(ObjectFile(1, sources, [Section("text", rs)]))
  }
}
