/** Programs that link and that the flat assembler refuses or gets wrong: each condition of
    `FlatEqualsLink` is needed. */
module FlatDiffers {
  import opened Isa
  import opened ObjFile
  import opened Linker
  import opened Assembler
  import opened LinkRelax
  import opened LinkRounds
  import opened FlatLink
  import opened FlatAgreement
  import opened LinkSucceeds
  import opened FlatSucceeds
  import F = FlatRelax
  import P = Programs

  function Code(op: Op): Stmt { Stmt([], op, "f", 1) }

  function At(name: string, op: Op): Stmt { Stmt([name], op, "f", 1) }

  function Nops(n: nat): seq<Word> { seq(n, _ => 0) }

  /** `li r0, a` in front of `a`. */
  function LoadIntoZero(): seq<Stmt> { [Code(LoadLabel(0, "a")), At("a", Empty)] }

  /** A full image with a label right after it, loaded. */
  function FullImage(): seq<Stmt> { [Code(LoadLabel(1, "a")), Code(Fixed(Nops(4094))), At("a", Empty)] }

  /** A label and nothing else. */
  function OnlyLabel(): seq<Stmt> { [At("a", Empty)] }

  lemma OneFresh(labels: seq<string>, seen: set<string>)
    requires |labels| <= 1 && forall l | l in labels :: l !in seen
    ensures FirstDuplicate(labels, seen) == None
  {
    if labels != [] {
      assert labels[1..] == [];
      assert FirstDuplicate([], seen + {labels[0]}) == None;
    }
  }

  /** A program with distinct labels, at most one on each statement, gets addresses. */
  lemma {:induction false} AssignsDistinct(prog: seq<Stmt>, n: nat)
    requires n <= |prog| && P.DistinctLabels(prog) && forall i | 0 <= i < |prog| :: |prog[i].labels| <= 1
    ensures Assign(prog, n).Ok?
    ensures forall l | l in Assign(prog, n).value.seen :: exists i | 0 <= i < n :: l in prog[i].labels
  {
    if n > 0 {
      AssignsDistinct(prog, n - 1);
      OneFresh(prog[n - 1].labels, Assign(prog, n - 1).value.seen);
      hide FirstDuplicate;
    }
  }

  /** A program whose only label is on its last statement. */
  lemma LabelAtEnd(prog: seq<Stmt>)
    requires prog != [] && prog[|prog| - 1].labels == ["a"] && forall i | 0 <= i < |prog| - 1 :: prog[i].labels == []
    ensures Assign(prog, |prog|).Ok? && P.DefIdx(prog, "a", |prog|) == Some(|prog| - 1)
    ensures forall n: nat :: F.NoSkipLabels(prog, n)
  {
    hide *;
    forall n: nat ensures F.NoSkipLabels(prog, n) { OneLabelNoSkip(prog, n); }
    EndDistinct(prog);
    AssignsDistinct(prog, |prog|);
    EndDefines(prog);
  }

  lemma EndDefines(prog: seq<Stmt>)
    requires prog != [] && prog[|prog| - 1].labels == ["a"]
    ensures P.DefIdx(prog, "a", |prog|) == Some(|prog| - 1)
  {
    assert "a" in prog[|prog| - 1].labels;
  }

  lemma EndDistinct(prog: seq<Stmt>)
    requires forall i | 0 <= i < |prog| - 1 :: prog[i].labels == []
    ensures P.DistinctLabels(prog)
  {
  }

  /** Without branches nothing relaxes. */
  lemma NothingRelaxes(prog: seq<Stmt>)
    requires forall i | 0 <= i < |prog| :: !prog[i].op.Branch?
    ensures P.RelaxStep(prog, {}) == {} && Settling(prog) == {} && RelaxedStmts(prog) == {}
  {
    assert P.RelaxStep(prog, {}) == {};
    hide P.RelaxStep;
  }

  lemma OneLabelNoSkip(prog: seq<Stmt>, n: nat)
    requires forall i | 0 <= i < |prog| :: prog[i].labels == [] || prog[i].labels == ["a"]
    ensures F.NoSkipLabels(prog, n)
  {
    forall i, k: nat | 0 <= i < |prog| && k < n
      ensures SkipName(k) !in prog[i].labels
    {
      assert |SkipName(k)| > 1;
    }
  }

  /** A program that the object path links and the flat path refuses. */
  ghost predicate LinksNotFlat(prog: seq<Stmt>, fp: string) {
    AssembleObject(prog, []).Ok?
    && LinkObjectFiles(TEXT_BASES, [(fp, AssembleObject(prog, []).value)]).Ok?
    && FlatAssemble(prog).Err?
  }

  /** Both relaxers stop with the branches `r`. */
  ghost predicate Relaxes(prog: seq<Stmt>, r: set<nat>) {
    Settling(prog) == r && RelaxedStmts(prog) == r && P.RelaxStep(prog, r) == r
  }

  /** One statement with an address that only the flat encoder refuses. */
  lemma Refused(prog: seq<Stmt>, fp: string, r: set<nat>, i: nat)
    requires Assign(prog, |prog|).Ok? && Recordable(prog) && RefsKnown(prog) && F.NoSkipLabels(prog, |RelaxedStmts(prog)|)
    requires Relaxes(prog, r) && P.Addr(prog, r, |prog|) <= 4096 && i < |prog| && !Accepted(prog, r, i)
    ensures LinksNotFlat(prog, fp)
  {
    hide LinkObjectFiles, AssembleObject, FlatAssemble, Assign, Recordable, RefsKnown, F.NoSkipLabels, P.RelaxStep, P.RelaxSteps, P.Addr, Accepted;
    Assembles(prog, []);
    LinksIff(prog, [], fp);
    FlatEqualsLink(prog, [], fp, LinkObjectFiles(TEXT_BASES, [(fp, AssembleObject(prog, []).value)]).value);
  }

  /** `li r0, label` links, but the flat assembler refuses it. */
  lemma LoadIntoZeroDiffers(fp: string)
    ensures LinksNotFlat(LoadIntoZero(), fp)
  {
    hide LinksNotFlat, RelaxedStmts, Settling, Assign, P.DefIdx, F.NoSkipLabels;
    var prog := LoadIntoZero();
    LabelAtEnd(prog);
    assert StmtRecords(prog[0].op).Ok? && StmtRecords(prog[1].op).Ok?;
    NothingRelaxes(prog);
    assert P.Size(prog, {}, 0) == 2 && P.Size(prog, {}, 1) == 0;
    assert P.Addr(prog, {}, 1) == 2 && P.Addr(prog, {}, 2) == 2;
    hide P.Addr, P.RelaxStep;
    Refused(prog, fp, {}, 0);
  }

  /** A label at address 4096 links and wraps to 0, but the flat assembler refuses to load it. */
  lemma FullImageDiffers(fp: string)
    ensures LinksNotFlat(FullImage(), fp)
  {
    hide LinksNotFlat, RelaxedStmts, Settling, Nops, Assign, P.DefIdx, F.NoSkipLabels;
    var prog := FullImage();
    NopsLength(4094);
    LabelAtEnd(prog);
    assert StmtRecords(prog[0].op).Ok? && StmtRecords(prog[1].op).Ok? && StmtRecords(prog[2].op).Ok?;
    NothingRelaxes(prog);
    assert P.Size(prog, {}, 0) == 2 && P.Size(prog, {}, 1) == 4094 && P.Size(prog, {}, 2) == 0;
    assert P.Addr(prog, {}, 1) == 2 && P.Addr(prog, {}, 2) == 4096 && P.Addr(prog, {}, 3) == 4096;
    hide P.Addr, P.RelaxStep;
    Refused(prog, fp, {}, 0);
  }

  /** A branch that needs the whole address space to reach the label after it. */
  function FullBranch(): seq<Stmt> { [Code(Branch(BT, "a")), Code(Fixed(Nops(4092))), At("a", Empty)] }

  lemma FullBranchRelaxed()
    ensures var prog := FullBranch();
            Relaxes(prog, {0}) && P.DefIdx(prog, "a", 3) == Some(2)
            && P.Addr(prog, {0}, 2) == 4096 && P.Addr(prog, {0}, 3) == 4096
  {
    var prog := FullBranch();
    NopsLength(4092);
    hide Nops;
    assert "a" in prog[2].labels;
    assert P.DefIdx(prog, "a", 3) == Some(2);
    assert P.Size(prog, {}, 0) == 1 && P.Size(prog, {}, 1) == 4092;
    assert P.Size(prog, {0}, 0) == 4 && P.Size(prog, {0}, 1) == 4092 && P.Size(prog, {0}, 2) == 0;
    hide P.DefIdx, P.Size;
    assert P.Addr(prog, {}, 0) == 0 && P.Addr(prog, {}, 1) == 1 && P.Addr(prog, {}, 2) == 4093;
    assert P.Addr(prog, {0}, 1) == 4 && P.Addr(prog, {0}, 2) == 4096 && P.Addr(prog, {0}, 3) == 4096;
    hide P.Addr;
    assert P.TooFar(prog, {}, 0);
    assert P.RelaxStep(prog, {}) == {0} && P.RelaxStep(prog, {0}) == {0};
    hide P.RelaxStep, P.TooFar;
    assert P.RelaxSteps(prog, {0}, 18) == {0} && P.RelaxSteps(prog, {0}, 19) == {0};
  }

  /** A relaxed branch to a label at address 4096 links and jumps to 0; the flat assembler refuses it. */
  lemma FullBranchDiffers(fp: string)
    ensures LinksNotFlat(FullBranch(), fp)
  {
    hide LinksNotFlat, Relaxes, RelaxedStmts, Nops, Assign, P.DefIdx, F.NoSkipLabels, P.Addr;
    var prog := FullBranch();
    LabelAtEnd(prog);
    assert StmtRecords(prog[0].op).Ok? && StmtRecords(prog[1].op).Ok? && StmtRecords(prog[2].op).Ok?;
    FullBranchRelaxed();
    Refused(prog, fp, {0}, 0);
  }

  /** A single statement of `n` words. */
  function Oversized(n: nat): seq<Stmt> { [Code(Fixed(Nops(n)))] }

  lemma OversizedFacts(n: nat)
    requires n > 4096
    ensures var prog := Oversized(n);
            Assign(prog, 1).Ok? && Recordable(prog) && RefsKnown(prog) && SkipFree(prog) && AllAccepted(prog, {})
            && Relaxes(prog, {}) && P.Addr(prog, {}, 1) == n
  {
    var prog := Oversized(n);
    NopsLength(n);
    hide Nops, Settling, RelaxedStmts;
    NothingRelaxes(prog);
    assert P.Size(prog, {}, 0) == n && P.Addr(prog, {}, 1) == n;
    hide P.Addr, P.RelaxStep, Assign;
    EndDistinct(prog);
    AssignsDistinct(prog, 1);
  }

  /** The flat assembler writes an image of any length; the linker stops at 4096 words. */
  lemma OversizedDiffers(n: nat, fp: string)
    requires n > 4096
    ensures FlatAssemble(Oversized(n)).Ok? && AssembleObject(Oversized(n), []).Ok?
    ensures LinkObjectFiles(TEXT_BASES, [(fp, AssembleObject(Oversized(n), []).value)]).Err?
  {
    hide LinkObjectFiles, AssembleObject, FlatAssemble, Assign, Recordable, RefsKnown, SkipFree, AllAccepted, P.RelaxStep, P.RelaxSteps, P.Addr, Nops;
    OversizedFacts(n);
    var prog := Oversized(n);
    FlatIff(prog);
    FlatButNotLinked(prog, [], fp);
  }

  lemma NopsLength(n: nat)
    ensures |Nops(n)| == n
  {
  }

  /** Statements without words link to nothing, but the flat assembler fails on them. */
  lemma OnlyLabelDiffers(fp: string)
    ensures LinksNotFlat(OnlyLabel(), fp)
  {
    hide LinkObjectFiles, AssembleObject, FlatAssemble, RelaxedStmts, Settling, Assign, P.DefIdx, F.NoSkipLabels;
    var prog := OnlyLabel();
    LabelAtEnd(prog);
    assert StmtRecords(prog[0].op).Ok?;
    Assembles(prog, []);
    NothingRelaxes(prog);
    assert P.Addr(prog, {}, 0) == 0 && P.Addr(prog, {}, 1) == 0;
    hide P.RelaxStep;
    LinksIff(prog, [], fp);
    var lr := LinkObjectFiles(TEXT_BASES, [(fp, AssembleObject(prog, []).value)]).value;
    LinkedWords(prog, [], fp, lr);
    assert PairsOf(prog, {}, 0) == [] && PairsOf(prog, {}, 1) == [];
    FlatEqualsLink(prog, [], fp, lr);
  }

  // ---- a label of the form the relaxer makes up -----------------------------------

  /** A branch that does not reach, and a user label `__br_0` close behind it. */
  function Collision(): seq<Stmt> {
    [Code(Branch(BT, "far")), Code(Fixed(Nops(1))), At("__br_0", Fixed(Nops(70))), At("far", Empty)]
  }

  /** A program with one branch, in front, out of reach: one splice, then addresses again. */
  lemma {:induction false} SpliceFirst(ps: seq<Placed>, labels: map<string, int>)
    requires |ps| >= 1 && Violates(labels, ps[0]) && forall i | 1 <= i < |ps| :: !ps[i].stmt.op.Branch?
    ensures CountViolations(ps, labels) == 1 && Splice(ps, labels, 0) == Spliced(ps[0], 0) + ps[1..]
    decreases |ps|
  {
    hide Spliced;
    var init := ps[..|ps| - 1];
    if |ps| == 1 {
      assert init == [];
      assert Splice([], labels, 1) == [];
      assert ps[1..] == [] && Spliced(ps[0], 0) + [] == Spliced(ps[0], 0) && [] + Spliced(ps[0], 0) == Spliced(ps[0], 0);
    } else {
      SpliceFirst(init, labels);
      assert init[0] == ps[0] && init[1..] + [ps[|ps| - 1]] == ps[1..];
    }
  }

  lemma {:induction false} NoneViolates(ps: seq<Placed>, labels: map<string, int>)
    requires forall i | 0 <= i < |ps| :: !Violates(labels, ps[i])
    ensures CountViolations(ps, labels) == 0
    decreases |ps|
  {
    hide Violates;
    if ps != [] { NoneViolates(ps[..|ps| - 1], labels); }
  }

  /** What only the first statement writes at address 0. */
  lemma {:induction false} FirstWord(ps: seq<Placed>, labels: map<string, int>, w: Word)
    requires |ps| >= 1 && ps[0].addr == 0 && EncodeStmt(ps[0], labels) == Ok([w])
    requires (forall i | 1 <= i < |ps| :: ps[i].addr >= 1) && EncodePairs(ps, labels).Ok?
    ensures LastWrite(EncodePairs(ps, labels).value, 0) == w
    decreases |ps|
  {
    hide EncodeStmt, LastWrite;
    var init, p := ps[..|ps| - 1], ps[|ps| - 1];
    var before, ws := EncodePairs(init, labels).value, EncodeStmt(p, labels).value;
    if |ps| == 1 {
      assert init == [] && before == [];
      OneWrite(w);
      assert Place(0, [w]) == [(0, w)] && [] + [(0, w)] == [(0, w)];
    } else {
      FirstWord(init, labels, w);
      NoWriteAtZero(before, p.addr, ws, |ws|);
      assert ws[..|ws|] == ws;
    }
  }

  lemma OneWrite(w: Word)
    ensures LastWrite([(0, w)], 0) == w
  {
  }

  lemma {:induction false} NoWriteAtZero(pairs: seq<(nat, Word)>, addr: nat, ws: seq<Word>, n: nat)
    requires addr >= 1 && n <= |ws|
    ensures LastWrite(pairs + Place(addr, ws[..n]), 0) == LastWrite(pairs, 0)
    decreases n
  {
    hide LastWrite;
    if n > 0 {
      NoWriteAtZero(pairs, addr, ws, n - 1);
      assert pairs + Place(addr, ws[..n]) == pairs + Place(addr, ws[..n - 1]) + [(addr + n - 1, ws[n - 1])];
      LastWriteSnoc(pairs + Place(addr, ws[..n - 1]), (addr + n - 1, ws[n - 1]), 0);
    } else {
      assert pairs + Place(addr, ws[..0]) == pairs;
    }
  }

  /** The same for the words the link emits. */
  lemma {:induction false} FirstLinked(prog: seq<Stmt>, r: set<nat>, m: nat, w: Word)
    requires 1 <= m <= |prog| && |WordsFor(prog, r, 0)| > 0 && WordsFor(prog, r, 0)[0] == w
    requires forall i | 1 <= i <= m :: P.Addr(prog, r, i) >= 1
    ensures LastWrite(PairsOf(prog, r, m), 0) == w
    decreases m
  {
    hide LastWrite, WordsFor, P.Size;
    var ws := WordsFor(prog, r, m - 1);
    assert ws[..|ws|] == ws;
    if m == 1 {
      assert P.Addr(prog, r, 0) == 0;
      OneWrite(w);
      assert Place(0, ws) == [(0, w)] + Place(1, ws[1..]) && PairsOf(prog, r, 1) == Place(0, ws);
      NoWriteAtZero([(0, w)], 1, ws[1..], |ws| - 1);
      assert ws[1..][..|ws| - 1] == ws[1..];
    } else {
      FirstLinked(prog, r, m - 1, w);
      NoWriteAtZero(PairsOf(prog, r, m - 1), P.Addr(prog, r, m - 1), ws, |ws|);
    }
  }

  lemma SkipZero()
    ensures SkipName(0) == "__br_0"
  {
    assert "__br_" + "0" == "__br_0";
  }

  /** The statements after the flat relaxer's only splice. */
  lemma CollisionSpliced()
    ensures Assign(Collision(), 4).Ok?
    ensures var out := RelaxRounds(Assign(Collision(), 4).value.placed, 0, 20);
            |out| == 7 && out[0].addr == 0 && (forall i | 1 <= i < 7 :: out[i].addr >= 1)
            && out[0].stmt.op == Branch(BF, "__br_0")
            && "__br_0" in LabelMap(out) && LabelMap(out)["__br_0"] == 5
  {
    hide *;
    CollisionPlaced();
    var ps := Assign(Collision(), 4).value.placed;
    OutOfReach(ps);
    var out := SplicedOnce(ps);
  }

  /** The placed statements of the program. */
  ghost predicate Placement(ps: seq<Placed>) {
    |ps| == 4 && ps[0].addr == 0 && ps[1].addr == 1 && ps[2].addr == 2 && ps[3].addr == 72
    && ps[0].stmt.op == Branch(BT, "far") && ps[2].stmt.labels == ["__br_0"] && ps[3].stmt.labels == ["far"]
    && (forall i | 1 <= i < 4 :: !ps[i].stmt.op.Branch?)
    && StmtSize(ps[1].stmt.op) == 1 && StmtSize(ps[2].stmt.op) == 70
  }

  lemma SplicedOnce(ps: seq<Placed>) returns (out: seq<Placed>)
    requires Placement(ps) && Violates(LabelMap(ps), ps[0])
    ensures out == RelaxRounds(ps, 0, 20) && |out| == 7 && out[0].addr == 0 && (forall i | 1 <= i < 7 :: out[i].addr >= 1)
    ensures out[0].stmt.op == Branch(BF, "__br_0") && "__br_0" in LabelMap(out) && LabelMap(out)["__br_0"] == 5
  {
    hide Splice, CountViolations, LabelMap, Recompute, Violates, RelaxRounds, SkipName;
    SpliceFirst(ps, LabelMap(ps));
    SkipZero();
    var mid := Spliced(ps[0], 0) + ps[1..];
    assert mid[4] == ps[1] && mid[5] == ps[2] && mid[6] == ps[3];
    MidAddresses(mid);
    out := Recompute(mid);
    SplicedLabels(out);
    NoneViolates(out, LabelMap(out));
    OneRound(ps, out);
  }

  lemma MidAddresses(mid: seq<Placed>)
    requires |mid| == 7 && (forall i | 0 <= i < 4 :: mid[i].addr == -1)
    requires mid[4].addr == 1 && mid[5].addr == 2 && mid[6].addr == 72
    requires StmtSize(mid[0].stmt.op) == 1 && StmtSize(mid[1].stmt.op) == 2 && StmtSize(mid[2].stmt.op) == 1
    requires StmtSize(mid[3].stmt.op) == 0 && StmtSize(mid[4].stmt.op) == 1 && StmtSize(mid[5].stmt.op) == 70
    ensures var out := Recompute(mid);
            |out| == 7 && out[0].addr == 0 && out[1].addr == 1 && out[2].addr == 3 && out[3].addr == 4
            && out[4].addr == 4 && out[5].addr == 5 && out[6].addr == 75
            && forall i | 0 <= i < 7 :: out[i].stmt == mid[i].stmt
  {
    hide StmtSize;
    assert EndAddr(mid, 0) == 0;
    assert StartAddr(mid, 0) == 0 && EndAddr(mid, 1) == 1;
    assert StartAddr(mid, 1) == 1 && EndAddr(mid, 2) == 3;
    assert StartAddr(mid, 2) == 3 && EndAddr(mid, 3) == 4;
    assert StartAddr(mid, 3) == 4 && EndAddr(mid, 4) == 4;
    assert StartAddr(mid, 4) == 4 && EndAddr(mid, 5) == 5;
    assert StartAddr(mid, 5) == 5 && EndAddr(mid, 6) == 75;
    assert StartAddr(mid, 6) == 75;
  }

  lemma OneRound(ps: seq<Placed>, out: seq<Placed>)
    requires CountViolations(ps, LabelMap(ps)) == 1 && Recompute(Splice(ps, LabelMap(ps), 0)) == out
    requires CountViolations(out, LabelMap(out)) == 0
    ensures RelaxRounds(ps, 0, 20) == out
  {
    hide Recompute, Splice, LabelMap, CountViolations;
    assert RelaxRounds(out, 1, 19) == out;
  }

  lemma CollisionPlaced()
    ensures var prog := Collision();
            |prog| == 4 && Assign(prog, 4).Ok? && Placement(Assign(prog, 4).value.placed)
  {
    hide Nops;
    NopsLength(1);
    NopsLength(70);
    var prog := Collision();
    assert Assign(prog, 0).Ok? && Assign(prog, 0).value == Layout([], 0, {});
    assert Assign(prog, 1).Ok? && Assign(prog, 1).value == Layout([Placed(prog[0], 0)], 1, {});
    assert Assign(prog, 2).Ok? && Assign(prog, 2).value == Layout([Placed(prog[0], 0), Placed(prog[1], 1)], 2, {});
    OneFresh(["__br_0"], {});
    assert LabelSet(["__br_0"]) == {"__br_0"};
    assert Assign(prog, 3).Ok? && Assign(prog, 3).value.placed == [Placed(prog[0], 0), Placed(prog[1], 1), Placed(prog[2], 2)]
           && Assign(prog, 3).value.addr == 72 && Assign(prog, 3).value.seen == {"__br_0"};
    OneFresh(["far"], {"__br_0"});
  }

  lemma OutOfReach(ps: seq<Placed>)
    requires Placement(ps)
    ensures Violates(LabelMap(ps), ps[0])
  {
    assert ps[..3] + [ps[3]] == ps;
    F.LabelMapSnoc(ps[..3], ps[3]);
    assert "far" in ps[3].stmt.labels;
  }

  lemma SplicedLabels(out: seq<Placed>)
    requires |out| == 7 && out[0].stmt.op == Branch(BF, "__br_0") && out[0].addr == 0
    requires out[5].stmt.labels == ["__br_0"] && out[5].addr == 5 && out[6].stmt.labels == ["far"] && out[6].addr == 75
    requires forall i | 1 <= i < 7 :: !out[i].stmt.op.Branch?
    ensures "__br_0" in LabelMap(out) && LabelMap(out)["__br_0"] == 5
    ensures forall i | 0 <= i < 7 :: !Violates(LabelMap(out), out[i])
  {
    assert out[..5] + [out[5]] == out[..6] && out[..6] + [out[6]] == out;
    F.LabelMapSnoc(out[..5], out[5]);
    F.LabelMapSnoc(out[..6], out[6]);
    hide LabelMap;
  }

  lemma CollisionFacts()
    ensures var prog := Collision();
            Recordable(prog) && RefsKnown(prog) && P.DefIdx(prog, "far", 4) == Some(3)
            && P.Addr(prog, {}, 3) == 72
            && P.Addr(prog, {0}, 1) == 4 && P.Addr(prog, {0}, 2) == 5 && P.Addr(prog, {0}, 3) == 75 && P.Addr(prog, {0}, 4) == 75
  {
    hide Nops;
    NopsLength(1);
    NopsLength(70);
    var prog := Collision();
    assert "far" in prog[3].labels;
    assert P.DefIdx(prog, "far", 4) == Some(3);
    hide P.DefIdx;
    forall i | 0 <= i < 4
      ensures StmtRecords(prog[i].op).Ok? && OpKnown(prog, prog[i].op)
    {
    }
    hide StmtRecords, OpKnown;
    assert P.Addr(prog, {}, 1) == 1 && P.Addr(prog, {}, 2) == 2 && P.Addr(prog, {}, 3) == 72;
    assert P.Addr(prog, {0}, 1) == 4 && P.Addr(prog, {0}, 2) == 5 && P.Addr(prog, {0}, 3) == 75 && P.Addr(prog, {0}, 4) == 75;
  }

  /** The abstract relaxation of the program: its branch, and nothing else. */
  lemma CollisionRelaxed()
    ensures var prog := Collision();
            Linkable(prog) && Recordable(prog) && RelaxedStmts(prog) == {0}
            && forall i | 1 <= i <= 4 :: P.Addr(prog, {0}, i) >= 1
  {
    hide Nops, P.DefIdx, Recordable, RefsKnown, P.Addr;
    var prog := Collision();
    CollisionFacts();
    assert P.Addr(prog, {}, 0) == 0 by { ZeroAddr(prog, {}); }
    assert P.TooFar(prog, {}, 0);
    assert P.RelaxStep(prog, {}) == {0};
    assert P.RelaxStep(prog, {0}) == {0};
    hide P.RelaxStep, P.TooFar;
    assert P.RelaxSteps(prog, {0}, 18) == {0} && P.RelaxSteps(prog, {0}, 19) == {0};
  }

  lemma ZeroAddr(prog: seq<Stmt>, r: set<nat>)
    ensures P.Addr(prog, r, 0) == 0
  {
  }

  /** A user label of the form `__br_<n>` diverts a relaxed branch of the flat assembler: the link
      skips 4 words ahead, the flat image does not. */
  lemma CollisionDiffers(fp: string)
    ensures AssembleObject(Collision(), []).Ok?
    ensures LinkObjectFiles(TEXT_BASES, [(fp, AssembleObject(Collision(), []).value)]).Ok?
    ensures FlatAssemble(Collision())
         != Ok(LinkObjectFiles(TEXT_BASES, [(fp, AssembleObject(Collision(), []).value)]).value.words)
  {
    hide *;
    var prog := Collision();
    CollisionSize();
    CollisionSpliced();
    CollisionRelaxed();
    Assembles(prog, []);
    LinksIff(prog, [], fp);
    var lr := LinkObjectFiles(TEXT_BASES, [(fp, AssembleObject(prog, []).value)]).value;
    LinkedWords(prog, [], fp, lr);
    CollisionLinked();
    CollisionFlat();
    SkipsDiffer();
  }

  lemma CollisionSize()
    ensures |Collision()| == 4 && Collision() != []
  {
    hide Nops;
  }

  lemma SkipsDiffer()
    ensures EncodeRi(OP_LUI, 0, 4) != EncodeRi(OP_LUI, 0, 5)
  {
    FieldsRi(OP_LUI, 0, 4);
    FieldsRi(OP_LUI, 0, 5);
  }

  lemma CollisionLinked()
    ensures var words := Image(PairsOf(Collision(), {0}, 4)); |words| > 0 && words[0] == EncodeRi(OP_LUI, 0, 4)
  {
    hide P.Addr, LastWrite, PairsOf, EncodeRi;
    var prog := Collision();
    CollisionRelaxed();
    FirstLinked(prog, {0}, 4, EncodeRi(OP_LUI, 0, 4));
    PairsCover(prog, {0}, 4);
    CollisionFacts();
  }

  lemma CollisionFlat()
    ensures var r := FlatAssemble(Collision()); r.Ok? && r.value != [] ==> r.value[0] == EncodeRi(OP_LUI, 0, 5)
  {
    hide Assign, RelaxRounds, EncodePairs, LabelMap, LastWrite;
    CollisionSpliced();
    var out := RelaxRounds(Assign(Collision(), 4).value.placed, 0, 20);
    var labels := LabelMap(out);
    if EncodePairs(out, labels).Ok? { FirstWord(out, labels, EncodeRi(OP_LUI, 0, 5)); }
  }
}
