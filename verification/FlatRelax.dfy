/** The flat relaxer computes the abstract relaxation: after every round its statement list is
    the program with exactly the abstractly relaxed branches spliced open. */
module FlatRelax {
  import opened Isa
  import opened ObjFile
  import opened Linker
  import opened Numerals
  import opened Assembler
  import opened Programs

  // ---- decimal numerals tell skip labels apart ------------------------------------

  lemma SkipNamesDiffer(m: nat, n: nat)
    requires SkipName(m) == SkipName(n)
    ensures m == n
  {
    DecimalValue(m);
    DecimalValue(n);
    hide Decimal, Value;
    assert Decimal(m) == SkipName(m)[5..] && Decimal(n) == SkipName(n)[5..];
  }

  /** No statement defines one of the first `n` labels that the relaxer makes up. */
  ghost predicate NoSkipLabels(prog: seq<Stmt>, n: nat) {
    forall i, k: nat | 0 <= i < |prog| && k < n :: SkipName(k) !in prog[i].labels
  }

  // ---- the expanded program -------------------------------------------------------

  /** Skip-label numbers by statement. */
  type Names = map<nat, nat>

  function Num(nm: Names, i: nat): nat { if i in nm then nm[i] else 0 }

  ghost predicate GoodNames(nm: Names, r: set<nat>, k: nat) {
    (forall i | i in r :: Num(nm, i) < k)
    && forall i, j | i in r && j in r && Num(nm, i) == Num(nm, j) :: i == j
  }

  /** Statement `i` in the flat list, with its addresses. */
  function Block(prog: seq<Stmt>, r: set<nat>, nm: Names, i: nat): seq<Placed>
    requires i < |prog|
  {
    var a := Addr(prog, r, i);
    if prog[i].op.Branch? && i in r then
      var b := Spliced(Placed(prog[i], a), Num(nm, i));
      [b[0].(addr := a), b[1].(addr := a + 1), b[2].(addr := a + 3), b[3].(addr := a + 4)]
    else [Placed(prog[i], a)]
  }

  function Expand(prog: seq<Stmt>, r: set<nat>, nm: Names, m: nat): seq<Placed>
    requires m <= |prog|
  {
    if m == 0 then [] else Expand(prog, r, nm, m - 1) + Block(prog, r, nm, m - 1)
  }

  /** Words before element `k` of a statement list. */
  function Before(ps: seq<Placed>, k: nat): nat
    requires k <= |ps|
  {
    if k == 0 then 0 else Before(ps, k - 1) + StmtSize(ps[k - 1].stmt.op)
  }

  /** Every statement starts where the previous one ends. */
  ghost predicate Exact(ps: seq<Placed>) { forall k | 0 <= k < |ps| :: ps[k].addr == Before(ps, k) }

  lemma {:induction false} BeforePrefix(ps: seq<Placed>, qs: seq<Placed>, k: nat)
    requires k <= |ps|
    ensures Before(ps + qs, k) == Before(ps, k)
  {
    if k > 0 { BeforePrefix(ps, qs, k - 1); }
  }

  lemma {:induction false} BeforeConcat(ps: seq<Placed>, qs: seq<Placed>, k: nat)
    requires k <= |qs|
    ensures Before(ps + qs, |ps| + k) == Before(ps, |ps|) + Before(qs, k)
  {
    if k == 0 { BeforePrefix(ps, qs, |ps|); } else { BeforeConcat(ps, qs, k - 1); }
  }

  lemma BlockBefore(prog: seq<Stmt>, r: set<nat>, nm: Names, i: nat)
    requires i < |prog|
    ensures var b := Block(prog, r, nm, i);
            (forall k | 0 <= k < |b| :: b[k].addr == Addr(prog, r, i) + Before(b, k))
            && Before(b, |b|) == Size(prog, r, i)
  {
    var b := Block(prog, r, nm, i);
    hide Addr;
    assert Before(b, 0) == 0;
    assert Before(b, 1) == StmtSize(b[0].stmt.op);
    if |b| == 4 {
      assert Before(b, 2) == 3;
      assert Before(b, 3) == 4;
      assert Before(b, 4) == 4;
    }
  }

  lemma ExactConcat(e: seq<Placed>, b: seq<Placed>)
    requires Exact(e) && forall k | 0 <= k < |b| :: b[k].addr == Before(e, |e|) + Before(b, k)
    ensures Exact(e + b) && Before(e + b, |e + b|) == Before(e, |e|) + Before(b, |b|)
  {
    hide Before;
    forall k | 0 <= k < |e + b|
      ensures (e + b)[k].addr == Before(e + b, k)
    {
      if k < |e| { BeforePrefix(e, b, k); } else { BeforeConcat(e, b, k - |e|); }
    }
    BeforeConcat(e, b, |b|);
  }

  lemma {:induction false} ExpandExact(prog: seq<Stmt>, r: set<nat>, nm: Names, m: nat)
    requires m <= |prog|
    ensures var e := Expand(prog, r, nm, m);
            Exact(e) && Before(e, |e|) == Addr(prog, r, m)
  {
    hide Block, Exact, Size;
    if m == 0 {
      EmptyExact();
    } else {
      hide Before;
      ExpandExact(prog, r, nm, m - 1);
      BlockBefore(prog, r, nm, m - 1);
      ExactConcat(Expand(prog, r, nm, m - 1), Block(prog, r, nm, m - 1));
    }
  }

  lemma EmptyExact()
    ensures Exact([]) && Before([], 0) == 0
  {
  }

  // ---- recomputing addresses ------------------------------------------------------

  /** Same statements, addresses not ahead of those of `t` (or fresh). */
  ghost predicate Stale(l: seq<Placed>, t: seq<Placed>) {
    |l| == |t| && forall k | 0 <= k < |l| :: l[k].stmt == t[k].stmt && l[k].addr <= t[k].addr
  }

  lemma StaleConcat(l: seq<Placed>, t: seq<Placed>, l': seq<Placed>, t': seq<Placed>)
    requires Stale(l, t) && Stale(l', t')
    ensures Stale(l + l', t + t')
  {
  }

  lemma {:induction false} StaleStarts(l: seq<Placed>, t: seq<Placed>, i: nat)
    requires Stale(l, t) && Exact(t) && i <= |l|
    ensures EndAddr(l, i) == Before(t, i)
    ensures i < |l| ==> StartAddr(l, i) == t[i].addr
  {
    hide *;
    if i > 0 {
      StaleStarts(l, t, i - 1);
      SameStmt(l, t, i - 1);
      StartStep(l, t, i - 1);
    } else {
      StartZero(l, t);
    }
    if i < |l| { StaleHere(l, t, i); }
  }

  lemma StartStep(l: seq<Placed>, t: seq<Placed>, i: nat)
    requires i < |l| == |t|
    ensures EndAddr(l, i + 1) == StartAddr(l, i) + StmtSize(l[i].stmt.op)
    ensures Before(t, i + 1) == Before(t, i) + StmtSize(t[i].stmt.op)
  {
    hide StmtSize, StartAddr;
  }

  lemma StartZero(l: seq<Placed>, t: seq<Placed>)
    ensures EndAddr(l, 0) == Before(t, 0) == 0
  {
  }

  lemma SameStmt(l: seq<Placed>, t: seq<Placed>, i: nat)
    requires Stale(l, t) && Exact(t) && i < |l|
    ensures |l| == |t| && l[i].stmt == t[i].stmt && l[i].addr <= t[i].addr == Before(t, i)
  {
    hide Before;
  }

  lemma StaleHere(l: seq<Placed>, t: seq<Placed>, i: nat)
    requires Stale(l, t) && Exact(t) && i < |l| && EndAddr(l, i) == Before(t, i)
    ensures StartAddr(l, i) == t[i].addr
  {
    SameStmt(l, t, i);
    hide Stale, Exact, EndAddr, Before;
  }

  /** Recomputing from stale addresses gives the exact ones. */
  lemma RecomputeStale(l: seq<Placed>, t: seq<Placed>)
    requires Stale(l, t) && Exact(t)
    ensures Recompute(l) == t
  {
    forall i | 0 <= i < |l| ensures Recompute(l)[i] == t[i] { StaleStarts(l, t, i); }
  }

  // ---- labels of the expanded program ---------------------------------------------

  // What the label map of the first `m` expanded statements holds: every label of the
  // program, every skip label, and nothing but those and the first `k` made-up names.

  ghost predicate HasLabels(prog: seq<Stmt>, r: set<nat>, m: nat, lm: map<string, int>)
    requires m <= |prog|
  {
    forall i, l | 0 <= i < m && l in prog[i].labels :: l in lm && lm[l] == Addr(prog, r, i)
  }

  ghost predicate HasSkips(prog: seq<Stmt>, r: set<nat>, nm: Names, m: nat, lm: map<string, int>)
    requires m <= |prog|
  {
    forall i: nat | i < m && prog[i].op.Branch? && i in r :: IsSkip(prog, r, nm, i, lm)
  }

  ghost predicate IsSkip(prog: seq<Stmt>, r: set<nat>, nm: Names, i: nat, lm: map<string, int>)
    requires i < |prog|
  {
    SkipName(Num(nm, i)) in lm && lm[SkipName(Num(nm, i))] == Addr(prog, r, i) + 4
  }

  ghost predicate IsKnown(prog: seq<Stmt>, k: nat, m: nat, l: string)
    requires m <= |prog|
  {
    (exists i | 0 <= i < m :: l in prog[i].labels) || (exists j: nat | j < k :: l == SkipName(j))
  }

  ghost predicate OnlyKnown(prog: seq<Stmt>, k: nat, m: nat, lm: map<string, int>)
    requires m <= |prog|
  {
    forall l | l in lm :: IsKnown(prog, k, m, l)
  }

  ghost predicate LabelsOf(prog: seq<Stmt>, r: set<nat>, nm: Names, k: nat, m: nat, lm: map<string, int>)
    requires m <= |prog|
  {
    HasLabels(prog, r, m, lm) && HasSkips(prog, r, nm, m, lm) && OnlyKnown(prog, k, m, lm)
  }

  lemma LabelMapSnoc(ps: seq<Placed>, p: Placed)
    ensures LabelMap(ps + [p]) == WithLabels(LabelMap(ps), p.stmt.labels, p.addr)
  {
    assert (ps + [p])[..|ps|] == ps;
  }

  lemma LabelMapNoLabels(ps: seq<Placed>, p: Placed)
    requires p.stmt.labels == []
    ensures LabelMap(ps + [p]) == LabelMap(ps)
  {
    LabelMapSnoc(ps, p);
    assert (map l | l in p.stmt.labels :: p.addr) == map[];
  }

  lemma LabelMapOne(ps: seq<Placed>, p: Placed, l: string)
    requires p.stmt.labels == [l]
    ensures LabelMap(ps + [p]) == LabelMap(ps)[l := p.addr]
  {
    LabelMapSnoc(ps, p);
    hide LabelMap;
    assert (map x | x in [l] :: p.addr) == map[l := p.addr];
  }

  lemma LabelMapFour(ps: seq<Placed>, b0: Placed, b1: Placed, b2: Placed, b3: Placed, l: string)
    requires b1.stmt.labels == [] && b2.stmt.labels == [] && b3.stmt.labels == [l]
    ensures LabelMap(ps + [b0, b1, b2, b3])
            == WithLabels(LabelMap(ps), b0.stmt.labels, b0.addr)[l := b3.addr]
  {
    hide LabelMap, WithLabels;
    var p0 := ps + [b0];
    var p1 := p0 + [b1];
    var p2 := p1 + [b2];
    assert ps + [b0, b1, b2, b3] == p2 + [b3];
    LabelMapSnoc(ps, b0);
    LabelMapNoLabels(p0, b1);
    LabelMapNoLabels(p1, b2);
    LabelMapOne(p2, b3, l);
  }

  lemma LabelMapBlock(prog: seq<Stmt>, r: set<nat>, nm: Names, ps: seq<Placed>, i: nat)
    requires i < |prog|
    ensures var b, a := Block(prog, r, nm, i), Addr(prog, r, i);
            var m1 := WithLabels(LabelMap(ps), prog[i].labels, a);
            LabelMap(ps + b) == if prog[i].op.Branch? && i in r then m1[SkipName(Num(nm, i)) := a + 4] else m1
  {
    hide Addr, SkipName, LabelMap, WithLabels;
    var b := Block(prog, r, nm, i);
    if prog[i].op.Branch? && i in r {
      assert b == [b[0], b[1], b[2], b[3]];
      LabelMapFour(ps, b[0], b[1], b[2], b[3], SkipName(Num(nm, i)));
    } else {
      assert b == [b[0]];
      LabelMapSnoc(ps, b[0]);
    }
  }

  lemma {:induction false} ExpandLabels(prog: seq<Stmt>, r: set<nat>, nm: Names, k: nat, m: nat)
    requires m <= |prog| && DistinctLabels(prog) && NoSkipLabels(prog, k) && GoodNames(nm, r, k)
    ensures LabelsOf(prog, r, nm, k, m, LabelMap(Expand(prog, r, nm, m)))
  {
    hide *;
    if m == 0 {
      NoLabels(prog, r, nm, k);
    } else {
      ExpandLabels(prog, r, nm, k, m - 1);
      ExpandStep(prog, r, nm, m - 1);
      LabelMapBlock(prog, r, nm, Expand(prog, r, nm, m - 1), m - 1);
      LabelsStep(prog, r, nm, k, m, LabelMap(Expand(prog, r, nm, m - 1)), LabelMap(Expand(prog, r, nm, m)));
    }
  }

  lemma NoLabels(prog: seq<Stmt>, r: set<nat>, nm: Names, k: nat)
    ensures LabelsOf(prog, r, nm, k, 0, LabelMap(Expand(prog, r, nm, 0)))
  {
  }

  /** The label map after one more block. */
  function NextLabels(prog: seq<Stmt>, r: set<nat>, nm: Names, i: nat, lm: map<string, int>): map<string, int>
    requires i < |prog|
  {
    var m1 := WithLabels(lm, prog[i].labels, Addr(prog, r, i));
    if prog[i].op.Branch? && i in r then m1[SkipName(Num(nm, i)) := Addr(prog, r, i) + 4] else m1
  }

  lemma LabelsStep(prog: seq<Stmt>, r: set<nat>, nm: Names, k: nat, m: nat, m0: map<string, int>, m1: map<string, int>)
    requires 0 < m <= |prog| && DistinctLabels(prog) && NoSkipLabels(prog, k) && GoodNames(nm, r, k)
    requires LabelsOf(prog, r, nm, k, m - 1, m0)
    requires var m2 := WithLabels(m0, prog[m - 1].labels, Addr(prog, r, m - 1));
             m1 == if prog[m - 1].op.Branch? && m - 1 in r then m2[SkipName(Num(nm, m - 1)) := Addr(prog, r, m - 1) + 4] else m2
    ensures LabelsOf(prog, r, nm, k, m, m1)
  {
    assert m1 == NextLabels(prog, r, nm, m - 1, m0);
    hide *;
    LabelsStep1(prog, r, nm, k, m, m0);
    LabelsStep2(prog, r, nm, k, m, m0);
    LabelsStep3(prog, r, nm, k, m, m0);
    LabelsMake(prog, r, nm, k, m, m1);
  }

  lemma LabelsMake(prog: seq<Stmt>, r: set<nat>, nm: Names, k: nat, m: nat, lm: map<string, int>)
    requires m <= |prog| && HasLabels(prog, r, m, lm) && HasSkips(prog, r, nm, m, lm) && OnlyKnown(prog, k, m, lm)
    ensures LabelsOf(prog, r, nm, k, m, lm)
  {
  }

  lemma LabelsStep1(prog: seq<Stmt>, r: set<nat>, nm: Names, k: nat, m: nat, m0: map<string, int>)
    requires 0 < m <= |prog| && DistinctLabels(prog) && NoSkipLabels(prog, k) && GoodNames(nm, r, k)
    requires LabelsOf(prog, r, nm, k, m - 1, m0)
    ensures HasLabels(prog, r, m, NextLabels(prog, r, nm, m - 1, m0))
  {
    hide Addr, SkipName, Num, HasSkips, OnlyKnown;
  }

  lemma LabelsStep2(prog: seq<Stmt>, r: set<nat>, nm: Names, k: nat, m: nat, m0: map<string, int>)
    requires 0 < m <= |prog| && NoSkipLabels(prog, k) && GoodNames(nm, r, k)
    requires LabelsOf(prog, r, nm, k, m - 1, m0)
    ensures HasSkips(prog, r, nm, m, NextLabels(prog, r, nm, m - 1, m0))
  {
    hide Addr, SkipName, Num, HasLabels, OnlyKnown;
    var i := m - 1;
    forall j: nat | j < m && prog[j].op.Branch? && j in r
      ensures IsSkip(prog, r, nm, j, NextLabels(prog, r, nm, i, m0))
    {
      if j < i {
        assert IsSkip(prog, r, nm, j, m0);
        if i in r && SkipName(Num(nm, j)) == SkipName(Num(nm, i)) {
          SkipNamesDiffer(Num(nm, j), Num(nm, i));
        }
      }
    }
  }

  lemma LabelsStep3(prog: seq<Stmt>, r: set<nat>, nm: Names, k: nat, m: nat, m0: map<string, int>)
    requires 0 < m <= |prog| && LabelsOf(prog, r, nm, k, m - 1, m0) && GoodNames(nm, r, k)
    ensures OnlyKnown(prog, k, m, NextLabels(prog, r, nm, m - 1, m0))
  {
    hide Addr, SkipName, Num, HasSkips, HasLabels;
    var i := m - 1;
    forall l | l in NextLabels(prog, r, nm, i, m0)
      ensures IsKnown(prog, k, m, l)
    {
      if l in m0 { assert IsKnown(prog, k, m - 1, l); }
    }
  }

  // ---- one round ------------------------------------------------------------------

  /** In the expanded program exactly the abstractly too-far branches violate. */
  lemma BlockViolations(prog: seq<Stmt>, r: set<nat>, nm: Names, k: nat, labels: map<string, int>, i: nat)
    requires i < |prog| && DistinctLabels(prog) && LabelsOf(prog, r, nm, k, |prog|, labels) && RefsAreUser(prog, k)
    ensures var b := Block(prog, r, nm, i);
            if prog[i].op.Branch? && i in r then forall j | 0 <= j < 4 :: !Violates(labels, b[j])
            else |b| == 1 && (Violates(labels, b[0]) <==> TooFar(prog, r, i))
  {
    hide Addr, SkipName;
    if prog[i].op.Branch? && i in r {
      assert IsSkip(prog, r, nm, i, labels);
    } else if prog[i].op.Branch? {
      var l := prog[i].op.name;
      if l in labels { assert IsKnown(prog, k, |prog|, l); }
      match DefIdx(prog, l, |prog|)
      case None =>
      case Some(d) => assert l in prog[d].labels;
    }
  }

  /** No branch names one of the first `n` made-up labels. */
  ghost predicate RefsAreUser(prog: seq<Stmt>, n: nat) {
    forall i, k: nat | 0 <= i < |prog| && prog[i].op.Branch? && k < n :: prog[i].op.name != SkipName(k)
  }

  /** The number of too-far branches among the first `m` statements. */
  function CountFar(prog: seq<Stmt>, r: set<nat>, m: nat): nat
    requires m <= |prog|
  {
    if m == 0 then 0 else CountFar(prog, r, m - 1) + if TooFar(prog, r, m - 1) then 1 else 0
  }

  /** The number of too-far branches from statement `m` on. */
  function FarFrom(prog: seq<Stmt>, r: set<nat>, m: nat): nat
    requires m <= |prog|
    decreases |prog| - m
  {
    if m == |prog| then 0 else FarFrom(prog, r, m + 1) + if TooFar(prog, r, m) then 1 else 0
  }

  lemma {:induction false} CountSplits(prog: seq<Stmt>, r: set<nat>, m: nat)
    requires m <= |prog|
    ensures CountFar(prog, r, m) + FarFrom(prog, r, m) == CountFar(prog, r, |prog|)
    decreases |prog| - m
  {
    hide TooFar;
    if m < |prog| { CountSplits(prog, r, m + 1); }
  }

  /** The numbers the round gives, counting from the end of the program. */
  function NextNames(prog: seq<Stmt>, r: set<nat>, nm: Names, k: nat): Names {
    map i: nat | i < |prog| && (i in r || TooFar(prog, r, i)) ::
      if i in r then Num(nm, i) else k + FarFrom(prog, r, i + 1)
  }

  lemma {:induction false} FarDecreases(prog: seq<Stmt>, r: set<nat>, i: nat, j: nat)
    requires i <= j <= |prog|
    ensures FarFrom(prog, r, i) >= FarFrom(prog, r, j)
    ensures i < j && TooFar(prog, r, i) ==> FarFrom(prog, r, i) > FarFrom(prog, r, j)
    decreases j - i
  {
    hide TooFar;
    if i < j { FarDecreases(prog, r, i + 1, j); }
  }

  lemma NextNum(prog: seq<Stmt>, r: set<nat>, nm: Names, k: nat, i: nat)
    requires i in RelaxStep(prog, r) && OnlyBranches(prog, r)
    ensures i < |prog|
    ensures Num(NextNames(prog, r, nm, k), i) == if i in r then Num(nm, i) else k + FarFrom(prog, r, i + 1)
    ensures i !in r ==> TooFar(prog, r, i)
  {
    hide TooFar, FarFrom;
  }

  lemma NextNamesGood(prog: seq<Stmt>, r: set<nat>, nm: Names, k: nat)
    requires GoodNames(nm, r, k) && OnlyBranches(prog, r)
    ensures GoodNames(NextNames(prog, r, nm, k), RelaxStep(prog, r), k + CountFar(prog, r, |prog|))
  {
    hide TooFar, RelaxStep, NextNames, FarFrom, CountFar, Num, OnlyBranches;
    var nm', r' := NextNames(prog, r, nm, k), RelaxStep(prog, r);
    CountSplits(prog, r, 0);
    CountNone(prog, r);
    forall i | i in r'
      ensures Num(nm', i) < k + CountFar(prog, r, |prog|) && (i !in r ==> Num(nm', i) >= k)
    {
      NextNum(prog, r, nm, k, i);
      FarDecreases(prog, r, 0, i);
      FarDecreases(prog, r, i, i + 1);
    }
    forall i, j | i in r' && j in r' && Num(nm', i) == Num(nm', j)
      ensures i == j
    {
      NextNum(prog, r, nm, k, i);
      NextNum(prog, r, nm, k, j);
      if i !in r && j !in r { NumbersDiffer(prog, r, i, j); }
    }
  }

  lemma NumbersDiffer(prog: seq<Stmt>, r: set<nat>, i: nat, j: nat)
    requires i < |prog| && j < |prog| && TooFar(prog, r, i) && TooFar(prog, r, j)
    ensures FarFrom(prog, r, i + 1) == FarFrom(prog, r, j + 1) ==> i == j
  {
    hide TooFar, FarFrom;
    if i < j {
      FarDecreases(prog, r, i + 1, j);
      FarDecreases(prog, r, j, j + 1);
    } else if j < i {
      FarDecreases(prog, r, j + 1, i);
      FarDecreases(prog, r, i, i + 1);
    }
  }

  lemma CountNone(prog: seq<Stmt>, r: set<nat>)
    ensures CountFar(prog, r, 0) == 0
  {
  }

  lemma {:induction false} SpliceQuiet(ps: seq<Placed>, b: seq<Placed>, labels: map<string, int>, k: nat)
    requires forall i | 0 <= i < |b| :: !Violates(labels, b[i])
    ensures Splice(ps + b, labels, k) == Splice(ps, labels, k) + b
    ensures CountViolations(ps + b, labels) == CountViolations(ps, labels)
    decreases |b|
  {
    hide Violates;
    if b == [] {
      assert ps + b == ps;
    } else {
      var init, p := b[..|b| - 1], b[|b| - 1];
      assert (ps + b)[..|ps + b| - 1] == ps + init;
      SpliceQuiet(ps, init, labels, k);
      assert Splice(ps, labels, k) + init + [p] == Splice(ps, labels, k) + b;
    }
  }

  lemma SpliceBad(ps: seq<Placed>, p: Placed, labels: map<string, int>, k: nat)
    requires Violates(labels, p)
    ensures Splice(ps + [p], labels, k) == Splice(ps, labels, k + 1) + Spliced(p, k)
    ensures CountViolations(ps + [p], labels) == CountViolations(ps, labels) + 1
  {
    hide Violates, Spliced;
    assert (ps + [p])[..|ps|] == ps;
  }

  lemma FourStale(p: Placed, n: nat, a: nat)
    requires p.stmt.op.Branch?
    ensures var b := Spliced(p, n);
            Stale(b, [b[0].(addr := a), b[1].(addr := a + 1), b[2].(addr := a + 3), b[3].(addr := a + 4)])
  {
    hide SkipName, EncodeR3;
  }

  lemma SplicedIgnoresAddr(s: Stmt, a: int, a': int, n: nat)
    requires s.op.Branch?
    ensures Spliced(Placed(s, a), n) == Spliced(Placed(s, a'), n)
  {
  }

  lemma FarFacts(prog: seq<Stmt>, r: set<nat>, i: nat)
    requires TooFar(prog, r, i)
    ensures i in RelaxStep(prog, r) && i !in r && i < |prog| && prog[i].op.Branch?
  {
  }

  /** A block before the round against the block after it. */
  lemma FarBlockStale(prog: seq<Stmt>, r: set<nat>, nm: Names, k: nat, i: nat)
    requires i < |prog| && OnlyBranches(prog, r) && TooFar(prog, r, i)
    ensures Stale(Spliced(Placed(prog[i], Addr(prog, r, i)), k + FarFrom(prog, r, i + 1)),
                  Block(prog, RelaxStep(prog, r), NextNames(prog, r, nm, k), i))
  {
    hide TooFar, RelaxStep, NextNames, Num, Addr, FarFrom, Stale, Spliced, OnlyBranches;
    var r', nm' := RelaxStep(prog, r), NextNames(prog, r, nm, k);
    FarFacts(prog, r, i);
    NextNum(prog, r, nm, k, i);
    var n := k + FarFrom(prog, r, i + 1);
    SplicedIgnoresAddr(prog[i], Addr(prog, r, i), Addr(prog, r', i), n);
    FourStale(Placed(prog[i], Addr(prog, r', i)), n, Addr(prog, r', i));
  }

  lemma QuietBlockStale(prog: seq<Stmt>, r: set<nat>, nm: Names, k: nat, i: nat)
    requires i < |prog| && OnlyBranches(prog, r) && !TooFar(prog, r, i)
    ensures Stale(Block(prog, r, nm, i), Block(prog, RelaxStep(prog, r), NextNames(prog, r, nm, k), i))
  {
    hide *;
    var r', nm' := RelaxStep(prog, r), NextNames(prog, r, nm, k);
    StepIncludes(prog, r);
    AddrMonotone(prog, r, r', i);
    QuietFacts(prog, r, i);
    if i in r { NextNum(prog, r, nm, k, i); }
    MovedBlock(prog, r, r', nm, nm', i);
  }

  lemma QuietFacts(prog: seq<Stmt>, r: set<nat>, i: nat)
    requires i < |prog| && !TooFar(prog, r, i)
    ensures i in RelaxStep(prog, r) <==> i in r
  {
    hide TooFar;
  }

  /** A block whose branch stays as it is only moves. */
  lemma MovedBlock(prog: seq<Stmt>, r: set<nat>, r': set<nat>, nm: Names, nm': Names, i: nat)
    requires i < |prog| && (i in r <==> i in r') && (i in r ==> Num(nm, i) == Num(nm', i))
    requires Addr(prog, r, i) <= Addr(prog, r', i)
    ensures Stale(Block(prog, r, nm, i), Block(prog, r', nm', i))
  {
    hide Addr, Num, Spliced, EncodeR3;
    if prog[i].op.Branch? && i in r {
      SplicedIgnoresAddr(prog[i], Addr(prog, r, i), Addr(prog, r', i), Num(nm, i));
      SplicedFour(Placed(prog[i], Addr(prog, r, i)), Num(nm, i));
    }
  }

  lemma SplicedFour(p: Placed, n: nat)
    requires p.stmt.op.Branch?
    ensures |Spliced(p, n)| == 4
  {
  }

  lemma StepIncludes(prog: seq<Stmt>, r: set<nat>)
    ensures r <= RelaxStep(prog, r)
  {
    hide TooFar;
  }

  lemma {:induction false} SpliceExpand(prog: seq<Stmt>, r: set<nat>, nm: Names, labels: map<string, int>, k: nat, m: nat)
    requires m <= |prog| && OnlyBranches(prog, r) && DistinctLabels(prog)
    requires RefsAreUser(prog, k) && LabelsOf(prog, r, nm, k, |prog|, labels)
    ensures CountViolations(Expand(prog, r, nm, m), labels) == CountFar(prog, r, m)
    ensures Stale(Splice(Expand(prog, r, nm, m), labels, k + FarFrom(prog, r, m)),
                  Expand(prog, RelaxStep(prog, r), NextNames(prog, r, nm, k), m))
  {
    hide *;
    if m == 0 {
      SpliceNothing(prog, r, nm, labels, k);
    } else {
      SpliceExpand(prog, r, nm, labels, k, m - 1);
      SpliceExpandStep(prog, r, nm, labels, k, m - 1);
    }
  }

  lemma SpliceNothing(prog: seq<Stmt>, r: set<nat>, nm: Names, labels: map<string, int>, k: nat)
    ensures CountViolations(Expand(prog, r, nm, 0), labels) == CountFar(prog, r, 0)
    ensures Stale(Splice(Expand(prog, r, nm, 0), labels, k + FarFrom(prog, r, 0)),
                  Expand(prog, RelaxStep(prog, r), NextNames(prog, r, nm, k), 0))
  {
    hide FarFrom, RelaxStep, NextNames;
  }

  lemma ExpandStep(prog: seq<Stmt>, r: set<nat>, nm: Names, i: nat)
    requires i < |prog|
    ensures Expand(prog, r, nm, i + 1) == Expand(prog, r, nm, i) + Block(prog, r, nm, i)
  {
  }

  lemma CountStep(prog: seq<Stmt>, r: set<nat>, i: nat)
    requires i < |prog|
    ensures CountFar(prog, r, i + 1) == CountFar(prog, r, i) + if TooFar(prog, r, i) then 1 else 0
    ensures FarFrom(prog, r, i) == FarFrom(prog, r, i + 1) + if TooFar(prog, r, i) then 1 else 0
  {
    hide TooFar;
  }

  lemma SpliceExpandStep(prog: seq<Stmt>, r: set<nat>, nm: Names, labels: map<string, int>, k: nat, i: nat)
    requires i < |prog| && OnlyBranches(prog, r) && DistinctLabels(prog)
    requires RefsAreUser(prog, k) && LabelsOf(prog, r, nm, k, |prog|, labels)
    requires CountViolations(Expand(prog, r, nm, i), labels) == CountFar(prog, r, i)
    requires Stale(Splice(Expand(prog, r, nm, i), labels, k + FarFrom(prog, r, i)),
                   Expand(prog, RelaxStep(prog, r), NextNames(prog, r, nm, k), i))
    ensures CountViolations(Expand(prog, r, nm, i + 1), labels) == CountFar(prog, r, i + 1)
    ensures Stale(Splice(Expand(prog, r, nm, i + 1), labels, k + FarFrom(prog, r, i + 1)),
                  Expand(prog, RelaxStep(prog, r), NextNames(prog, r, nm, k), i + 1))
  {
    hide *;
    var e, b := Expand(prog, r, nm, i), Block(prog, r, nm, i);
    var r', nm' := RelaxStep(prog, r), NextNames(prog, r, nm, k);
    var k1 := k + FarFrom(prog, r, i + 1);
    ExpandStep(prog, r, nm, i);
    ExpandStep(prog, r', nm', i);
    CountStep(prog, r, i);
    if TooFar(prog, r, i) {
      TooFarBlock(prog, r, nm, i);
      FarViolates(prog, r, nm, k, labels, i);
      SpliceBad(e, b[0], labels, k1);
      FarBlockStale(prog, r, nm, k, i);
      StaleConcat(Splice(e, labels, k1 + 1), Expand(prog, r', nm', i), Spliced(b[0], k1), Block(prog, r', nm', i));
    } else {
      QuietBlock(prog, r, nm, k, labels, i);
      SpliceQuiet(e, b, labels, k1);
      QuietBlockStale(prog, r, nm, k, i);
      StaleConcat(Splice(e, labels, k1), Expand(prog, r', nm', i), b, Block(prog, r', nm', i));
    }
  }

  lemma FarViolates(prog: seq<Stmt>, r: set<nat>, nm: Names, k: nat, labels: map<string, int>, i: nat)
    requires i < |prog| && TooFar(prog, r, i) && DistinctLabels(prog)
    requires RefsAreUser(prog, k) && LabelsOf(prog, r, nm, k, |prog|, labels)
    ensures Violates(labels, Placed(prog[i], Addr(prog, r, i)))
  {
    BlockViolations(prog, r, nm, k, labels, i);
    hide LabelsOf, Addr, LabelAddr, Violates;
  }

  lemma TooFarBlock(prog: seq<Stmt>, r: set<nat>, nm: Names, i: nat)
    requires i < |prog| && TooFar(prog, r, i)
    ensures Block(prog, r, nm, i) == [Placed(prog[i], Addr(prog, r, i))] && prog[i].op.Branch? && i !in r
  {
  }

  lemma QuietBlock(prog: seq<Stmt>, r: set<nat>, nm: Names, k: nat, labels: map<string, int>, i: nat)
    requires i < |prog| && !TooFar(prog, r, i) && DistinctLabels(prog)
    requires RefsAreUser(prog, k) && LabelsOf(prog, r, nm, k, |prog|, labels)
    ensures var b := Block(prog, r, nm, i); forall j | 0 <= j < |b| :: !Violates(labels, b[j])
  {
    BlockViolations(prog, r, nm, k, labels, i);
    hide TooFar, Violates, LabelsOf, Addr;
  }

  lemma {:induction false} CountFarZero(prog: seq<Stmt>, r: set<nat>, m: nat)
    requires m <= |prog|
    ensures CountFar(prog, r, m) == 0 <==> forall i | 0 <= i < m :: !TooFar(prog, r, i)
  {
    hide TooFar;
    if m > 0 { CountFarZero(prog, r, m - 1); }
  }

  lemma StepKeepsBranches(prog: seq<Stmt>, r: set<nat>)
    requires OnlyBranches(prog, r)
    ensures OnlyBranches(prog, RelaxStep(prog, r))
    ensures RelaxStep(prog, r) == r <==> CountFar(prog, r, |prog|) == 0
  {
    CountFarZero(prog, r, |prog|);
    hide LabelAddr, CountFar;
    if CountFar(prog, r, |prog|) != 0 {
      var i :| 0 <= i < |prog| && TooFar(prog, r, i);
      assert i in RelaxStep(prog, r) && i !in r;
    } else {
      assert RelaxStep(prog, r) == r;
    }
  }

  // ---- how many names are made up -------------------------------------------------

  lemma {:induction false} CountIsSize(prog: seq<Stmt>, r: set<nat>, m: nat)
    requires m <= |prog|
    ensures CountFar(prog, r, m) == |set i: nat | i < m && TooFar(prog, r, i)|
  {
    hide TooFar;
    var s := set i: nat | i < m && TooFar(prog, r, i);
    if m > 0 {
      CountIsSize(prog, r, m - 1);
      var before := set i: nat | i < m - 1 && TooFar(prog, r, i);
      assert s == if TooFar(prog, r, m - 1) then before + {m - 1} else before;
    } else {
      assert s == {};
    }
  }

  /** One name is made up for every branch a round relaxes. */
  lemma StepSize(prog: seq<Stmt>, r: set<nat>)
    ensures |RelaxStep(prog, r)| == |r| + CountFar(prog, r, |prog|)
  {
    CountIsSize(prog, r, |prog|);
    var far := set i: nat | i < |prog| && TooFar(prog, r, i);
    assert far !! r;
    hide CountFar, TooFar;
  }

  lemma {:induction false} StepsGrow(prog: seq<Stmt>, r: set<nat>, fuel: nat)
    ensures r <= RelaxSteps(prog, r, fuel) && |r| <= |RelaxSteps(prog, r, fuel)|
    decreases fuel
  {
    hide RelaxStep;
    if fuel > 0 && RelaxStep(prog, r) != r {
      StepsGrow(prog, RelaxStep(prog, r), fuel - 1);
      StepSize(prog, r);
      StepIncludes(prog, r);
    }
  }

  lemma FewerNames(prog: seq<Stmt>, k: nat, n: nat)
    requires k <= n
    ensures NoSkipLabels(prog, n) ==> NoSkipLabels(prog, k)
    ensures RefsAreUser(prog, n) ==> RefsAreUser(prog, k)
  {
    hide SkipName;
  }

  /** The flat relaxer, round by round: its list is always an expansion, it has made up one name for
      every branch relaxed, and it stops with the abstract relaxation of the same number of rounds. */
  lemma {:induction false} FlatRounds(prog: seq<Stmt>, r: set<nat>, nm: Names, fuel: nat) returns (nm': Names)
    requires OnlyBranches(prog, r) && DistinctLabels(prog) && GoodNames(nm, r, |r|)
    requires NoSkipLabels(prog, |RelaxSteps(prog, r, fuel)|) && RefsAreUser(prog, |RelaxSteps(prog, r, fuel)|)
    ensures var r' := RelaxSteps(prog, r, fuel);
            RelaxRounds(Expand(prog, r, nm, |prog|), |r|, fuel) == Expand(prog, r', nm', |prog|)
            && GoodNames(nm', r', |r'|) && OnlyBranches(prog, r')
    decreases fuel
  {
    hide Expand, GoodNames, OnlyBranches, DistinctLabels, NoSkipLabels, RefsAreUser, LabelMap, CountViolations, Splice, LabelsOf, RelaxStep, CountFar, NextNames, Stale, Exact, Recompute;
    var n, k := |prog|, |r|;
    var ps := Expand(prog, r, nm, n);
    StepsGrow(prog, r, fuel);
    FewerNames(prog, k, |RelaxSteps(prog, r, fuel)|);
    ExpandLabels(prog, r, nm, k, n);
    SpliceExpand(prog, r, nm, LabelMap(ps), k, n);
    StepKeepsBranches(prog, r);
    if fuel == 0 || CountFar(prog, r, n) == 0 {
      nm' := nm;
    } else {
      var r1, nm1 := RelaxStep(prog, r), NextNames(prog, r, nm, k);
      StepSize(prog, r);
      NextNamesGood(prog, r, nm, k);
      ExpandExact(prog, r1, nm1, n);
      RecomputeStale(Splice(ps, LabelMap(ps), k), Expand(prog, r1, nm1, n));
      nm' := FlatRounds(prog, r1, nm1, fuel - 1);
    }
  }

  lemma {:induction false} ExpandPlain(prog: seq<Stmt>, m: nat)
    requires m <= |prog|
    ensures |Expand(prog, {}, map[], m)| == m
    ensures forall i | 0 <= i < m :: Expand(prog, {}, map[], m)[i] == Placed(prog[i], Addr(prog, {}, i))
  {
    hide Addr;
    if m > 0 { ExpandPlain(prog, m - 1); }
  }

  /** What the flat assembler encodes, if no statement defines or branches to a name that it makes up
      on the way. */
  lemma FlatRelaxed(prog: seq<Stmt>) returns (nm: Names)
    requires Assign(prog, |prog|).Ok?
    requires NoSkipLabels(prog, |RelaxSteps(prog, {}, 20)|) && RefsAreUser(prog, |RelaxSteps(prog, {}, 20)|)
    ensures var r := RelaxSteps(prog, {}, 20);
            RelaxRounds(Assign(prog, |prog|).value.placed, 0, 20) == Expand(prog, r, nm, |prog|)
            && GoodNames(nm, r, |r|) && OnlyBranches(prog, r)
  {
    hide Assign, RelaxRounds, RelaxSteps, NoSkipLabels, RefsAreUser;
    AssignDistinct(prog);
    hide DistinctLabels, Expand;
    ExpandPlain(prog, |prog|);
    assert Assign(prog, |prog|).value.placed == Expand(prog, {}, map[], |prog|);
    nm := FlatRounds(prog, {}, map[], 20);
  }
}
