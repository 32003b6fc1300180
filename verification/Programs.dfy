/** Branch relaxation in the abstract: which statements of a program are relaxed, and the
    addresses that follow.  Both relaxers turn out to compute this. */
module Programs {
  import opened Isa
  import opened ObjFile
  import opened Linker
  import opened Assembler

  function Size(prog: seq<Stmt>, r: set<nat>, i: nat): nat
    requires i < |prog|
  {
    if prog[i].op.Branch? && i in r then 4 else StmtSize(prog[i].op)
  }

  /** Address of statement `i` when the branches `r` are relaxed. */
  function Addr(prog: seq<Stmt>, r: set<nat>, i: nat): nat
    requires i <= |prog|
  {
    if i == 0 then 0 else Addr(prog, r, i - 1) + Size(prog, r, i - 1)
  }

  /** The statement among the first `n` that defines a label. */
  function DefIdx(prog: seq<Stmt>, l: string, n: nat): (d: Option<nat>)
    requires n <= |prog|
    ensures d.Some? ==> d.value < n && l in prog[d.value].labels
    ensures d.None? ==> forall i | 0 <= i < n :: l !in prog[i].labels
  {
    if n == 0 then None
    else if l in prog[n - 1].labels then Some(n - 1)
    else DefIdx(prog, l, n - 1)
  }

  function LabelAddr(prog: seq<Stmt>, r: set<nat>, l: string): Option<int> {
    match DefIdx(prog, l, |prog|)
    case None => None
    case Some(d) => Some(Addr(prog, r, d))
  }

  /** An unrelaxed branch to a known label out of its reach. */
  predicate TooFar(prog: seq<Stmt>, r: set<nat>, i: nat) {
    i < |prog| && prog[i].op.Branch? && i !in r
    && var t := LabelAddr(prog, r, prog[i].op.name);
       t.Some? && !InRange(t.value - Addr(prog, r, i))
  }

  function RelaxStep(prog: seq<Stmt>, r: set<nat>): set<nat> {
    r + set i: nat | i < |prog| && TooFar(prog, r, i)
  }

  function RelaxSteps(prog: seq<Stmt>, r: set<nat>, fuel: nat): set<nat>
    decreases fuel
  {
    if fuel == 0 || RelaxStep(prog, r) == r then r
    else RelaxSteps(prog, RelaxStep(prog, r), fuel - 1)
  }

  /** No label is defined by two statements. */
  ghost predicate DistinctLabels(prog: seq<Stmt>) {
    forall i, j, l | 0 <= i < j < |prog| && l in prog[i].labels :: l !in prog[j].labels
  }

  ghost predicate OnlyBranches(prog: seq<Stmt>, r: set<nat>) {
    forall i | i in r :: i < |prog| && prog[i].op.Branch?
  }

  lemma {:induction false} AddrMonotone(prog: seq<Stmt>, r: set<nat>, r': set<nat>, i: nat)
    requires r <= r' && i <= |prog|
    ensures Addr(prog, r, i) <= Addr(prog, r', i)
  {
    if i > 0 { AddrMonotone(prog, r, r', i - 1); }
  }

  // ---- what `assign_addresses` accepts --------------------------------------------

  lemma {:induction false} NoDuplicate(labels: seq<string>, seen: set<string>)
    requires FirstDuplicate(labels, seen).None?
    ensures forall l | l in labels :: l !in seen
    decreases |labels|
  {
    if labels != [] {
      NoDuplicate(labels[1..], seen + {labels[0]});
      assert forall l | l in labels :: l == labels[0] || l in labels[1..];
    }
  }

  lemma SeenLabels(labels: seq<string>)
    ensures forall l :: l in LabelSet(labels) <==> l in labels
  {
  }

  /** A program that gets addresses has distinct labels and consecutive addresses. */
  lemma {:induction false} AssignOk(prog: seq<Stmt>, n: nat)
    requires n <= |prog| && Assign(prog, n).Ok?
    ensures var lay := Assign(prog, n).value;
            |lay.placed| == n && lay.addr == Addr(prog, {}, n)
            && (forall i | 0 <= i < n :: lay.placed[i] == Placed(prog[i], Addr(prog, {}, i)))
            && (forall i, l | 0 <= i < n && l in prog[i].labels :: l in lay.seen)
            && (forall i, j, l | 0 <= i < j < n && l in prog[i].labels :: l !in prog[j].labels)
  {
    hide FirstDuplicate, StmtSize, LabelSet;
    if n > 0 {
      AssignOk(prog, n - 1);
      NoDuplicate(prog[n - 1].labels, Assign(prog, n - 1).value.seen);
      SeenLabels(prog[n - 1].labels);
      assert Size(prog, {}, n - 1) == StmtSize(prog[n - 1].op);
    }
  }

  lemma AssignDistinct(prog: seq<Stmt>)
    requires Assign(prog, |prog|).Ok?
    ensures DistinctLabels(prog)
    ensures var placed := Assign(prog, |prog|).value.placed;
            |placed| == |prog| && forall i | 0 <= i < |prog| :: placed[i] == Placed(prog[i], Addr(prog, {}, i))
  {
    hide Assign;
    AssignOk(prog, |prog|);
  }

  // ---- from addresses to records --------------------------------------------------

  /** Addresses follow each other without gaps. */
  ghost predicate NoGaps(ps: seq<Placed>) { forall i | 0 <= i < |ps| :: ps[i].addr == Cursor(ps, i) }

  lemma {:induction false} MinAddrZero(prog: seq<Stmt>, ps: seq<Placed>, m: nat)
    requires 0 < m <= |ps| && |ps| == |prog| && forall i | 0 <= i < |ps| :: ps[i].addr == Addr(prog, {}, i)
    ensures MinAddr(ps[..m]) == 0
  {
    hide Size;
    if m > 1 {
      assert ps[..m][..m - 1] == ps[..m - 1];
      MinAddrZero(prog, ps, m - 1);
    }
  }

  lemma NormalizeIs(prog: seq<Stmt>, ps: seq<Placed>)
    requires |ps| == |prog| && forall i | 0 <= i < |ps| :: ps[i].addr == Addr(prog, {}, i)
    ensures Normalize(ps) == ps
  {
    if ps != [] {
      MinAddrZero(prog, ps, |ps|);
      assert ps[..|ps|] == ps;
    }
  }

  lemma NoGapsHere(prog: seq<Stmt>, ps: seq<Placed>)
    requires |ps| == |prog| && forall i | 0 <= i < |ps| :: ps[i] == Placed(prog[i], Addr(prog, {}, i))
    ensures NoGaps(ps)
  {
    forall i | 0 <= i < |ps| ensures ps[i].addr == Cursor(ps, i) {
      if i > 0 { assert Addr(prog, {}, i) == Addr(prog, {}, i - 1) + Size(prog, {}, i - 1); }
    }
  }

  lemma {:induction false} BuildRecordable(prog: seq<Stmt>, ps: seq<Placed>, n: nat)
    requires n <= |ps| && BuildRecords(prog, ps, n).Ok?
    ensures forall i | 0 <= i < n :: StmtRecords(ps[i].stmt.op).Ok?
  {
    hide StmtRecords, SymRecords, LocRecords;
    if n > 0 { BuildRecordable(prog, ps, n - 1); }
  }
}
