/** A program for every number of relaxation steps: each branch just reaches over the next one, so
    they are relaxed one by one from the last to the first.  It shows that the bound on the linker's
    rounds is tight, and that the flat assembler accepts programs the linker's budget refuses. */
module Cascade {
  import opened Isa
  import opened ObjFile
  import opened Linker
  import opened Relaxation
  import opened Assembler
  import opened LinkMerge
  import opened LinkRelax
  import opened LinkRounds
  import opened FlatLink
  import opened FlatAgreement
  import opened LinkSucceeds
  import opened FlatSucceeds
  import opened FlatDiffers
  import F = FlatRelax
  import P = Programs

  function Name(k: nat): (s: string)
    ensures |s| == k + 1
  {
    seq(k + 1, _ => 't')
  }

  function CascadeStmt(n: nat, i: nat): Stmt {
    if i == 3 * n then Code(Fixed(Nops(40)))
    else if i > 3 * n then At(Name(n), Empty)
    else if i % 3 == 0 then Code(Branch(BT, Name(i / 3 + 1)))
    else if i % 3 == 1 then Code(Fixed(Nops(21)))
    else At(Name(i / 3), Fixed(Nops(18)))
  }

  /** `n` branches 40 words apart, each 62 words from its target behind the next branch, and the last
      one 80 words from the end. */
  function Cascade(n: nat): (prog: seq<Stmt>)
    ensures |prog| == 3 * n + 2
  {
    seq(3 * n + 2, i requires 0 <= i => CascadeStmt(n, i))
  }

  /** The last `t` of the branches. */
  function Late(n: nat, t: nat): set<nat> {
    set i: nat | i < 3 * n && i % 3 == 0 && i / 3 + t >= n
  }

  // ---- labels ---------------------------------------------------------------------

  /** The number of the label that statement `i` carries, if any. */
  function LabelNo(n: nat, i: nat): nat { if i > 3 * n then n else i / 3 }

  lemma CascadeLabels(n: nat, i: nat)
    requires i < 3 * n + 2
    ensures Cascade(n)[i].labels == [] || Cascade(n)[i].labels == [Name(LabelNo(n, i))]
    ensures Cascade(n)[i].labels != [] ==> i == 3 * n + 1 || (i < 3 * n && i % 3 == 2)
  {
  }

  lemma NamesDiffer(j: nat, k: nat)
    ensures j != k ==> Name(j) != Name(k)
  {
    assert |Name(j)| == j + 1 && |Name(k)| == k + 1;
  }

  lemma CascadeDistinct(n: nat)
    ensures P.DistinctLabels(Cascade(n))
  {
    hide Cascade, Name;
    var prog := Cascade(n);
    forall i, j, l | 0 <= i < j < |prog| && l in prog[i].labels
      ensures l !in prog[j].labels
    {
      CascadeLabels(n, i);
      CascadeLabels(n, j);
      NamesDiffer(LabelNo(n, i), LabelNo(n, j));
    }
  }

  lemma CascadeAssigns(n: nat)
    ensures Assign(Cascade(n), |Cascade(n)|).Ok? && Recordable(Cascade(n)) && RefsKnown(Cascade(n))
  {
    CascadeDistinct(n);
    hide P.DistinctLabels, Assign;
    forall i | 0 <= i < 3 * n + 2 ensures |Cascade(n)[i].labels| <= 1 { CascadeLabels(n, i); }
    AssignsDistinct(Cascade(n), |Cascade(n)|);
    forall i | 0 <= i < 3 * n + 2 ensures StmtRecords(Cascade(n)[i].op).Ok? && OpKnown(Cascade(n), Cascade(n)[i].op) {
      CascadeKnown(n, i);
    }
  }

  /** Where label `k` stands. */
  function LabelAt(n: nat, k: nat): nat { if k >= n then 3 * n + 1 else 3 * k + 2 }

  lemma LabelStands(n: nat, k: nat)
    requires k <= n
    ensures LabelAt(n, k) < |Cascade(n)| && Name(k) in Cascade(n)[LabelAt(n, k)].labels
  {
    hide Name, Nops;
    assert k < n ==> (3 * k + 2) % 3 == 2 && (3 * k + 2) / 3 == k;
  }

  lemma CascadeKnown(n: nat, i: nat)
    requires i < 3 * n + 2
    ensures StmtRecords(Cascade(n)[i].op).Ok? && OpKnown(Cascade(n), Cascade(n)[i].op)
  {
    hide Name, Nops;
    if i < 3 * n && i % 3 == 0 {
      var k := i / 3 + 1;
      LabelStands(n, k);
      assert P.DefIdx(Cascade(n), Name(k), |Cascade(n)|).Some?;
    }
  }

  // ---- addresses ------------------------------------------------------------------

  /** Late branches before block `j` when the last `t` are relaxed. */
  function Extra(n: nat, t: nat, j: nat): nat { if j + t > n then j + t - n else 0 }

  lemma SizeAt(n: nat, t: nat, j: nat)
    requires j < n
    ensures P.Size(Cascade(n), Late(n, t), 3 * j) == if j + t >= n then 4 else 1
    ensures P.Size(Cascade(n), Late(n, t), 3 * j + 1) == 21
    ensures P.Size(Cascade(n), Late(n, t), 3 * j + 2) == 18
  {
    hide Name;
    assert (3 * j) % 3 == 0 && (3 * j) / 3 == j;
    assert (3 * j + 1) % 3 == 1 && (3 * j + 2) % 3 == 2;
  }

  /** Where block `j` starts, and where its label stands. */
  lemma {:induction false} BlockAddr(n: nat, t: nat, j: nat)
    requires j <= n && t <= n
    ensures P.Addr(Cascade(n), Late(n, t), 3 * j) == 40 * j + 3 * Extra(n, t, j)
    ensures j < n ==> P.Addr(Cascade(n), Late(n, t), 3 * j + 2) == 40 * j + 22 + 3 * Extra(n, t, j + 1)
  {
    hide Cascade, Late, P.Size;
    var prog, r := Cascade(n), Late(n, t);
    if j > 0 {
      BlockAddr(n, t, j - 1);
      SizeAt(n, t, j - 1);
      assert P.Addr(prog, r, 3 * (j - 1) + 3) == P.Addr(prog, r, 3 * (j - 1) + 2) + 18;
    }
    if j < n {
      SizeAt(n, t, j);
      assert P.Addr(prog, r, 3 * j + 1) == P.Addr(prog, r, 3 * j) + P.Size(prog, r, 3 * j);
      assert P.Addr(prog, r, 3 * j + 2) == P.Addr(prog, r, 3 * j + 1) + 21;
    }
  }

  lemma EndAddr(n: nat, t: nat)
    requires t <= n
    ensures P.Addr(Cascade(n), Late(n, t), 3 * n + 1) == 40 * n + 3 * t + 40
    ensures P.Addr(Cascade(n), Late(n, t), 3 * n + 2) == 40 * n + 3 * t + 40
  {
    BlockAddr(n, t, n);
    var prog, r := Cascade(n), Late(n, t);
    assert P.Size(prog, r, 3 * n) == 40 && P.Size(prog, r, 3 * n + 1) == 0;
    hide Cascade, Late, P.Size;
    assert P.Addr(prog, r, 3 * n + 1) == P.Addr(prog, r, 3 * n) + 40;
  }

  lemma LabelIs(n: nat, t: nat, k: nat)
    requires 0 < k <= n && t <= n
    ensures P.LabelAddr(Cascade(n), Late(n, t), Name(k))
         == Some(if k == n then 40 * n + 3 * t + 40 else 40 * k + 22 + 3 * Extra(n, t, k + 1))
  {
    hide Cascade, Late, Name, P.LabelAddr;
    CascadeDistinct(n);
    LabelStands(n, k);
    LabelAddrIs(Cascade(n), Late(n, t), Name(k), LabelAt(n, k));
    EndAddr(n, t);
    BlockAddr(n, t, k);
  }

  // ---- one branch per step --------------------------------------------------------

  /** With the last `t` branches relaxed, the one before them is out of reach and no other. */
  lemma OneTooFar(n: nat, t: nat, i: nat)
    requires t <= n
    ensures P.TooFar(Cascade(n), Late(n, t), i) <==> t < n && i == 3 * (n - 1 - t)
  {
    hide Name, Nops, P.Addr, P.LabelAddr;
    if i < 3 * n && i % 3 == 0 && i !in Late(n, t) {
      var j := i / 3;
      LabelIs(n, t, j + 1);
      BlockAddr(n, t, j);
    }
  }

  lemma CascadeStep(n: nat, t: nat)
    requires t <= n
    ensures P.RelaxStep(Cascade(n), Late(n, t)) == if t < n then Late(n, t + 1) else Late(n, t)
  {
    hide Cascade, P.TooFar;
    forall i: nat ensures P.TooFar(Cascade(n), Late(n, t), i) <==> t < n && i == 3 * (n - 1 - t) { OneTooFar(n, t, i); }
    forall i: nat
      ensures i in P.RelaxStep(Cascade(n), Late(n, t)) <==> i in if t < n then Late(n, t + 1) else Late(n, t)
    {
      if t < n && i == 3 * (n - 1 - t) { assert i % 3 == 0 && i / 3 == n - 1 - t; }
    }
  }

  lemma LateGrows(n: nat, t: nat)
    requires t < n
    ensures Late(n, t + 1) != Late(n, t)
  {
    var i := 3 * (n - 1 - t);
    assert i % 3 == 0 && i / 3 == n - 1 - t;
    assert i in Late(n, t + 1) && i !in Late(n, t);
  }

  lemma {:induction false} CascadeFrom(n: nat, t: nat, f: nat)
    requires t <= n
    ensures P.RelaxSteps(Cascade(n), Late(n, t), f) == Late(n, if t + f < n then t + f else n)
    decreases f
  {
    hide Cascade, Late, P.RelaxStep;
    CascadeStep(n, t);
    if f > 0 && t < n {
      LateGrows(n, t);
      CascadeFrom(n, t + 1, f - 1);
    }
  }

  /** Relaxation takes exactly `n` steps. */
  lemma CascadeSettles(n: nat, f: nat)
    ensures P.RelaxSteps(Cascade(n), {}, f) == Late(n, if f < n then f else n)
    ensures Settles(Cascade(n), f) <==> f >= n
  {
    assert Late(n, 0) == {};
    hide Cascade, Late, P.RelaxStep, P.RelaxSteps;
    CascadeFrom(n, 0, f);
    var t := if f < n then f else n;
    CascadeStep(n, t);
    if t < n { LateGrows(n, t); }
  }

  // ---- what becomes of it ---------------------------------------------------------

  /** Up to 19 branches it links; from 20 on the budget of a one-object link is exhausted. */
  lemma CascadeLinks(n: nat, fp: string)
    ensures AssembleObject(Cascade(n), []).Ok?
    ensures var out := LinkObjectFiles(TEXT_BASES, [(fp, AssembleObject(Cascade(n), []).value)]);
            if n <= 19 then out.Ok? else out == Err(BudgetExhausted)
  {
    hide *;
    var prog := Cascade(n);
    CascadeAssigns(n);
    Assembles(prog, []);
    LinksIff(prog, [], fp);
    CascadeSettles(n, 19);
    CascadeFits(n);
    LinkableIs(prog);
  }

  lemma LinkableIs(prog: seq<Stmt>)
    ensures Linkable(prog) <==> RefsKnown(prog) && Settles(prog, 19) && P.Addr(prog, P.RelaxSteps(prog, {}, 19), |prog|) <= 4096
  {
    hide RefsKnown, Settles, P.Addr, P.RelaxSteps;
  }

  lemma CascadeFits(n: nat)
    ensures |Cascade(n)| == 3 * n + 2
    ensures n <= 19 ==> P.Addr(Cascade(n), P.RelaxSteps(Cascade(n), {}, 19), |Cascade(n)|) <= 4096
  {
    hide Cascade, P.Addr, P.RelaxSteps, Late;
    CascadeSettles(n, 19);
    if n <= 19 { EndAddr(n, n); }
  }

  lemma NotMadeUp(j: nat, k: nat)
    ensures Name(j) != SkipName(k)
  {
    assert Name(j)[0] == 't' && SkipName(k)[0] == '_';
  }

  lemma CascadeSkipFree(n: nat)
    ensures SkipFree(Cascade(n))
  {
    hide Name, SkipName, Nops, P.RelaxSteps;
    var prog, m := Cascade(n), |RelaxedStmts(Cascade(n))|;
    forall i, k: nat | 0 <= i < |prog| && k < m
      ensures SkipName(k) !in prog[i].labels && !RefersTo(prog[i].op, SkipName(k))
    {
      CascadeLabels(n, i);
      NotMadeUp(LabelNo(n, i), k);
      NotMadeUp(i / 3 + 1, k);
    }
  }

  lemma CascadeAccepted(n: nat)
    requires n <= 20
    ensures AllAccepted(Cascade(n), RelaxedStmts(Cascade(n)))
    ensures P.Addr(Cascade(n), RelaxedStmts(Cascade(n)), |Cascade(n)|) > 0
  {
    hide Cascade, Late, P.Addr, Lab, P.RelaxSteps;
    var prog, r := Cascade(n), RelaxedStmts(Cascade(n));
    CascadeSettles(n, 20);
    EndAddr(n, n);
    forall i | 0 <= i < |prog|
      ensures Accepted(prog, r, i)
    {
      NoLoads(n, i);
      if prog[i].op.Branch? { LabelInside(prog, r, prog[i].op.name); }
    }
  }

  lemma NoLoads(n: nat, i: nat)
    requires i < 3 * n + 2
    ensures !Cascade(n)[i].op.LoadLabel?
  {
    hide Name, Nops;
  }

  /** Up to 20 branches it assembles flat; 21 are too many for that too. */
  lemma CascadeFlat(n: nat)
    ensures FlatAssemble(Cascade(n)).Ok? <==> n <= 20
  {
    hide *;
    var prog := Cascade(n);
    CascadeAssigns(n);
    CascadeSkipFree(n);
    CascadeSettles(n, 20);
    if n <= 20 { CascadeAccepted(n); }
    CascadeFits(n);
    FlatIff(prog);
    FlatAssemblesIs(prog);
  }

  lemma FlatAssemblesIs(prog: seq<Stmt>)
    ensures var r := RelaxedStmts(prog);
            FlatAssembles(prog)
            <==> Recordable(prog) && RefsKnown(prog) && Settles(prog, 20) && P.Addr(prog, r, |prog|) > 0 && AllAccepted(prog, r)
  {
    hide Recordable, RefsKnown, Settles, P.Addr, RelaxedStmts, AllAccepted;
  }

  /** Twenty branches, 900 words: the flat assembler takes it and the linker refuses it. */
  lemma TwentyBranches(fp: string)
    ensures FlatAssemble(Cascade(20)).Ok? && AssembleObject(Cascade(20), []).Ok?
    ensures LinkObjectFiles(TEXT_BASES, [(fp, AssembleObject(Cascade(20), []).value)]) == Err(BudgetExhausted)
  {
    hide *;
    CascadeFlat(20);
    CascadeLinks(20, fp);
  }

  // ---- the bound on the rounds is tight -------------------------------------------

  /** The branch items of the section are those of the statements. */
  lemma OpenAreBranches(n: nat, ps: seq<Placed>, fp: string)
    requires Places(Cascade(n), ps)
    ensures OpenSet({}, ItemsOf(Cascade(n), ps, fp, |Cascade(n)|)) <= IdxSet(Cascade(n), ps, fp, Late(n, n))
  {
    hide ItemsOf, Idx, Name, Nops;
    var prog := Cascade(n);
    forall p | p in OpenSet({}, ItemsOf(prog, ps, fp, |prog|))
      ensures p in IdxSet(prog, ps, fp, Late(n, n))
    {
      var i := BranchOwner(prog, ps, fp, p);
      assert i in Late(n, n);
    }
  }

  lemma {:induction false} IdxSetSize(prog: seq<Stmt>, ps: seq<Placed>, fp: string, r: set<nat>)
    ensures |IdxSet(prog, ps, fp, r)| <= |r|
  {
    hide Idx;
    if r != {} {
      var i :| i in r;
      IdxSetSize(prog, ps, fp, r - {i});
      if i < |ps| {
        assert IdxSet(prog, ps, fp, r) == IdxSet(prog, ps, fp, r - {i}) + {Idx(prog, ps, fp, i)};
      } else {
        assert IdxSet(prog, ps, fp, r) == IdxSet(prog, ps, fp, r - {i});
      }
    } else {
      assert IdxSet(prog, ps, fp, r) == {};
    }
  }

  lemma {:induction false} LateSize(n: nat, t: nat)
    requires t <= n
    ensures |Late(n, t)| == t
  {
    if t > 0 {
      LateSize(n, t - 1);
      var i := 3 * (n - t);
      assert i % 3 == 0 && i / 3 == n - t;
      assert Late(n, t) == Late(n, t - 1) + {i};
    } else {
      assert Late(n, 0) == {};
    }
  }

  lemma OneCount(m: Merged)
    ensures OpenCount([m], map[]) == |OpenSet({}, m.items)|
  {
    hide OpenSet;
    assert [m][..0] == [];
    assert OpenCount([], map[]) == 0;
  }

  /** For every number of branches there is a section on which that many rounds are not enough, and one
      more is: the bound of `BudgetSuffices` cannot be lowered. */
  lemma BudgetTight(n: nat) returns (m: Merged)
    ensures OpenCount([m], map[]) == n && m.name == "text"
    ensures RelaxLoop([m], TEXT_BASES, map[], n) == Err(BudgetExhausted)
    ensures RelaxLoop([m], TEXT_BASES, map[], n + 1).Ok?
  {
    hide *;
    var prog := Cascade(n);
    CascadeAssigns(n);
    CascadeFits(n);
    Assembles(prog, []);
    var ps := ObjectSetting(prog, [], "f");
    SettingParts(prog, ps, {});
    SettingFacts(prog, ps, {});
    m := Section1(prog, ps, "f");
    CascadeLoop(n, ps, n + 1);
    OpenAreBranches(n, ps, "f");
    IdxSetSize(prog, ps, "f", Late(n, n));
    LateSize(n, n);
    SubsetSize(OpenSet({}, ItemsOf(prog, ps, "f", |prog|)), IdxSet(prog, ps, "f", Late(n, n)));
    OneCount(m);
    SectionIs(prog, ps, "f");
    if n > 0 { CascadeLoop(n, ps, n); } else { NoRounds(m); }
    if OpenCount([m], map[]) < n { BudgetHere(m, n); }
  }

  /** For every number of pieces there are pieces with four branches each and sixteen more whose link exhausts
      the budget: the bound of `UnreachableErrors` is exact. */
  lemma BudgetPerPiece(p: nat) returns (pieces: seq<Piece>)
    requires p > 0
    ensures |pieces| == p && OpenCount(MergePieces(pieces), map[]) == 4 * p + 16
    ensures LinkPieces(TEXT_BASES, pieces) == Err(BudgetExhausted)
  {
    hide MergePieces, AssignBases, RelaxLoop, OpenCount, SectionOrder, Padded, Finish;
    var m := BudgetTight(4 * p + 16);
    pieces := Padded(m.items, p - 1);
    PaddedMerged(m.items, p - 1);
  }

  lemma PaddedMerged(items: seq<Item>, k: nat)
    ensures MergePieces(Padded(items, k)) == [Merged("text", items)] && |Padded(items, k)| == k + 1
    ensures AssignBases(TEXT_BASES, SectionOrder(Padded(items, k))) == TEXT_BASES
  {
    hide SectionOrder, ConcatItems, Padded, AssignBases;
    PaddedIs(items, k);
    OneBase();
  }

  lemma SectionIs(prog: seq<Stmt>, ps: seq<Placed>, fp: string)
    requires |ps| == |prog|
    ensures Section1(prog, ps, fp) == Merged("text", ItemsOf(prog, ps, fp, |prog|))
  {
    hide ItemsOf;
  }

  lemma NoRounds(m: Merged)
    ensures RelaxLoop([m], TEXT_BASES, map[], 0) == Err(BudgetExhausted)
  {
  }

  lemma BudgetHere(m: Merged, n: nat)
    requires OpenCount([m], map[]) < n
    ensures RelaxLoop([m], TEXT_BASES, map[], n) != Err(BudgetExhausted)
  {
    hide OpenCount, RelaxLoop;
    BudgetSuffices([m], TEXT_BASES, map[], n);
  }

  lemma CascadeLoop(n: nat, ps: seq<Placed>, budget: nat)
    requires Setting(Cascade(n), ps, {}) && budget > 0
    ensures |ps| == |Cascade(n)|
    ensures var out := RelaxLoop([Section1(Cascade(n), ps, "f")], TEXT_BASES, map[], budget);
            if budget > n then out.Ok? else out == Err(BudgetExhausted)
  {
    hide *;
    var prog := Cascade(n);
    SettingFacts(prog, ps, {});
    CascadeAssigns(n);
    NoIdx(prog, ps, "f");
    LoopOk(prog, ps, "f", {}, map[], budget);
    CascadeSettles(n, budget - 1);
    SettlesIs(prog, budget - 1);
  }

  lemma SettlesIs(prog: seq<Stmt>, f: nat)
    ensures Settles(prog, f) <==> P.RelaxStep(prog, P.RelaxSteps(prog, {}, f)) == P.RelaxSteps(prog, {}, f)
  {
  }
}
