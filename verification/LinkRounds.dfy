/** Symbols and rounds of the linker on the object of one assembled program. */
module LinkRounds {
  import opened Isa
  import opened ObjFile
  import opened Linker
  import opened Symbols
  import opened Relaxation
  import opened Emission
  import opened Assembler
  import opened LinkRelax
  import P = Programs

  /** The setting shared by the lemmas below. */
  ghost predicate Setting(prog: seq<Stmt>, ps: seq<Placed>, r: set<nat>) {
    Places(prog, ps) && Recordable(prog) && P.OnlyBranches(prog, r) && P.DistinctLabels(prog)
  }

  // ---- which item is which --------------------------------------------------------

  /** Every item belongs to one statement: to its head or to its operation. */
  lemma {:induction false} ItemOwner(prog: seq<Stmt>, ps: seq<Placed>, fp: string, m: nat, p: nat) returns (i: nat)
    requires m <= |ps| && p < |ItemsOf(prog, ps, fp, m)|
    ensures i < m && |ItemsOf(prog, ps, fp, i)| <= p < |ItemsOf(prog, ps, fp, i + 1)|
    ensures p - |ItemsOf(prog, ps, fp, i)| < |StmtItems(prog, ps, fp, i)|
    ensures ItemsOf(prog, ps, fp, m)[p] == StmtItems(prog, ps, fp, i)[p - |ItemsOf(prog, ps, fp, i)|]
    decreases m
  {
    hide StmtItems;
    if p < |ItemsOf(prog, ps, fp, m - 1)| {
      i := ItemOwner(prog, ps, fp, m - 1, p);
    } else {
      i := m - 1;
    }
  }

  lemma {:induction false} ItemIn(prog: seq<Stmt>, ps: seq<Placed>, fp: string, m: nat, i: nat, k: nat)
    requires i < m <= |ps| && k < |StmtItems(prog, ps, fp, i)|
    ensures |ItemsOf(prog, ps, fp, i)| + k < |ItemsOf(prog, ps, fp, m)|
    ensures ItemsOf(prog, ps, fp, m)[|ItemsOf(prog, ps, fp, i)| + k] == StmtItems(prog, ps, fp, i)[k]
    decreases m
  {
    hide StmtItems;
    if i < m - 1 { ItemIn(prog, ps, fp, m - 1, i, k); }
  }

  lemma OpHasNoSyms(fp: string, op: Op)
    ensures forall k | 0 <= k < |OpItems(fp, op)| :: !OpItems(fp, op)[k].ItemSym? && !OpItems(fp, op)[k].ItemLoc?
    ensures forall k | 0 <= k < |OpItems(fp, op)| ::
              OpItems(fp, op)[k].ItemBrel? ==> op.Branch? && k == 0 && OpItems(fp, op)[0] == ItemBrel(fp, op.kind, op.name, 0)
  {
    hide EncodeRi;
  }

  lemma HeadKinds(prog: seq<Stmt>, ps: seq<Placed>, fp: string, i: nat)
    requires i < |ps|
    ensures var h, ls := HeadItems(prog, ps, fp, i), ps[i].stmt.labels;
            |h| >= |ls|
            && (forall k | 0 <= k < |ls| :: h[k] == ItemSym(fp, ls[k], LinkageOf(prog, ls[k]), None))
            && (forall k | |ls| <= k < |h| :: h[k].ItemLoc?)
  {
    hide LinkageOf, CurLoc;
  }

  lemma {:induction false} LinkageKinds(prog: seq<Stmt>, l: string)
    ensures LinkageOf(prog, l) == Local || LinkageOf(prog, l) == Global
  {
    if prog != [] { LinkageKinds(prog[..|prog| - 1], l); }
  }

  /** A branch item is the operation of a branch statement. */
  lemma BranchOwner(prog: seq<Stmt>, ps: seq<Placed>, fp: string, p: nat) returns (i: nat)
    requires |ps| == |prog| && p < |ItemsOf(prog, ps, fp, |prog|)| && ItemsOf(prog, ps, fp, |prog|)[p].ItemBrel?
    ensures i < |ps| && ps[i].stmt.op.Branch? && p == Idx(prog, ps, fp, i)
  {
    hide ItemsOf, HeadItems, OpItems;
    i := ItemOwner(prog, ps, fp, |prog|, p);
    StmtItemKinds(prog, ps, fp, i, p - |ItemsOf(prog, ps, fp, i)|);
  }

  /** The head of a statement is symbols and locations; a branch item is its operation. */
  lemma StmtItemKinds(prog: seq<Stmt>, ps: seq<Placed>, fp: string, i: nat, k: nat)
    requires i < |ps| && k < |StmtItems(prog, ps, fp, i)|
    ensures var it, ls, h := StmtItems(prog, ps, fp, i)[k], ps[i].stmt.labels, |HeadItems(prog, ps, fp, i)|;
            (it.ItemSym? ==> k < |ls| && it == ItemSym(fp, ls[k], LinkageOf(prog, ls[k]), None))
            && (it.ItemSym? ==> k <= h)
            && (it.ItemBrel? ==> ps[i].stmt.op.Branch? && k == h)
  {
    hide HeadItems, OpItems, LinkageOf;
    var h, o := HeadItems(prog, ps, fp, i), OpItems(fp, ps[i].stmt.op);
    HeadKinds(prog, ps, fp, i);
    OpHasNoSyms(fp, ps[i].stmt.op);
    if k >= |h| { assert (h + o)[k] == o[k - |h|]; } else { assert (h + o)[k] == h[k]; }
  }

  lemma BranchAtIdx(prog: seq<Stmt>, ps: seq<Placed>, fp: string, i: nat)
    requires |ps| == |prog| && i < |ps| && ps[i].stmt.op.Branch?
    ensures var items, p := ItemsOf(prog, ps, fp, |prog|), Idx(prog, ps, fp, i);
            p < |items| && items[p] == ItemBrel(fp, ps[i].stmt.op.kind, ps[i].stmt.op.name, 0)
  {
    hide ItemsOf, HeadItems;
    ItemIn(prog, ps, fp, |prog|, i, |HeadItems(prog, ps, fp, i)|);
  }

  // ---- definitions ----------------------------------------------------------------

  /** `d` is the definition of a label of the program at its abstract address. */
  ghost predicate LabelDef(prog: seq<Stmt>, r: set<nat>, fp: string, d: Def) {
    d.src == fp && (d.linkage == Local || d.linkage == Global)
    && P.LabelAddr(prog, r, d.name) == Some(d.addr)
  }

  lemma LabelAddrIs(prog: seq<Stmt>, r: set<nat>, l: string, i: nat)
    requires P.DistinctLabels(prog) && i < |prog| && l in prog[i].labels
    ensures P.LabelAddr(prog, r, l) == Some(P.Addr(prog, r, i))
  {
    hide P.Addr;
    var d := P.DefIdx(prog, l, |prog|).value;
    assert l in prog[d].labels;
  }

  /** A symbol item defines its label at the statement's address. */
  lemma SymAt(prog: seq<Stmt>, ps: seq<Placed>, fp: string, r: set<nat>, p: nat)
    requires Setting(prog, ps, r) && p < |ItemsOf(prog, ps, fp, |prog|)|
    requires ItemsOf(prog, ps, fp, |prog|)[p].ItemSym?
    ensures LabelDef(prog, r, fp, DefAt(0, IdxSet(prog, ps, fp, r), ItemsOf(prog, ps, fp, |prog|), p))
    ensures ItemsOf(prog, ps, fp, |prog|)[p].linkage != Extern
  {
    hide ItemsOf, HeadItems, OpItems, IdxSet, P.Addr, P.LabelAddr, OffsetAt, Recordable, P.OnlyBranches, P.DistinctLabels, LinkageOf;
    var i := ItemOwner(prog, ps, fp, |prog|, p);
    var k := p - |ItemsOf(prog, ps, fp, i)|;
    StmtItemKinds(prog, ps, fp, i, k);
    HeadOffset(prog, ps, fp, r, i, k);
    LinkageKinds(prog, ps[i].stmt.labels[k]);
    LabelAddrIs(prog, r, ps[i].stmt.labels[k], i);
  }

  /** Every label has its symbol item. */
  lemma LabelHasSym(prog: seq<Stmt>, ps: seq<Placed>, fp: string, i: nat, l: string) returns (p: nat)
    requires Places(prog, ps) && i < |prog| && l in prog[i].labels
    ensures p < |ItemsOf(prog, ps, fp, |prog|)|
    ensures var it := ItemsOf(prog, ps, fp, |prog|)[p]; it.ItemSym? && it.name == l && it.linkage != Extern
  {
    hide ItemsOf, HeadItems, LinkageOf;
    var k :| 0 <= k < |prog[i].labels| && prog[i].labels[k] == l;
    HeadKinds(prog, ps, fp, i);
    LinkageKinds(prog, l);
    p := |ItemsOf(prog, ps, fp, i)| + k;
    ItemIn(prog, ps, fp, |prog|, i, k);
  }

  lemma {:induction false} PositionListed(items: seq<Item>, n: nat, p: nat)
    requires p < n <= |items| && items[p].ItemSym? && items[p].linkage != Extern
    ensures p in DefPositions(items, n)
    decreases n
  {
    if p < n - 1 { PositionListed(items, n - 1, p); }
  }

  lemma {:induction false} PositionsAreSyms(items: seq<Item>, n: nat, p: nat)
    requires n <= |items| && p in DefPositions(items, n)
    ensures p < n && items[p].ItemSym? && items[p].linkage != Extern
    decreases n
  {
    if n > 0 && p in DefPositions(items, n - 1) { PositionsAreSyms(items, n - 1, p); }
  }

  /** The definition list of the section: label definitions only, and one for each label. */
  lemma DefsAre(prog: seq<Stmt>, ps: seq<Placed>, fp: string, r: set<nat>)
    requires Setting(prog, ps, r)
    ensures var ds := ProgDefs(prog, ps, fp, r);
            (forall k | 0 <= k < |ds| :: LabelDef(prog, r, fp, ds[k]))
            && (forall i, l | 0 <= i < |prog| && l in prog[i].labels :: exists k | 0 <= k < |ds| :: ds[k].name == l)
  {
    hide ItemsOf, IdxSet, SectionDefs, DefPositions, LabelDef, Recordable, P.OnlyBranches, P.DistinctLabels, OffsetAt;
    var items, rel := ItemsOf(prog, ps, fp, |prog|), IdxSet(prog, ps, fp, r);
    var ds, pos := ProgDefs(prog, ps, fp, r), DefPositions(items, |items|);
    DefsStand(0, rel, items, |items|);
    forall k | 0 <= k < |ds| ensures LabelDef(prog, r, fp, ds[k]) {
      SymAt(prog, ps, fp, r, pos[k]);
    }
    forall i, l | 0 <= i < |prog| && l in prog[i].labels
      ensures exists k | 0 <= k < |ds| :: ds[k].name == l
    {
      var p := LabelHasSym(prog, ps, fp, i, l);
      PositionListed(items, |items|, p);
      var k :| 0 <= k < |pos| && pos[k] == p;
      assert ds[k].name == l;
    }
  }

  function ProgDefs(prog: seq<Stmt>, ps: seq<Placed>, fp: string, r: set<nat>): seq<Def>
    requires |ps| == |prog|
  {
    var items := ItemsOf(prog, ps, fp, |prog|);
    SectionDefs(0, IdxSet(prog, ps, fp, r), items, |items|)
  }

  // ---- the environment ------------------------------------------------------------

  lemma {:induction false} FoundNamed(ds: seq<Def>, src: string, name: string, n: nat)
    requires n <= |ds|
    ensures var f := FindLocal(ds, src, name, n); f.Some? ==> f.value < n && ds[f.value].name == name
    ensures var f := FindGlobal(ds, name, n); f.Some? ==> f.value < n && ds[f.value].name == name
    ensures var f := FindAny(ds, name, n); f.Some? ==> f.value < n && ds[f.value].name == name
    ensures FindGlobal(ds, name, n).None? && FindAny(ds, name, n).None?
            ==> forall i | 0 <= i < n && ds[i].name == name :: ds[i].linkage == Extern
  {
    if n > 0 { FoundNamed(ds, src, name, n - 1); }
  }

  /** Resolution against label definitions: the abstract label address, or an error. */
  lemma ResolveIs(prog: seq<Stmt>, ps: seq<Placed>, fp: string, r: set<nat>, l: string)
    requires Setting(prog, ps, r)
    ensures var env := BuildEnv(ProgDefs(prog, ps, fp, r));
            env.Ok? && Resolve(fp, l, env.value)
                       == match P.LabelAddr(prog, r, l)
                          case Some(a) => Ok(a)
                          case None => Err(Undefined(l))
  {
    var ds := ProgDefs(prog, ps, fp, r);
    DefsAre(prog, ps, fp, r);
    hide ProgDefs, Setting, Resolve, GlobalMap, UniqueMap, LocalMap, FindLocal, FindGlobal, FindAny, P.Addr;
    NoClashes(prog, fp, r, ds);
    BuildsIff(ds);
    hide BuildEnv;
    ResolveFinds(ds, fp, l);
    FoundNamed(ds, fp, l, |ds|);
    match FindDef(ds, fp, l)
    case Some(k) => assert LabelDef(prog, r, fp, ds[k]);
    case None =>
  }

  lemma NoClashes(prog: seq<Stmt>, fp: string, r: set<nat>, ds: seq<Def>)
    requires forall k | 0 <= k < |ds| :: LabelDef(prog, r, fp, ds[k])
    ensures forall i, j :: !Clash(ds, i, j)
  {
    hide P.LabelAddr;
  }

  // ---- rounds ---------------------------------------------------------------------

  /** The merged section of the program. */
  function Section1(prog: seq<Stmt>, ps: seq<Placed>, fp: string): Merged
    requires |ps| == |prog|
  {
    Merged("text", ItemsOf(prog, ps, fp, |prog|))
  }

  const TEXT_BASES: Bases := [("text", 0)]

  lemma Section1Defs(prog: seq<Stmt>, ps: seq<Placed>, fp: string, r: set<nat>, relaxed: Relaxed)
    requires |ps| == |prog| && RelOf(relaxed, "text") == IdxSet(prog, ps, fp, r)
    ensures Defs([Section1(prog, ps, fp)], TEXT_BASES, relaxed) == ProgDefs(prog, ps, fp, r)
    ensures SectionBase(TEXT_BASES, "text") == 0
  {
    hide SectionDefs, ItemsOf, IdxSet;
    assert [Section1(prog, ps, fp)][..0] == [];
    assert Defs([], TEXT_BASES, relaxed) == [];
  }

  /** The offset of a branch item is the abstract distance. */
  lemma BranchDistance(prog: seq<Stmt>, ps: seq<Placed>, fp: string, r: set<nat>, i: nat)
    requires Setting(prog, ps, r) && i < |prog| && prog[i].op.Branch?
    ensures var items, p := ItemsOf(prog, ps, fp, |prog|), Idx(prog, ps, fp, i);
            p < |items| && items[p].ItemBrel? && BuildEnv(ProgDefs(prog, ps, fp, r)).Ok? &&
            BrelOffset(BuildEnv(ProgDefs(prog, ps, fp, r)).value, 0, IdxSet(prog, ps, fp, r), items, p)
            == match P.LabelAddr(prog, r, prog[i].op.name)
               case Some(a) => Ok(a - P.Addr(prog, r, i))
               case None => Err(Undefined(prog[i].op.name))
  {
    hide ItemsOf, HeadItems, IdxSet, ProgDefs, BuildEnv, Resolve, OffsetAt, P.Addr, P.LabelAddr, Recordable, P.OnlyBranches, P.DistinctLabels;
    BranchAtIdx(prog, ps, fp, i);
    ResolveIs(prog, ps, fp, r, prog[i].op.name);
    HeadOffset(prog, ps, fp, r, i, |HeadItems(prog, ps, fp, i)|);
  }

  /** A linker round that succeeds is an abstract round. */
  lemma RoundIs(prog: seq<Stmt>, ps: seq<Placed>, fp: string, r: set<nat>, relaxed: Relaxed)
    requires Setting(prog, ps, r) && RelOf(relaxed, "text") == IdxSet(prog, ps, fp, r)
    requires Round([Section1(prog, ps, fp)], TEXT_BASES, relaxed).Ok?
    ensures RelOf(Round([Section1(prog, ps, fp)], TEXT_BASES, relaxed).value, "text")
            == IdxSet(prog, ps, fp, P.RelaxStep(prog, r))
  {
    var m := Section1(prog, ps, fp);
    var s := RelOf(Round([m], TEXT_BASES, relaxed).value, "text");
    RoundSpec([m], TEXT_BASES, relaxed);
    hide Round;
    Section1Defs(prog, ps, fp, r, relaxed);
    hide Defs, Setting, ProgDefs, ItemsOf, Idx, BrelOffset, Scan, OffsetAt, BuildEnv, P.RelaxStep;
    var env, rel := BuildEnv(ProgDefs(prog, ps, fp, r)).value, IdxSet(prog, ps, fp, r);
    assert ScanOf([m][0], TEXT_BASES, env, relaxed) == Ok(s);
    ScanSpec(env, 0, rel, m.items, |m.items|);
    forall p ensures p in s <==> p in IdxSet(prog, ps, fp, P.RelaxStep(prog, r)) {
      if p in s { RoundForward(prog, ps, fp, r, s, p); }
      if p in IdxSet(prog, ps, fp, P.RelaxStep(prog, r)) { RoundBackward(prog, ps, fp, r, s, p); }
    }
  }

  /** What `ScanSpec` says of the round, for the branch items. */
  ghost predicate Scanned(prog: seq<Stmt>, ps: seq<Placed>, fp: string, r: set<nat>, s: set<nat>)
    requires |ps| == |prog|
  {
    var items, rel := ItemsOf(prog, ps, fp, |prog|), IdxSet(prog, ps, fp, r);
    BuildEnv(ProgDefs(prog, ps, fp, r)).Ok? && rel <= s
    && (forall p | p in s :: p in rel || (p < |items| && OpenBranch(rel, items, p)))
    && (forall p: nat | p < |items| && OpenBranch(rel, items, p) ::
          var o := BrelOffset(BuildEnv(ProgDefs(prog, ps, fp, r)).value, 0, rel, items, p);
          o.Ok? && (p in s <==> !InRange(o.value)))
  }

  lemma StepMembers(prog: seq<Stmt>, r: set<nat>, i: nat)
    ensures i in P.RelaxStep(prog, r) <==> i in r || P.TooFar(prog, r, i)
    ensures P.TooFar(prog, r, i) ==> i < |prog| && prog[i].op.Branch? && i !in r
  {
    hide P.LabelAddr;
  }

  lemma SettingFacts(prog: seq<Stmt>, ps: seq<Placed>, r: set<nat>)
    requires Setting(prog, ps, r)
    ensures |ps| == |prog| && forall i | 0 <= i < |prog| :: ps[i].stmt == prog[i]
    ensures Places(prog, ps) && P.OnlyBranches(prog, r)
  {
    hide Recordable, P.DistinctLabels;
  }

  lemma RoundForward(prog: seq<Stmt>, ps: seq<Placed>, fp: string, r: set<nat>, s: set<nat>, p: nat)
    requires Setting(prog, ps, r) && Scanned(prog, ps, fp, r, s) && p in s
    ensures p in IdxSet(prog, ps, fp, P.RelaxStep(prog, r))
  {
    hide Setting, ItemsOf, Idx, BrelOffset, BuildEnv, ProgDefs, P.RelaxStep, P.Addr, P.LabelAddr;
    SettingFacts(prog, ps, r);
    var items, rel := ItemsOf(prog, ps, fp, |prog|), IdxSet(prog, ps, fp, r);
    if p in rel {
      var i :| i in r && i < |ps| && Idx(prog, ps, fp, i) == p;
      StepMembers(prog, r, i);
    } else {
      var i := BranchOwner(prog, ps, fp, p);
      BranchDistance(prog, ps, fp, r, i);
      IdxInSet(prog, ps, fp, r, i);
      StepMembers(prog, r, i);
    }
  }

  lemma RoundBackward(prog: seq<Stmt>, ps: seq<Placed>, fp: string, r: set<nat>, s: set<nat>, p: nat)
    requires Setting(prog, ps, r) && Scanned(prog, ps, fp, r, s)
    requires p in IdxSet(prog, ps, fp, P.RelaxStep(prog, r))
    ensures p in s
  {
    hide Setting, ItemsOf, Idx, BrelOffset, BuildEnv, ProgDefs, P.RelaxStep, P.Addr, P.LabelAddr;
    SettingFacts(prog, ps, r);
    var i :| i in P.RelaxStep(prog, r) && i < |ps| && Idx(prog, ps, fp, i) == p;
    StepMembers(prog, r, i);
    if i !in r {
      BranchDistance(prog, ps, fp, r, i);
      IdxInSet(prog, ps, fp, r, i);
    }
  }

  /** Equal index sets come from equal statement sets. */
  lemma IdxSetInjective(prog: seq<Stmt>, ps: seq<Placed>, fp: string, r: set<nat>, r': set<nat>)
    requires Places(prog, ps) && P.OnlyBranches(prog, r) && P.OnlyBranches(prog, r')
    requires IdxSet(prog, ps, fp, r) == IdxSet(prog, ps, fp, r')
    ensures r == r'
  {
    hide Idx;
    forall i ensures i in r <==> i in r' {
      if i in r || i in r' {
        IdxInSet(prog, ps, fp, r, i);
        IdxInSet(prog, ps, fp, r', i);
      }
    }
  }

  lemma StepOnlyBranches(prog: seq<Stmt>, r: set<nat>)
    requires P.OnlyBranches(prog, r)
    ensures P.OnlyBranches(prog, P.RelaxStep(prog, r))
  {
    hide P.LabelAddr;
  }

  lemma SettingStep(prog: seq<Stmt>, ps: seq<Placed>, r: set<nat>)
    requires Setting(prog, ps, r)
    ensures Setting(prog, ps, P.RelaxStep(prog, r))
  {
    StepOnlyBranches(prog, r);
    hide P.RelaxStep;
  }

  /** The whole loop: what the linker settles on is the abstract relaxation, settled. */
  lemma {:induction false} LoopIs(prog: seq<Stmt>, ps: seq<Placed>, fp: string, r: set<nat>, relaxed: Relaxed, budget: nat)
    requires Setting(prog, ps, r) && RelOf(relaxed, "text") == IdxSet(prog, ps, fp, r)
    requires RelaxLoop([Section1(prog, ps, fp)], TEXT_BASES, relaxed, budget).Ok?
    ensures var out := RelaxLoop([Section1(prog, ps, fp)], TEXT_BASES, relaxed, budget).value;
            var r' := P.RelaxSteps(prog, r, budget);
            RelOf(out, "text") == IdxSet(prog, ps, fp, r') && P.RelaxStep(prog, r') == r' && Setting(prog, ps, r')
    decreases budget
  {
    hide Setting, Round, IdxSet, P.RelaxStep, Section1;
    SettingFacts(prog, ps, r);
    var m := Section1(prog, ps, fp);
    assert [m][0].name == "text" by { SectionName(prog, ps, fp); }
    RoundIs(prog, ps, fp, r, relaxed);
    SettingStep(prog, ps, r);
    SettingFacts(prog, ps, P.RelaxStep(prog, r));
    var new_ := Round([m], TEXT_BASES, relaxed).value;
    if Unchanged([m], relaxed, new_) {
      IdxSetInjective(prog, ps, fp, r, P.RelaxStep(prog, r));
    } else {
      assert RelOf(relaxed, "text") != RelOf(new_, "text");
      LoopIs(prog, ps, fp, P.RelaxStep(prog, r), new_, budget - 1);
    }
  }

  lemma SectionName(prog: seq<Stmt>, ps: seq<Placed>, fp: string)
    requires |ps| == |prog|
    ensures Section1(prog, ps, fp).name == "text"
  {
  }
}
