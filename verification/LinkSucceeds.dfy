/** Exactly which assembled programs link alone at base 0. */
module LinkSucceeds {
  import opened Isa
  import opened ObjFile
  import opened Linker
  import opened Relaxation
  import opened Emission
  import opened LinkGuarantees
  import opened Assembler
  import opened LinkRelax
  import opened LinkRounds
  import opened FlatLink
  import opened FlatAgreement
  import P = Programs

  /** What has relaxed by the last round of the budget of a one-section link. */
  function Settling(prog: seq<Stmt>): set<nat> { P.RelaxSteps(prog, {}, 19) }

  /** Relaxation needs at most `n` steps. */
  predicate Settles(prog: seq<Stmt>, n: nat) {
    P.RelaxStep(prog, P.RelaxSteps(prog, {}, n)) == P.RelaxSteps(prog, {}, n)
  }

  /** Every label used is defined, relaxation settles within the budget, and the image fits. */
  ghost predicate Linkable(prog: seq<Stmt>) {
    RefsKnown(prog) && Settles(prog, 19) && P.Addr(prog, Settling(prog), |prog|) <= 4096
  }

  // ---- relaxation -----------------------------------------------------------------

  lemma {:induction false} ScanOk(env: SymEnv, base: nat, rel: set<nat>, items: seq<Item>, n: nat)
    requires n <= |items|
    requires forall i: nat | i < n && OpenBranch(rel, items, i) :: BrelOffset(env, base, rel, items, i).Ok?
    ensures Scan(env, base, rel, items, n).Ok?
  {
    hide BrelOffset;
    if n > 0 { ScanOk(env, base, rel, items, n - 1); }
  }

  lemma RoundOk(prog: seq<Stmt>, ps: seq<Placed>, fp: string, r: set<nat>, relaxed: Relaxed)
    requires Setting(prog, ps, r) && RelOf(relaxed, "text") == IdxSet(prog, ps, fp, r) && RefsKnown(prog)
    ensures Round([Section1(prog, ps, fp)], TEXT_BASES, relaxed).Ok?
  {
    var m := Section1(prog, ps, fp);
    SettingFacts(prog, ps, r);
    Section1Defs(prog, ps, fp, r, relaxed);
    hide Defs, Setting, ProgDefs, ItemsOf, Idx, BrelOffset, BuildEnv, IdxSet, Resolve, P.Addr;
    ResolveIs(prog, ps, fp, r, "");
    var env, rel := EnvOf(prog, ps, fp, r).value, IdxSet(prog, ps, fp, r);
    forall p: nat | p < |m.items| && OpenBranch(rel, m.items, p)
      ensures BrelOffset(env, 0, rel, m.items, p).Ok?
    {
      var i := BranchOwner(prog, ps, fp, p);
      assert OpKnown(prog, prog[i].op);
      BranchDistance(prog, ps, fp, r, i);
    }
    ScanOk(env, 0, rel, m.items, |m.items|);
    hide Scan;
    OneScan(m, env, relaxed);
  }

  lemma OneScan(m: Merged, env: SymEnv, relaxed: Relaxed)
    requires Scan(env, SectionBase(TEXT_BASES, m.name), RelOf(relaxed, m.name), m.items, |m.items|).Ok?
    ensures ScanAll([m], TEXT_BASES, env, relaxed, 1).Ok?
  {
    hide Scan, SectionBase;
    assert ScanAll([m], TEXT_BASES, env, relaxed, 0) == Ok(relaxed);
    assert [m][0] == m;
  }

  /** The linker's loop succeeds exactly when the abstract relaxation settles one step sooner; if it does
      not, the budget is what ends it. */
  lemma {:induction false} LoopOk(prog: seq<Stmt>, ps: seq<Placed>, fp: string, r: set<nat>, relaxed: Relaxed, budget: nat)
    requires Setting(prog, ps, r) && RelOf(relaxed, "text") == IdxSet(prog, ps, fp, r) && RefsKnown(prog) && budget > 0
    ensures RelaxLoop([Section1(prog, ps, fp)], TEXT_BASES, relaxed, budget).Ok?
       <==> P.RelaxStep(prog, P.RelaxSteps(prog, r, budget - 1)) == P.RelaxSteps(prog, r, budget - 1)
    ensures RelaxLoop([Section1(prog, ps, fp)], TEXT_BASES, relaxed, budget).Err?
        ==> RelaxLoop([Section1(prog, ps, fp)], TEXT_BASES, relaxed, budget) == Err(BudgetExhausted)
    decreases budget
  {
    hide Setting, Round, IdxSet, P.RelaxStep, Section1, RefsKnown;
    SettingFacts(prog, ps, r);
    var m := Section1(prog, ps, fp);
    assert [m][0].name == "text" by { SectionName(prog, ps, fp); }
    RoundOk(prog, ps, fp, r, relaxed);
    RoundIs(prog, ps, fp, r, relaxed);
    SettingStep(prog, ps, r);
    SettingFacts(prog, ps, P.RelaxStep(prog, r));
    var new_ := Round([m], TEXT_BASES, relaxed).value;
    if Unchanged([m], relaxed, new_) {
      IdxSetInjective(prog, ps, fp, r, P.RelaxStep(prog, r));
    } else {
      assert RelOf(relaxed, "text") != RelOf(new_, "text");
      if budget > 1 { LoopOk(prog, ps, fp, P.RelaxStep(prog, r), new_, budget - 1); }
    }
  }

  /** Once settled, more steps change nothing. */
  lemma {:induction false} StepsSettled(prog: seq<Stmt>, r: set<nat>, fuel: nat)
    requires P.RelaxStep(prog, P.RelaxSteps(prog, r, fuel)) == P.RelaxSteps(prog, r, fuel)
    ensures P.RelaxSteps(prog, r, fuel + 1) == P.RelaxSteps(prog, r, fuel)
    decreases fuel
  {
    hide P.RelaxStep;
    if fuel > 0 && P.RelaxStep(prog, r) != r { StepsSettled(prog, P.RelaxStep(prog, r), fuel - 1); }
  }

  // ---- emission -------------------------------------------------------------------

  lemma {:induction false} EmitOk(base: nat, rel: set<nat>, env: SymEnv, items: seq<Item>, n: nat)
    requires n <= |items|
    requires forall p: nat | p < n :: ItemWords(base, rel, env, p, items[p], OffsetAt(rel, items, p)).Ok?
    ensures EmitSection(base, rel, env, items, n).Ok?
  {
    hide ItemWords, OffsetAt;
    if n > 0 { EmitOk(base, rel, env, items, n - 1); }
  }

  /** Every item of a settled program with known labels has words. */
  lemma ItemOk(prog: seq<Stmt>, ps: seq<Placed>, fp: string, r: set<nat>, p: nat)
    requires Setting(prog, ps, r) && RefsKnown(prog) && P.RelaxStep(prog, r) == r
    requires p < |ItemsOf(prog, ps, fp, |prog|)|
    ensures EnvOf(prog, ps, fp, r).Ok?
    ensures var items, rel := ItemsOf(prog, ps, fp, |prog|), IdxSet(prog, ps, fp, r);
            ItemWords(0, rel, EnvOf(prog, ps, fp, r).value, p, items[p], OffsetAt(rel, items, p)).Ok?
  {
    hide Setting, ItemsOf, IdxSet, EnvOf, RefsKnown, OffsetAt, ItemWords, OpItems, HeadItems, P.RelaxStep;
    SettingFacts(prog, ps, r);
    EnvOk(prog, ps, fp, r);
    var i := ItemOwner(prog, ps, fp, |prog|, p);
    var k := p - |ItemsOf(prog, ps, fp, i)|;
    var h := HeadItems(prog, ps, fp, i);
    HeadWeightless(prog, ps, fp, i);
    var items, rel := ItemsOf(prog, ps, fp, |prog|), IdxSet(prog, ps, fp, r);
    if k < |h| {
      assert items[p] == h[k];
      HeadWords(rel, EnvOf(prog, ps, fp, r).value, p, items[p], OffsetAt(rel, items, p));
    } else {
      assert items[p] == OpItems(fp, prog[i].op)[k - |h|];
      KnownOp(prog, i);
      OpItemOk(prog, ps, fp, r, i, k - |h|, p);
    }
  }

  lemma EnvOk(prog: seq<Stmt>, ps: seq<Placed>, fp: string, r: set<nat>)
    requires Setting(prog, ps, r)
    ensures EnvOf(prog, ps, fp, r).Ok?
  {
    hide BuildEnv, ProgDefs, Setting;
    ResolveIs(prog, ps, fp, r, "");
  }

  lemma KnownOp(prog: seq<Stmt>, i: nat)
    requires RefsKnown(prog) && i < |prog|
    ensures OpKnown(prog, prog[i].op)
  {
  }

  lemma HeadWords(rel: set<nat>, env: SymEnv, p: nat, it: Item, off: nat)
    requires it.ItemSym? || it.ItemLoc?
    ensures ItemWords(0, rel, env, p, it, off).Ok?
  {
  }

  /** An item of a statement's operation. */
  lemma OpItemOk(prog: seq<Stmt>, ps: seq<Placed>, fp: string, r: set<nat>, i: nat, k: nat, p: nat)
    requires Setting(prog, ps, r) && i < |prog| && OpKnown(prog, prog[i].op) && P.RelaxStep(prog, r) == r
    requires EnvOf(prog, ps, fp, r).Ok? && p < |ItemsOf(prog, ps, fp, |prog|)|
    requires k < |OpItems(fp, prog[i].op)| && ItemsOf(prog, ps, fp, |prog|)[p] == OpItems(fp, prog[i].op)[k]
    ensures var items, rel := ItemsOf(prog, ps, fp, |prog|), IdxSet(prog, ps, fp, r);
            ItemWords(0, rel, EnvOf(prog, ps, fp, r).value, p, items[p], OffsetAt(rel, items, p)).Ok?
  {
    hide Setting, ItemsOf, IdxSet, EnvOf, OffsetAt, ItemWords, P.RelaxStep, EncodeRi, Known;
    SettingFacts(prog, ps, r);
    var items, rel := ItemsOf(prog, ps, fp, |prog|), IdxSet(prog, ps, fp, r);
    var off := OffsetAt(rel, items, p);
    match prog[i].op
    case Empty =>
    case Directive(_, _) =>
    case Fixed(ws) => WordIsOk(rel, EnvOf(prog, ps, fp, r).value, p, items[p], off);
    case Words(ops) => WordOpLinked(prog, ps, fp, r, ops[k], p, off);
    case LoadLabel(rd, name) => LoadLinked(prog, ps, fp, r, rd, name, p, off);
    case Branch(kind, name) => BranchOk(prog, ps, fp, r, p);
  }

  lemma WordIsOk(rel: set<nat>, env: SymEnv, p: nat, it: Item, off: nat)
    requires it.ItemWord?
    ensures ItemWords(0, rel, env, p, it, off).Ok?
  {
  }

  /** A settled branch reaches. */
  lemma BranchOk(prog: seq<Stmt>, ps: seq<Placed>, fp: string, r: set<nat>, p: nat)
    requires Setting(prog, ps, r) && P.RelaxStep(prog, r) == r && EnvOf(prog, ps, fp, r).Ok?
    requires p < |ItemsOf(prog, ps, fp, |prog|)| && ItemsOf(prog, ps, fp, |prog|)[p].ItemBrel?
    requires RefersKnown(prog, ItemsOf(prog, ps, fp, |prog|)[p])
    ensures var items, rel := ItemsOf(prog, ps, fp, |prog|), IdxSet(prog, ps, fp, r);
            ItemWords(0, rel, EnvOf(prog, ps, fp, r).value, p, items[p], OffsetAt(rel, items, p)).Ok?
  {
    hide Setting, ItemsOf, IdxSet, ProgDefs, BuildEnv, Resolve, OffsetAt, P.RelaxStep, P.Addr, P.LabelAddr, LongBranch, ShortBranch, Idx;
    SettingFacts(prog, ps, r);
    var items, rel := ItemsOf(prog, ps, fp, |prog|), IdxSet(prog, ps, fp, r);
    var i := BranchOwner(prog, ps, fp, p);
    BranchAtIdx(prog, ps, fp, i);
    KnownLabel(prog, r, prog[i].op.name);
    BranchDistance(prog, ps, fp, r, i);
    StepMembers(prog, r, i);
    IdxInSet(prog, ps, fp, r, i);
  }

  lemma KnownLabel(prog: seq<Stmt>, r: set<nat>, name: string)
    ensures Known(prog, name) <==> P.LabelAddr(prog, r, name).Some?
  {
    hide P.Addr;
  }

  predicate RefersKnown(prog: seq<Stmt>, it: Item) { it.ItemBrel? ==> Known(prog, it.sym) }

  // ---- the image ------------------------------------------------------------------

  lemma FitsIff(ps: seq<(nat, Word)>)
    ensures MakeImage(ps).Ok? <==> MaxAddr(ps) <= 4095
    ensures MakeImage(ps).Err? ==> MakeImage(ps).error.WordAddress?
  {
    WithinSpace(ps, 0);
    hide FirstBeyond, Image;
  }

  /** The end of the link, after relaxation. */
  lemma FinishOk(prog: seq<Stmt>, ps: seq<Placed>, fp: string, r: set<nat>, relaxed: Relaxed)
    requires Setting(prog, ps, r) && RefsKnown(prog) && P.RelaxStep(prog, r) == r
    requires RelOf(relaxed, "text") == IdxSet(prog, ps, fp, r)
    ensures var out := Finish([Section1(prog, ps, fp)], TEXT_BASES, relaxed);
            if P.Addr(prog, r, |prog|) <= 4096 then out.Ok? else out.Err? && out.error.WordAddress?
  {
    hide *;
    SettingFacts(prog, ps, r);
    EmitsAll(prog, ps, fp, r);
    ProgramLinked(prog, ps, fp, r, |prog|);
    SettingParts(prog, ps, r);
    CoverWhole(prog, ps, r);
    FinishSection(prog, ps, fp, r, relaxed, PairsOf(prog, r, |prog|));
  }

  /** A settled program with known labels is emitted. */
  lemma EmitsAll(prog: seq<Stmt>, ps: seq<Placed>, fp: string, r: set<nat>)
    requires Setting(prog, ps, r) && RefsKnown(prog) && P.RelaxStep(prog, r) == r
    ensures EnvOf(prog, ps, fp, r).Ok?
    ensures var items := ItemsOf(prog, ps, fp, |prog|);
            EmitSection(0, IdxSet(prog, ps, fp, r), EnvOf(prog, ps, fp, r).value, items, |items|).Ok?
  {
    hide *;
    SettingFacts(prog, ps, r);
    EnvOk(prog, ps, fp, r);
    var items := ItemsOf(prog, ps, fp, |prog|);
    forall p: nat | p < |items|
      ensures ItemWords(0, IdxSet(prog, ps, fp, r), EnvOf(prog, ps, fp, r).value, p, items[p],
                        OffsetAt(IdxSet(prog, ps, fp, r), items, p)).Ok?
    {
      ItemOk(prog, ps, fp, r, p);
    }
    EmitOk(0, IdxSet(prog, ps, fp, r), EnvOf(prog, ps, fp, r).value, items, |items|);
  }

  lemma CoverWhole(prog: seq<Stmt>, ps: seq<Placed>, r: set<nat>)
    requires Recordable(prog)
    ensures MaxAddr(PairsOf(prog, r, |prog|)) + 1 == P.Addr(prog, r, |prog|)
  {
    hide *;
    PairsCover(prog, r, |prog|);
  }

  lemma FinishSection(prog: seq<Stmt>, ps: seq<Placed>, fp: string, r: set<nat>, relaxed: Relaxed, all: seq<(nat, Word)>)
    requires Setting(prog, ps, r) && RelOf(relaxed, "text") == IdxSet(prog, ps, fp, r)
    requires var items := ItemsOf(prog, ps, fp, |prog|);
             EnvOf(prog, ps, fp, r).Ok?
             && EmitSection(0, IdxSet(prog, ps, fp, r), EnvOf(prog, ps, fp, r).value, items, |items|) == Ok(all)
    requires MaxAddr(all) + 1 == P.Addr(prog, r, |prog|)
    ensures var out := Finish([Section1(prog, ps, fp)], TEXT_BASES, relaxed);
            if P.Addr(prog, r, |prog|) <= 4096 then out.Ok? else out.Err? && out.error.WordAddress?
  {
    hide Setting, IdxSet, ItemsOf, BuildEnv, ProgDefs, EmitSection, MakeImage, MaxAddr, P.Addr, OffsetAt, Defs, SectionBase;
    SettingFacts(prog, ps, r);
    SettingParts(prog, ps, r);
    var m := Section1(prog, ps, fp);
    Section1Defs(prog, ps, fp, r, relaxed);
    OffsetsAre(prog, ps, fp, r, |prog|);
    FitsIff(all);
    OneEmitted(m, relaxed, EnvOf(prog, ps, fp, r).value, all);
    var placed := PlacedSections([m], TEXT_BASES, relaxed);
    assert placed == [PlacedSection("text", 0, P.Addr(prog, r, |prog|))];
    assert FirstLongSection(placed, 1) == None;
  }

  lemma OneEmitted(m: Merged, relaxed: Relaxed, env: SymEnv, all: seq<(nat, Word)>)
    requires EmitMerged(m, TEXT_BASES, relaxed, env) == Ok(all)
    ensures EmitAll([m], TEXT_BASES, relaxed, env, 1) == Ok(all)
  {
    hide EmitMerged;
    assert EmitAll([m], TEXT_BASES, relaxed, env, 0) == Ok([]);
    assert [m][0] == m && [] + all == all;
  }

  // ---- the whole link -------------------------------------------------------------

  /** An assembled program links alone at base 0 exactly when every label it uses is defined, abstract
      relaxation settles within 19 steps, and the relaxed program has at most 4096 words.  With all labels
      defined the error is the one that says so. */
  lemma LinksIff(prog: seq<Stmt>, sources: seq<string>, fp: string)
    requires prog != [] && AssembleObject(prog, sources).Ok?
    ensures LinkObjectFiles(TEXT_BASES, [(fp, AssembleObject(prog, sources).value)]).Ok? <==> Linkable(prog)
    ensures RefsKnown(prog) && !Linkable(prog) ==>
              var e := LinkObjectFiles(TEXT_BASES, [(fp, AssembleObject(prog, sources).value)]).error;
              if Settles(prog, 19) then e.WordAddress? else e == BudgetExhausted
  {
    hide LinkObjectFiles, LinkPieces, AssembleObject, Assign, Setting, ItemsOf, IdxSet, P.RelaxStep, P.RelaxSteps, P.Addr, RefsKnown, Image, PairsOf;
    var ps := ObjectSetting(prog, sources, fp);
    SettingFacts(prog, ps, {});
    NoIdx(prog, ps, fp);
    if RefsKnown(prog) {
      LoopOk(prog, ps, fp, {}, map[], 20);
      LinkPiecesIs(prog, ps, fp);
      if RelaxLoop([Section1(prog, ps, fp)], TEXT_BASES, map[], 20).Ok? {
        LoopIs(prog, ps, fp, {}, map[], 20);
        StepsSettled(prog, {}, 19);
        FinishOk(prog, ps, fp, Settling(prog), RelaxLoop([Section1(prog, ps, fp)], TEXT_BASES, map[], 20).value);
      }
    } else if LinkObjectFiles(TEXT_BASES, [(fp, AssembleObject(prog, sources).value)]).Ok? {
      LinkedProgram(prog, ps, fp, LinkObjectFiles(TEXT_BASES, [(fp, AssembleObject(prog, sources).value)]).value);
    }
  }

  lemma LinkPiecesIs(prog: seq<Stmt>, ps: seq<Placed>, fp: string)
    requires |ps| == |prog|
    ensures LinkPieces(TEXT_BASES, [Piece(fp, "text", ItemsOf(prog, ps, fp, |prog|))])
         == match RelaxLoop([Section1(prog, ps, fp)], TEXT_BASES, map[], 20)
            case Err(e) => Err(e)
            case Ok(relaxed) => Finish([Section1(prog, ps, fp)], TEXT_BASES, relaxed)
  {
    hide RelaxLoop, Finish, ItemsOf;
    OneMerged(fp, ItemsOf(prog, ps, fp, |prog|));
    hide MergePieces, AssignBases;
  }
}
