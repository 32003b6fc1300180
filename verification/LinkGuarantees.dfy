/** What a link promises as a whole, for any objects and any base addresses. */
module LinkGuarantees {
  import opened Isa
  import opened ObjFile
  import opened Linker
  import opened Sequences
  import opened Relaxation
  import opened Emission

  // ---- errors that cannot happen --------------------------------------------------

  /** A settled branch never fails for range at emission. */
  lemma ItemNeverTooFar(m: Merged, bases: Bases, env: SymEnv, relaxed: Relaxed, i: nat)
    requires i < |m.items| && SectionSettled(m, bases, env, relaxed)
    ensures var rel, base := RelOf(relaxed, m.name), SectionBase(bases, m.name);
            var r := ItemWords(base, rel, env, i, m.items[i], OffsetAt(rel, m.items, i));
            r.Err? ==> !r.error.BranchTooFar? && !r.error.BudgetExhausted? && !r.error.SectionEnd?
  {
    hide Patch, LongBranch, ShortBranch, OffsetAt, SectionBase;
    match m.items[i]
    case ItemBrel(_, _, _, _) => assert Reaches(m, bases, env, relaxed, i);
    case ItemReloc(src, kind, ws, sym, addend) =>
      if Resolve(src, sym, env).Ok? {
        var rel, base := RelOf(relaxed, m.name), SectionBase(bases, m.name);
        PatchErrors(kind, Reverse(ws), Resolve(src, sym, env).value + addend,
                    base + OffsetAt(rel, m.items, i));
      }
    case _ =>
  }

  lemma PatchErrors(kind: RelocKind, ws: seq<int>, val: int, addr: int)
    ensures var r := Patch(kind, ws, val, addr);
            r.Err? ==> r.error.RelocShape? || r.error.RelocTooFar?
  {
    hide SetImm6, SetRd;
  }

  lemma {:induction false} SectionNeverTooFar(m: Merged, bases: Bases, env: SymEnv, relaxed: Relaxed, n: nat)
    requires n <= |m.items| && SectionSettled(m, bases, env, relaxed)
    ensures var r := EmitSection(SectionBase(bases, m.name), RelOf(relaxed, m.name), env, m.items, n);
            r.Err? ==> !r.error.BranchTooFar? && !r.error.BudgetExhausted? && !r.error.SectionEnd?
  {
    hide ItemWords, SectionSettled, OffsetAt, SectionBase, RelOf;
    if n > 0 {
      SectionNeverTooFar(m, bases, env, relaxed, n - 1);
      ItemNeverTooFar(m, bases, env, relaxed, n - 1);
    }
  }

  lemma {:induction false} AllNeverTooFar(merged: seq<Merged>, bases: Bases, env: SymEnv, relaxed: Relaxed, n: nat)
    requires n <= |merged| && forall j | 0 <= j < |merged| :: SectionSettled(merged[j], bases, env, relaxed)
    ensures var r := EmitAll(merged, bases, relaxed, env, n);
            r.Err? ==> !r.error.BranchTooFar? && !r.error.BudgetExhausted? && !r.error.SectionEnd?
  {
    hide SectionSettled;
    if n > 0 {
      AllNeverTooFar(merged, bases, env, relaxed, n - 1);
      SectionNeverTooFar(merged[n - 1], bases, env, relaxed, |merged[n - 1].items|);
    }
  }

  lemma {:induction false} WithinSpace(ps: seq<(nat, Word)>, i: nat)
    requires i <= |ps|
    ensures FirstBeyond(ps, i).None? <==> forall k | i <= k < |ps| :: ps[k].0 <= 4095
    ensures FirstBeyond(ps, i).Some? ==> FirstBeyond(ps, i).value > 4095
    decreases |ps| - i
  {
    if i < |ps| { WithinSpace(ps, i + 1); }
  }

  /** Each section's pairs are among all pairs. */
  lemma {:induction false} PartOfAll(merged: seq<Merged>, bases: Bases, relaxed: Relaxed, env: SymEnv, n: nat, j: nat, p: (nat, Word))
    requires j < n <= |merged| && EmitAll(merged, bases, relaxed, env, n).Ok?
    requires EmitMerged(merged[j], bases, relaxed, env).Ok?
    requires p in EmitMerged(merged[j], bases, relaxed, env).value
    ensures p in EmitAll(merged, bases, relaxed, env, n).value
  {
    hide EmitMerged;
    if j < n - 1 { PartOfAll(merged, bases, relaxed, env, n - 1, j, p); }
  }

  /** Once every word has a 12-bit address, so has the end of every section: the second address
      check of the linker never fires. */
  lemma SectionsFit(merged: seq<Merged>, bases: Bases, relaxed: Relaxed, env: SymEnv, i: nat)
    requires EmitAll(merged, bases, relaxed, env, |merged|).Ok? && i <= |merged|
    requires forall p | p in EmitAll(merged, bases, relaxed, env, |merged|).value :: p.0 <= 4095
    ensures FirstLongSection(PlacedSections(merged, bases, relaxed), i).None?
    decreases |merged| - i
  {
    if i < |merged| {
      SectionsFit(merged, bases, relaxed, env, i + 1);
      var m := merged[i];
      EmitAllParts(merged, bases, relaxed, env, |merged|, i);
      EmitMergedConsecutive(m, bases, relaxed, env);
      var ps := EmitMerged(m, bases, relaxed, env).value;
      hide EmitMerged, EmitAll, OffsetAt, SectionBase;
      if |ps| > 0 {
        PartOfAll(merged, bases, relaxed, env, |merged|, i, ps[|ps| - 1]);
      }
    }
  }

  lemma FinishErrors(merged: seq<Merged>, bases: Bases, relaxed: Relaxed)
    requires Settled(merged, bases, relaxed)
    ensures var r := Finish(merged, bases, relaxed);
            r.Err? ==> !r.error.BranchTooFar? && !r.error.BudgetExhausted? && !r.error.SectionEnd?
  {
    hide BuildEnv, Defs, EmitAll, Image, PlacedSections, SectionSettled;
    var env := BuildEnv(Defs(merged, bases, relaxed)).value;
    AllNeverTooFar(merged, bases, env, relaxed, |merged|);
    if EmitAll(merged, bases, relaxed, env, |merged|).Ok? {
      var ps := EmitAll(merged, bases, relaxed, env, |merged|).value;
      WithinSpace(ps, 0);
      if FirstBeyond(ps, 0).None? { SectionsFit(merged, bases, relaxed, env, 0); }
    }
  }

  lemma LoopErrors(merged: seq<Merged>, bases: Bases, relaxed: Relaxed, budget: nat)
    ensures var r := RelaxLoop(merged, bases, relaxed, budget);
            r.Err? ==> r.error.Undefined? || r.error.Duplicate? || r.error.BudgetExhausted?
    decreases budget
  {
    hide Unchanged, BuildEnv, Defs, ScanAll;
    if budget > 0 {
      BuildErrors(Defs(merged, bases, relaxed));
      if BuildEnv(Defs(merged, bases, relaxed)).Ok? {
        ScanAllErrors(merged, bases, BuildEnv(Defs(merged, bases, relaxed)).value, relaxed, |merged|);
      }
      if Round(merged, bases, relaxed).Ok? {
        LoopErrors(merged, bases, Round(merged, bases, relaxed).value, budget - 1);
      }
    }
  }

  lemma BuildErrors(defs: seq<Def>)
    ensures BuildEnv(defs).Err? ==> BuildEnv(defs).error.Duplicate?
  {
    GlobalErrors(defs, |defs|);
    UniqueErrors(defs, |defs|);
  }

  lemma GlobalErrors(defs: seq<Def>, n: nat)
    requires n <= |defs|
    ensures GlobalMap(defs, n).Err? ==> GlobalMap(defs, n).error.Duplicate?
  {
  }

  lemma UniqueErrors(defs: seq<Def>, n: nat)
    requires n <= |defs|
    ensures UniqueMap(defs, n).Err? ==> UniqueMap(defs, n).error.Duplicate?
  {
    hide FirstOther;
  }

  lemma ScanErrors(env: SymEnv, base: nat, rel: set<nat>, items: seq<Item>, n: nat)
    requires n <= |items|
    ensures Scan(env, base, rel, items, n).Err? ==> Scan(env, base, rel, items, n).error.Undefined?
  {
  }

  lemma ScanAllErrors(merged: seq<Merged>, bases: Bases, env: SymEnv, relaxed: Relaxed, n: nat)
    requires n <= |merged|
    ensures ScanAll(merged, bases, env, relaxed, n).Err?
            ==> ScanAll(merged, bases, env, relaxed, n).error.Undefined?
  {
    hide Scan;
    if n > 0 {
      ScanAllErrors(merged, bases, env, relaxed, n - 1);
      var m := merged[n - 1];
      ScanErrors(env, SectionBase(bases, m.name), RelOf(relaxed, m.name), m.items, |m.items|);
    }
  }

  /** What `AllPieces` and `MergePieces` make of the inputs. */
  function MergedOf(inputs: seq<(string, ObjectFile)>): seq<Merged> {
    match AllPieces(inputs, |inputs|)
    case Err(_) => []
    case Ok(pieces) => MergePieces(pieces)
  }

  function PieceCount(inputs: seq<(string, ObjectFile)>): nat {
    match AllPieces(inputs, |inputs|)
    case Err(_) => 0
    case Ok(pieces) => |pieces|
  }

  lemma {:induction false} ObjectPieceErrors(fp: string, sections: seq<Section>, n: nat)
    requires n <= |sections|
    ensures ObjectPieces(fp, sections, n).Err? ==> ObjectPieces(fp, sections, n).error.BadReloc?
  {
    hide ToItems;
    if n > 0 {
      ObjectPieceErrors(fp, sections, n - 1);
      ToItemsErrors(fp, [], sections[n - 1].records);
    }
  }

  lemma {:induction false} ToItemsErrors(src: string, acc: seq<Item>, rs: seq<Record>)
    ensures ToItems(src, acc, rs).Err? ==> ToItems(src, acc, rs).error.BadReloc?
    decreases |rs|
  {
    hide PopPlaceholders, Zeros;
    if rs != [] && AddRecord(src, acc, rs[0]).Ok? {
      ToItemsErrors(src, AddRecord(src, acc, rs[0]).value, rs[1..]);
    }
  }

  lemma {:induction false} PieceErrors(inputs: seq<(string, ObjectFile)>, n: nat)
    requires n <= |inputs|
    ensures AllPieces(inputs, n).Err? ==> AllPieces(inputs, n).error.BadReloc?
  {
    hide ObjectPieces;
    if n > 0 {
      PieceErrors(inputs, n - 1);
      ObjectPieceErrors(inputs[n - 1].0, inputs[n - 1].1.sections, |inputs[n - 1].1.sections|);
    }
  }

  /** Two of the linker's errors are unreachable: a branch "out of range after relaxation" and a
      section end beyond the address space; and the relaxation budget cannot run out when the
      objects have fewer branches than four per section piece plus sixteen. */
  lemma UnreachableErrors(opts: Bases, inputs: seq<(string, ObjectFile)>)
    ensures var r := LinkObjectFiles(opts, inputs);
            r.Err? ==>
              !r.error.BranchTooFar? && !r.error.SectionEnd?
              && (BranchCount(MergedOf(inputs)) < 4 * PieceCount(inputs) + 16 ==> !r.error.BudgetExhausted?)
  {
    hide AllPieces, RelaxLoop, Finish, MergePieces, AssignBases, OpenCount, Settled;
    PieceErrors(inputs, |inputs|);
    if AllPieces(inputs, |inputs|).Ok? {
      var pieces := AllPieces(inputs, |inputs|).value;
      var merged := MergePieces(pieces);
      var bases := AssignBases(opts, SectionOrder(pieces));
      assert Distinct(merged) && OnlyBranches(merged, map[]);
      LoopErrors(merged, bases, map[], BudgetFor(pieces));
      if OpenCount(merged, map[]) < BudgetFor(pieces) {
        BudgetSuffices(merged, bases, map[], BudgetFor(pieces));
      }
      if RelaxLoop(merged, bases, map[], BudgetFor(pieces)).Ok? {
        RelaxLoopSettles(merged, bases, map[], BudgetFor(pieces));
        FinishErrors(merged, bases, RelaxLoop(merged, bases, map[], BudgetFor(pieces)).value);
      }
    }
  }

  // ---- what a successful link contains --------------------------------------------

  /** The intermediate results of a successful link. */
  datatype Trace = Trace(merged: seq<Merged>, bases: Bases, relaxed: Relaxed, env: SymEnv)

  ghost function TraceOf(opts: Bases, pieces: seq<Piece>): Trace
    requires LinkPieces(opts, pieces).Ok?
  {
    var merged := MergePieces(pieces);
    var bases := AssignBases(opts, SectionOrder(pieces));
    var relaxed := RelaxLoop(merged, bases, map[], BudgetFor(pieces)).value;
    Trace(merged, bases, relaxed, BuildEnv(Defs(merged, bases, relaxed)).value)
  }

  lemma TraceSettled(opts: Bases, pieces: seq<Piece>)
    requires LinkPieces(opts, pieces).Ok?
    ensures var t := TraceOf(opts, pieces);
            Settled(t.merged, t.bases, t.relaxed) && OnlyBranches(t.merged, t.relaxed)
            && BuildEnv(Defs(t.merged, t.bases, t.relaxed)) == Ok(t.env)
            && EmitAll(t.merged, t.bases, t.relaxed, t.env, |t.merged|).Ok?
  {
    hide RelaxLoop, Defs, BuildEnv, EmitAll, MakeImage, FirstLongSection, PlacedSections, MergePieces, AssignBases;
    var merged := MergePieces(pieces);
    assert Distinct(merged) && OnlyBranches(merged, map[]);
    RelaxLoopSettles(merged, AssignBases(opts, SectionOrder(pieces)), map[], BudgetFor(pieces));
    hide Settled, OnlyBranches;
  }

  /** A successful link whose sections do not overlap, with its trace and its image. */
  ghost predicate Linked(opts: Bases, pieces: seq<Piece>, t: Trace, words: seq<Word>) {
    LinkPieces(opts, pieces).Ok? && t == TraceOf(opts, pieces)
    && words == LinkPieces(opts, pieces).value.words && Disjoint(t.merged, t.bases, t.relaxed)
  }

  /** Address `a` of section `j` holds the word that section emits for it. */
  ghost predicate WordAt(t: Trace, words: seq<Word>, j: nat, a: nat)
    requires j < |t.merged|
  {
    var ps := EmitMerged(t.merged[j], t.bases, t.relaxed, t.env);
    a < |words| && ps.Ok? && 0 <= a - BaseOf(t.merged[j], t.bases) < |ps.value|
    && words[a] == ps.value[a - BaseOf(t.merged[j], t.bases)].1
  }

  /** The image is exactly what the sections emit, and zero elsewhere. */
  ghost predicate ImageOf(t: Trace, words: seq<Word>) {
    |words| <= 4096
    && (forall j: nat, a: nat | j < |t.merged| && Covers(t.merged[j], t.bases, t.relaxed, a) :: WordAt(t, words, j, a))
    && (forall a: nat | a < |words| && (forall j | 0 <= j < |t.merged| :: !Covers(t.merged[j], t.bases, t.relaxed, a)) ::
          words[a] == 0)
  }

  lemma CoveredWord(t: Trace, all: seq<(nat, Word)>, j: nat, a: nat)
    requires j < |t.merged| && Covers(t.merged[j], t.bases, t.relaxed, a)
    requires Disjoint(t.merged, t.bases, t.relaxed)
    requires EmitAll(t.merged, t.bases, t.relaxed, t.env, |t.merged|) == Ok(all)
    ensures var ps := EmitMerged(t.merged[j], t.bases, t.relaxed, t.env);
            ps.Ok? && |ps.value| == SizeOf(t.merged[j], t.relaxed) && a <= MaxAddr(all)
            && LastWrite(all, a) == ps.value[a - BaseOf(t.merged[j], t.bases)].1
  {
    hide EmitAll, EmitMerged, SizeOf, BaseOf;
    EmitAllParts(t.merged, t.bases, t.relaxed, t.env, |t.merged|, j);
    EmitMergedConsecutive(t.merged[j], t.bases, t.relaxed, t.env);
    WrittenOnce(t.merged, t.bases, t.relaxed, t.env, |t.merged|, j, a);
    var ps := EmitMerged(t.merged[j], t.bases, t.relaxed, t.env).value;
    var p := ps[a - BaseOf(t.merged[j], t.bases)];
    PartOfAll(t.merged, t.bases, t.relaxed, t.env, |t.merged|, j, p);
  }

  lemma CoveredWordAt(t: Trace, words: seq<Word>, all: seq<(nat, Word)>, j: nat, a: nat)
    requires j < |t.merged| && Covers(t.merged[j], t.bases, t.relaxed, a)
    requires EmitAll(t.merged, t.bases, t.relaxed, t.env, |t.merged|) == Ok(all)
    requires words == Image(all) && Disjoint(t.merged, t.bases, t.relaxed)
    ensures WordAt(t, words, j, a)
  {
    hide EmitAll, EmitMerged, Disjoint, MaxAddr, LastWrite;
    CoveredWord(t, all, j, a);
    CoversBounds(t, j, a);
    hide Covers, BaseOf, SizeOf;
  }

  lemma FinishImage(t: Trace, words: seq<Word>, all: seq<(nat, Word)>)
    requires EmitAll(t.merged, t.bases, t.relaxed, t.env, |t.merged|) == Ok(all)
    requires MakeImage(all) == Ok(words) && Disjoint(t.merged, t.bases, t.relaxed)
    ensures ImageOf(t, words)
  {
    WithinSpace(all, 0);
    hide EmitAll, Covers, Disjoint, WordAt, FirstBeyond, LastWrite;
    forall j: nat, a: nat | j < |t.merged| && Covers(t.merged[j], t.bases, t.relaxed, a)
      ensures WordAt(t, words, j, a)
    {
      CoveredWordAt(t, words, all, j, a);
    }
    forall a: nat | a < |words| && (forall j | 0 <= j < |t.merged| :: !Covers(t.merged[j], t.bases, t.relaxed, a))
      ensures words[a] == 0
    {
      Unwritten(t.merged, t.bases, t.relaxed, t.env, |t.merged|, a);
    }
  }

  lemma CoversBounds(t: Trace, j: nat, a: nat)
    requires j < |t.merged| && Covers(t.merged[j], t.bases, t.relaxed, a)
    ensures 0 <= a - BaseOf(t.merged[j], t.bases) < SizeOf(t.merged[j], t.relaxed)
  {
  }

  lemma FinishParts(merged: seq<Merged>, bases: Bases, relaxed: Relaxed) returns (all: seq<(nat, Word)>)
    requires Finish(merged, bases, relaxed).Ok?
    ensures var env := BuildEnv(Defs(merged, bases, relaxed));
            env.Ok? && EmitAll(merged, bases, relaxed, env.value, |merged|) == Ok(all)
            && MakeImage(all) == Ok(Finish(merged, bases, relaxed).value.words)
  {
    hide BuildEnv, Defs, EmitAll, MakeImage, FirstLongSection, PlacedSections;
    all := EmitAll(merged, bases, relaxed, BuildEnv(Defs(merged, bases, relaxed)).value, |merged|).value;
  }

  /** The emitted words, conserved: the image of a link without overlaps is exactly what its
      sections emit at their own addresses, and zero in between. */
  lemma LinkedImage(opts: Bases, pieces: seq<Piece>, t: Trace, words: seq<Word>)
    requires Linked(opts, pieces, t, words)
    ensures ImageOf(t, words) && Settled(t.merged, t.bases, t.relaxed)
    ensures BuildEnv(Defs(t.merged, t.bases, t.relaxed)) == Ok(t.env)
    ensures EmitAll(t.merged, t.bases, t.relaxed, t.env, |t.merged|).Ok?
  {
    hide RelaxLoop, Defs, BuildEnv, EmitAll, Finish, MergePieces, AssignBases, Disjoint, ImageOf, Settled, OnlyBranches, MakeImage;
    TraceSettled(opts, pieces);
    var all := FinishParts(t.merged, t.bases, t.relaxed);
    FinishImage(t, words, all);
  }

  /** The size of a linked section: the words, zeros and branches of its records, relocations
      counting for nothing, plus three words for every relaxed branch. */
  lemma SectionSizes(opts: Bases, pieces: seq<Piece>, j: nat)
    requires LinkPieces(opts, pieces).Ok? && j < |TraceOf(opts, pieces).merged|
    ensures var t := TraceOf(opts, pieces);
            var m, rel := t.merged[j], RelOf(t.relaxed, t.merged[j].name);
            SizeOf(m, t.relaxed) == PiecesSize(pieces, m.name) + 3 * |rel|
  {
    hide Settled, SizeOf, PiecesSize, OnlyBranches, Defs, BuildEnv, EmitAll, LinkPieces, TraceOf;
    TraceSettled(opts, pieces);
    var t := TraceOf(opts, pieces);
    TracePieces(opts, pieces, j);
    BranchesOnly(t.merged, t.relaxed, j);
    GrownSize(t.merged[j], t.relaxed);
    ConcatSize(pieces, t.merged[j].name);
  }

  lemma TracePieces(opts: Bases, pieces: seq<Piece>, j: nat)
    requires LinkPieces(opts, pieces).Ok? && j < |TraceOf(opts, pieces).merged|
    ensures var m := TraceOf(opts, pieces).merged[j]; m.items == ConcatItems(pieces, m.name)
  {
    hide RelaxLoop, Defs, BuildEnv, EmitAll, Finish, AssignBases, ConcatItems, SectionOrder;
  }

  lemma BranchesOnly(merged: seq<Merged>, relaxed: Relaxed, j: nat)
    requires OnlyBranches(merged, relaxed) && j < |merged|
    ensures forall i | i in RelOf(relaxed, merged[j].name) :: i < |merged[j].items| && merged[j].items[i].ItemBrel?
  {
  }

  lemma GrownSize(m: Merged, relaxed: Relaxed)
    requires forall i | i in RelOf(relaxed, m.name) :: i < |m.items| && m.items[i].ItemBrel?
    ensures SizeOf(m, relaxed) == Total(m.items) + 3 * |RelOf(relaxed, m.name)|
  {
    hide OffsetAt;
    var rel := RelOf(relaxed, m.name);
    RelaxedGrowth(rel, m.items, |m.items|);
    assert Below(rel, |m.items|) == rel;
  }

  /** The records of the first `n` sections of an object that go into section `name`. */
  function ObjectWords(sections: seq<Section>, name: string, n: nat): nat
    requires n <= |sections|
  {
    if n == 0 then 0
    else ObjectWords(sections, name, n - 1) + if sections[n - 1].name == name then RecordsSize(sections[n - 1].records) else 0
  }

  function InputWords(inputs: seq<(string, ObjectFile)>, name: string, n: nat): nat
    requires n <= |inputs|
  {
    if n == 0 then 0
    else InputWords(inputs, name, n - 1) + ObjectWords(inputs[n - 1].1.sections, name, |inputs[n - 1].1.sections|)
  }

  lemma {:induction false} PiecesConcat(ps: seq<Piece>, qs: seq<Piece>, name: string)
    ensures PiecesSize(ps + qs, name) == PiecesSize(ps, name) + PiecesSize(qs, name)
    decreases |qs|
  {
    hide Total;
    if qs == [] {
      assert ps + qs == ps;
    } else {
      var init, q := qs[..|qs| - 1], qs[|qs| - 1];
      assert (ps + qs)[..|ps + qs| - 1] == ps + init;
      PiecesConcat(ps, init, name);
    }
  }

  lemma OnePieceSize(p: Piece, name: string)
    ensures PiecesSize([p], name) == if p.name == name then Total(p.items) else 0
  {
    hide Total;
    assert [p][..0] == [];
    assert PiecesSize([], name) == 0;
  }

  lemma {:induction false} ObjectSizes(fp: string, sections: seq<Section>, name: string, n: nat)
    requires n <= |sections| && ObjectPieces(fp, sections, n).Ok?
    ensures PiecesSize(ObjectPieces(fp, sections, n).value, name) == ObjectWords(sections, name, n)
  {
    hide ToItems, Total, RecordsSize;
    if n > 0 {
      ObjectSizes(fp, sections, name, n - 1);
      var items := ToItems(fp, [], sections[n - 1].records).value;
      var p := Piece(fp, sections[n - 1].name, items);
      ItemsKeepSize(fp, [], sections[n - 1].records);
      EmptyTotal();
      OnePieceSize(p, name);
      PiecesConcat(ObjectPieces(fp, sections, n - 1).value, [p], name);
    } else {
      NoPieces(name);
    }
  }

  lemma NoPieces(name: string)
    ensures PiecesSize([], name) == 0
  {
  }

  lemma {:induction false} InputSizes(inputs: seq<(string, ObjectFile)>, name: string, n: nat)
    requires n <= |inputs| && AllPieces(inputs, n).Ok?
    ensures PiecesSize(AllPieces(inputs, n).value, name) == InputWords(inputs, name, n)
  {
    hide ObjectPieces, PiecesSize;
    NoPieces(name);
    if n > 0 {
      InputSizes(inputs, name, n - 1);
      var (fp, obj) := inputs[n - 1];
      ObjectSizes(fp, obj.sections, name, |obj.sections|);
      PiecesConcat(AllPieces(inputs, n - 1).value, ObjectPieces(fp, obj.sections, |obj.sections|).value, name);
    }
  }

  /** The size the link reports for a section: the words, zeros and branches of its records in all the
      objects, relocations counting for nothing, plus three words for every branch it relaxed. */
  lemma LinkedSectionSize(opts: Bases, inputs: seq<(string, ObjectFile)>, lr: LinkResult, j: nat)
    requires LinkObjectFiles(opts, inputs) == Ok(lr) && j < |lr.sections|
    ensures AllPieces(inputs, |inputs|).Ok? && LinkPieces(opts, AllPieces(inputs, |inputs|).value).Ok?
    ensures var t := TraceOf(opts, AllPieces(inputs, |inputs|).value);
            var name := lr.sections[j].name;
            lr.sections[j].size == InputWords(inputs, name, |inputs|) + 3 * |RelOf(t.relaxed, name)|
  {
    hide AllPieces, PiecesSize, InputWords, OffsetAt, RelaxLoop, Defs, BuildEnv, EmitAll, MakeImage, FirstLongSection, MergePieces, AssignBases, SectionBase;
    var pieces := AllPieces(inputs, |inputs|).value;
    SectionSizes(opts, pieces, j);
    InputSizes(inputs, lr.sections[j].name, |inputs|);
  }
}
