/** What goes into a link: sections by first appearance, pieces in link order, bases as given, and
    placeholders filled field by field. */
module LinkMerge {
  import opened Isa
  import opened ObjFile
  import opened Linker

  // ---- sections -------------------------------------------------------------------

  /** The first piece of a section. */
  function FirstPiece(pieces: seq<Piece>, name: string): (k: nat)
    ensures k <= |pieces| && (k < |pieces| ==> pieces[k].name == name)
    ensures forall i | 0 <= i < k :: pieces[i].name != name
  {
    if pieces == [] then 0
    else if FirstPiece(pieces[..|pieces| - 1], name) < |pieces| - 1 then
      assert forall i | 0 <= i < |pieces| - 1 :: pieces[i] == pieces[..|pieces| - 1][i];
      FirstPiece(pieces[..|pieces| - 1], name)
    else
      assert forall i | 0 <= i < |pieces| - 1 :: pieces[i] == pieces[..|pieces| - 1][i];
      if pieces[|pieces| - 1].name == name then |pieces| - 1 else |pieces|
  }

  lemma FirstInit(pieces: seq<Piece>, l: string)
    requires pieces != []
    ensures var init := pieces[..|pieces| - 1];
            FirstPiece(pieces, l)
            == if FirstPiece(init, l) < |init| || l == pieces[|pieces| - 1].name then FirstPiece(init, l) else |pieces|
  {
  }

  /** The sections of a link are exactly the names of its pieces, in the order in which they first
      appear. */
  lemma {:induction false} OrderIsFirstAppearance(pieces: seq<Piece>)
    ensures var order := SectionOrder(pieces);
            (forall i | 0 <= i < |pieces| :: pieces[i].name in order)
            && (forall i | 0 <= i < |order| :: FirstPiece(pieces, order[i]) < |pieces|)
            && forall i, j | 0 <= i < j < |order| :: FirstPiece(pieces, order[i]) < FirstPiece(pieces, order[j])
    decreases |pieces|
  {
    if pieces != [] {
      var init, name := pieces[..|pieces| - 1], pieces[|pieces| - 1].name;
      OrderIsFirstAppearance(init);
      var order := SectionOrder(pieces);
      assert order == if name in SectionOrder(init) then SectionOrder(init) else SectionOrder(init) + [name];
      hide SectionOrder;
      hide FirstPiece;
      forall i | 0 <= i < |order|
        ensures FirstPiece(pieces, order[i]) < |pieces|
        ensures i < |SectionOrder(init)| ==> FirstPiece(pieces, order[i]) == FirstPiece(init, order[i])
        ensures i == |SectionOrder(init)| ==> FirstPiece(pieces, order[i]) == |init|
      {
        FirstInit(pieces, order[i]);
        if i == |SectionOrder(init)| { NotAmong(init, order[i]); }
      }
      forall i | 0 <= i < |pieces|
        ensures pieces[i].name in order
      {
        if i < |init| { assert init[i] == pieces[i]; }
      }
    }
  }

  lemma NotAmong(pieces: seq<Piece>, l: string)
    requires forall i | 0 <= i < |pieces| :: pieces[i].name != l
    ensures FirstPiece(pieces, l) == |pieces|
  {
  }

  /** Items of section `name` in the first `k` pieces. */
  function ItemsBefore(pieces: seq<Piece>, name: string, k: nat): nat
    requires k <= |pieces|
  {
    if k == 0 then 0
    else ItemsBefore(pieces, name, k - 1) + if pieces[k - 1].name == name then |pieces[k - 1].items| else 0
  }

  lemma {:induction false} BeforeInit(pieces: seq<Piece>, name: string, k: nat)
    requires pieces != [] && k < |pieces|
    ensures ItemsBefore(pieces[..|pieces| - 1], name, k) == ItemsBefore(pieces, name, k)
    decreases k
  {
    if k > 0 { BeforeInit(pieces, name, k - 1); }
  }

  lemma {:induction false} ConcatLength(pieces: seq<Piece>, name: string)
    ensures |ConcatItems(pieces, name)| == ItemsBefore(pieces, name, |pieces|)
    decreases |pieces|
  {
    if pieces != [] {
      ConcatLength(pieces[..|pieces| - 1], name);
      BeforeInit(pieces, name, |pieces| - 1);
    }
  }

  /** Every piece stands whole in its section, after the pieces of that section before it. */
  lemma {:induction false} PieceInSection(pieces: seq<Piece>, k: nat)
    requires k < |pieces|
    ensures var name, all := pieces[k].name, ConcatItems(pieces, pieces[k].name);
            var off := ItemsBefore(pieces, name, k);
            off + |pieces[k].items| <= |all| && all[off..off + |pieces[k].items|] == pieces[k].items
    decreases |pieces|
  {
    hide ConcatItems, ItemsBefore;
    var init, name := pieces[..|pieces| - 1], pieces[k].name;
    ConcatLength(init, name);
    ConcatLast(pieces, name);
    BeforeInit(pieces, name, |init|);
    if k < |init| {
      PieceInSection(init, k);
      BeforeInit(pieces, name, k);
      var off := ItemsBefore(pieces, name, k);
      var before, all := ConcatItems(init, name), ConcatItems(pieces, name);
      assert all[..|before|] == before;
      assert all[off..off + |pieces[k].items|] == before[off..off + |pieces[k].items|];
    }
  }

  lemma ConcatLast(pieces: seq<Piece>, name: string)
    requires pieces != []
    ensures var last := pieces[|pieces| - 1];
            ConcatItems(pieces, name) == ConcatItems(pieces[..|pieces| - 1], name) + if last.name == name then last.items else []
  {
  }

  // ---- bases ----------------------------------------------------------------------

  lemma {:induction false} BaseAppended(bases: Bases, more: (string, nat), name: string)
    ensures SectionBase(bases + [more], name)
         == if Pinned(bases, name) then SectionBase(bases, name) else if more.0 == name then more.1 else 0
    decreases |bases|
  {
    if bases == [] {
      assert [more][1..] == [];
    } else {
      assert (bases + [more])[1..] == bases[1..] + [more];
      BaseAppended(bases[1..], more, name);
      PinnedTail(bases, name);
    }
  }

  lemma PinnedTail(bases: Bases, name: string)
    requires bases != []
    ensures Pinned(bases, name) <==> bases[0].0 == name || Pinned(bases[1..], name)
  {
    if i :| 0 <= i < |bases| && bases[i].0 == name {
      if i > 0 { assert bases[1..][i - 1].0 == name; }
    }
    if i :| 0 <= i < |bases[1..]| && bases[1..][i].0 == name { assert bases[i + 1].0 == name; }
  }

  lemma {:induction false} UnpinnedBase(bases: Bases, name: string)
    requires !Pinned(bases, name)
    ensures SectionBase(bases, name) == 0
    decreases |bases|
  {
    if bases != [] {
      PinnedTail(bases, name);
      UnpinnedBase(bases[1..], name);
    }
  }

  /** A section lies at the base the options give it first, and at 0 if they give none, whatever the
      other sections. */
  lemma {:induction false} BasesAssigned(opts: Bases, order: seq<string>, name: string)
    ensures SectionBase(AssignBases(opts, order), name) == if Pinned(opts, name) then SectionBase(opts, name) else 0
    ensures Pinned(opts, name) ==> Pinned(AssignBases(opts, order), name)
    decreases |order|
  {
    if order == [] {
      if !Pinned(opts, name) { UnpinnedBase(opts, name); }
    } else {
      var init, last := order[..|order| - 1], order[|order| - 1];
      BasesAssigned(opts, init, name);
      if !Pinned(opts, last) {
        var bases := AssignBases(opts, init);
        BaseAppended(bases, (last, 0), name);
        if Pinned(bases, name) { PinnedKept(bases, (last, 0), name); }
        if !Pinned(bases, name) { UnpinnedBase(bases, name); }
      }
    }
  }

  lemma PinnedKept(bases: Bases, more: (string, nat), name: string)
    requires Pinned(bases, name)
    ensures Pinned(bases + [more], name)
  {
    var i :| 0 <= i < |bases| && bases[i].0 == name;
    assert (bases + [more])[i].0 == name;
  }

  // ---- the whole link -------------------------------------------------------------

  /** Piece `k` stands whole among `all`, after the items of the earlier pieces of its section. */
  ghost predicate PieceAt(pieces: seq<Piece>, all: seq<Item>, k: nat) {
    k < |pieces|
    && var off, n := ItemsBefore(pieces, pieces[k].name, k), |pieces[k].items|;
       off + n <= |all| && all[off..off + n] == pieces[k].items
  }

  ghost predicate HasSection(merged: seq<Merged>, name: string) {
    exists j :: 0 <= j < |merged| && merged[j].name == name
  }

  /** Sections of a link: one for each name among its pieces, in the order of first appearance. */
  ghost predicate SectionsAre(pieces: seq<Piece>, merged: seq<Merged>) {
    (forall k | 0 <= k < |pieces| :: HasSection(merged, pieces[k].name))
    && (forall j | 0 <= j < |merged| :: FirstPiece(pieces, merged[j].name) < |pieces|)
    && forall i, j | 0 <= i < j < |merged| :: FirstPiece(pieces, merged[i].name) < FirstPiece(pieces, merged[j].name)
  }

  /** A section holds every piece of its name in link order and nothing else. */
  ghost predicate HoldsPieces(pieces: seq<Piece>, m: Merged) {
    |m.items| == ItemsBefore(pieces, m.name, |pieces|)
    && forall k: nat | k < |pieces| && pieces[k].name == m.name :: PieceAt(pieces, m.items, k)
  }

  /** The merged sections of a link, told from its pieces. */
  ghost predicate MergesTo(pieces: seq<Piece>, merged: seq<Merged>) {
    SectionsAre(pieces, merged) && forall j | 0 <= j < |merged| :: HoldsPieces(pieces, merged[j])
  }

  lemma MergedAre(pieces: seq<Piece>)
    ensures var merged, order := MergePieces(pieces), SectionOrder(pieces);
            |merged| == |order|
            && forall j | 0 <= j < |merged| :: merged[j] == Merged(order[j], ConcatItems(pieces, order[j]))
  {
    hide SectionOrder, ConcatItems;
  }

  lemma SectionsMerge(pieces: seq<Piece>)
    ensures SectionsAre(pieces, MergePieces(pieces))
  {
    hide SectionOrder, ConcatItems, MergePieces, FirstPiece;
    var merged, order := MergePieces(pieces), SectionOrder(pieces);
    MergedAre(pieces);
    OrderIsFirstAppearance(pieces);
    forall j | 0 <= j < |merged| ensures merged[j].name == order[j] && FirstPiece(pieces, merged[j].name) < |pieces| {
    }
    forall i, j | 0 <= i < j < |merged|
      ensures FirstPiece(pieces, merged[i].name) < FirstPiece(pieces, merged[j].name)
    {
      assert merged[i].name == order[i] && merged[j].name == order[j];
    }
    forall k | 0 <= k < |pieces|
      ensures HasSection(merged, pieces[k].name)
    {
      assert pieces[k].name in order;
      var j :| 0 <= j < |order| && order[j] == pieces[k].name;
      assert merged[j].name == pieces[k].name;
    }
  }

  lemma SectionHolds(pieces: seq<Piece>, name: string)
    ensures HoldsPieces(pieces, Merged(name, ConcatItems(pieces, name)))
  {
    hide ConcatItems, ItemsBefore, PieceAt;
    ConcatLength(pieces, name);
    forall k: nat | k < |pieces| && pieces[k].name == name ensures PieceAt(pieces, ConcatItems(pieces, name), k) {
      ItsPlace(pieces, k);
    }
  }

  lemma PiecesMerge(pieces: seq<Piece>)
    ensures MergesTo(pieces, MergePieces(pieces))
  {
    hide SectionOrder, ConcatItems, MergePieces, SectionsAre, HoldsPieces;
    SectionsMerge(pieces);
    MergedAre(pieces);
    forall j | 0 <= j < |MergePieces(pieces)| ensures HoldsPieces(pieces, MergePieces(pieces)[j]) {
      SectionHolds(pieces, SectionOrder(pieces)[j]);
    }
  }

  lemma ItsPlace(pieces: seq<Piece>, k: nat)
    requires k < |pieces|
    ensures PieceAt(pieces, ConcatItems(pieces, pieces[k].name), k)
  {
    hide ConcatItems, ItemsBefore;
    PieceInSection(pieces, k);
  }

  /** A piece and `k` empty ones of its section. */
  function Padded(items: seq<Item>, k: nat): seq<Piece> {
    if k == 0 then [Piece("f", "text", items)] else Padded(items, k - 1) + [Piece("f", "text", [])]
  }

  /** Empty pieces add nothing. */
  lemma {:induction false} PaddedIs(items: seq<Item>, k: nat)
    ensures |Padded(items, k)| == k + 1
    ensures SectionOrder(Padded(items, k)) == ["text"] && ConcatItems(Padded(items, k), "text") == items
  {
    hide SectionOrder, ConcatItems;
    if k == 0 {
      EmptyOrder();
      OneMore([], Piece("f", "text", items));
      assert [] + Padded(items, 0) == Padded(items, 0) && [] + ["text"] == ["text"] && [] + items == items;
    } else {
      PaddedIs(items, k - 1);
      OneMore(Padded(items, k - 1), Piece("f", "text", []));
      assert items + [] == items;
    }
  }

  lemma EmptyOrder()
    ensures SectionOrder([]) == [] && ConcatItems([], "text") == []
  {
  }

  lemma OneMore(pieces: seq<Piece>, p: Piece)
    ensures SectionOrder(pieces + [p]) == if p.name in SectionOrder(pieces) then SectionOrder(pieces) else SectionOrder(pieces) + [p.name]
    ensures ConcatItems(pieces + [p], p.name) == ConcatItems(pieces, p.name) + p.items
  {
    assert (pieces + [p])[..|pieces|] == pieces;
  }

  /** Sections in the first `n` objects. */
  function SectionsBefore(inputs: seq<(string, ObjectFile)>, n: nat): nat
    requires n <= |inputs|
  {
    if n == 0 then 0 else SectionsBefore(inputs, n - 1) + |inputs[n - 1].1.sections|
  }

  /** `p` is section `k` of an object read from `fp`, flattened. */
  ghost predicate IsPiece(p: Piece, fp: string, sections: seq<Section>, k: nat) {
    k < |sections| && p.source == fp && p.name == sections[k].name && ToItems(fp, [], sections[k].records) == Ok(p.items)
  }

  lemma {:induction false} ObjectPieceIs(fp: string, sections: seq<Section>, n: nat, k: nat)
    requires k < n <= |sections| && ObjectPieces(fp, sections, n).Ok?
    ensures var ps := ObjectPieces(fp, sections, n).value; |ps| == n && IsPiece(ps[k], fp, sections, k)
    decreases n
  {
    hide ToItems;
    if k < n - 1 { ObjectPieceIs(fp, sections, n - 1, k); } else { ObjectPieceCount(fp, sections, n - 1); }
  }

  lemma {:induction false} ObjectPieceCount(fp: string, sections: seq<Section>, n: nat)
    requires n <= |sections| && ObjectPieces(fp, sections, n).Ok?
    ensures |ObjectPieces(fp, sections, n).value| == n
  {
    hide ToItems;
    if n > 0 { ObjectPieceCount(fp, sections, n - 1); }
  }

  lemma {:induction false} PieceCounts(inputs: seq<(string, ObjectFile)>, n: nat)
    requires n <= |inputs| && AllPieces(inputs, n).Ok?
    ensures |AllPieces(inputs, n).value| == SectionsBefore(inputs, n)
  {
    hide ObjectPieces;
    if n > 0 {
      PieceCounts(inputs, n - 1);
      var (fp, obj) := inputs[n - 1];
      ObjectPieceCount(fp, obj.sections, |obj.sections|);
    }
  }

  /** The pieces of a link are the sections of its objects, object after object, section after section. */
  lemma {:induction false} PiecesInOrder(inputs: seq<(string, ObjectFile)>, n: nat, o: nat, k: nat)
    requires o < n <= |inputs| && k < |inputs[o].1.sections| && AllPieces(inputs, n).Ok?
    ensures var ps, at := AllPieces(inputs, n).value, SectionsBefore(inputs, o) + k;
            |ps| == SectionsBefore(inputs, n) && at < |ps| && IsPiece(ps[at], inputs[o].0, inputs[o].1.sections, k)
    decreases n
  {
    hide ObjectPieces, IsPiece;
    PieceCounts(inputs, n);
    PieceCounts(inputs, n - 1);
    if o < n - 1 {
      PiecesInOrder(inputs, n - 1, o, k);
    } else {
      ObjectPieceIs(inputs[o].0, inputs[o].1.sections, |inputs[o].1.sections|, k);
    }
  }

  /** Option `i` is the first that names `name`. */
  ghost predicate GivenAt(opts: Bases, i: nat, name: string) {
    i < |opts| && opts[i].0 == name && forall e | 0 <= e < i :: opts[e].0 != name
  }

  lemma {:induction false} GivenBase(opts: Bases, i: nat, name: string)
    requires GivenAt(opts, i, name)
    ensures SectionBase(opts, name) == opts[i].1 && Pinned(opts, name)
    decreases i
  {
    assert opts[i].0 == name;
    if i > 0 {
      assert opts[0].0 != name;
      assert GivenAt(opts[1..], i - 1, name) by { forall e | 0 <= e < i - 1 ensures opts[1..][e].0 != name { assert opts[e + 1].0 != name; } }
      GivenBase(opts[1..], i - 1, name);
      assert opts[1..][i - 1] == opts[i];
    }
  }

  /** Section `name` lies where the first option that names it says, and at 0 without one. */
  ghost predicate BasesGiven(opts: Bases, bases: Bases) {
    (forall i: nat, name | GivenAt(opts, i, name) :: SectionBase(bases, name) == opts[i].1)
    && forall name | !Pinned(opts, name) :: SectionBase(bases, name) == 0
  }

  lemma AssignedGiven(opts: Bases, order: seq<string>)
    ensures BasesGiven(opts, AssignBases(opts, order))
  {
    hide AssignBases, SectionBase, Pinned;
    forall i: nat, name | GivenAt(opts, i, name) ensures SectionBase(AssignBases(opts, order), name) == opts[i].1 {
      GivenBase(opts, i, name);
      BasesAssigned(opts, order, name);
    }
    forall name | !Pinned(opts, name) ensures SectionBase(AssignBases(opts, order), name) == 0 {
      BasesAssigned(opts, order, name);
    }
  }

  /** What a link is, from its pieces and options on: the sections the pieces merge to, at the bases given,
      relaxed within the budget; words emitted with the symbols of that final layout; those symbols; and
      each section with its base and its final size. */
  lemma LinkedPieces(opts: Bases, pieces: seq<Piece>, lr: LinkResult)
    returns (merged: seq<Merged>, bases: Bases, relaxed: Relaxed, env: SymEnv, all: seq<(nat, Word)>)
    requires LinkPieces(opts, pieces) == Ok(lr)
    ensures MergesTo(pieces, merged) && BasesGiven(opts, bases)
    ensures RelaxLoop(merged, bases, map[], 4 * |pieces| + 16) == Ok(relaxed)
    ensures lr.symbols == Defs(merged, bases, relaxed) && BuildEnv(lr.symbols) == Ok(env)
    ensures EmitAll(merged, bases, relaxed, env, |merged|) == Ok(all) && MakeImage(all) == Ok(lr.words)
    ensures |lr.sections| == |merged| && forall j: nat | j < |merged| :: SectionAt(lr.sections[j], merged[j], bases, relaxed)
  {
    hide RelaxLoop, MergePieces, AssignBases, Defs, BuildEnv, EmitAll, MakeImage, FirstLongSection, MergesTo, BasesGiven, OffsetAt;
    merged, bases := MergePieces(pieces), AssignBases(opts, SectionOrder(pieces));
    PiecesMerge(pieces);
    AssignedGiven(opts, SectionOrder(pieces));
    relaxed := RelaxLoop(merged, bases, map[], BudgetFor(pieces)).value;
    env := BuildEnv(Defs(merged, bases, relaxed)).value;
    all := EmitAll(merged, bases, relaxed, env, |merged|).value;
  }

  /** A reported section: its name, its base and the words it has after relaxation. */
  ghost predicate SectionAt(p: PlacedSection, m: Merged, bases: Bases, relaxed: Relaxed) {
    p == PlacedSection(m.name, SectionBase(bases, m.name), OffsetAt(RelOf(relaxed, m.name), m.items, |m.items|))
  }

  /** `d` is the symbol that item `p` of section `j` defines under a layout. */
  ghost predicate Defines(merged: seq<Merged>, bases: Bases, relaxed: Relaxed, j: nat, p: nat, d: Def) {
    j < |merged| && p < |merged[j].items| && ItemDefines(SectionBase(bases, merged[j].name), RelOf(relaxed, merged[j].name), merged[j].items, p, d)
  }

  /** At its explicit offset, or where it stands; `extern` symbols define nothing. */
  ghost predicate ItemDefines(base: nat, rel: set<nat>, items: seq<Item>, p: nat, d: Def) {
    p < |items| && items[p].ItemSym? && items[p].linkage != Extern
    && var it := items[p];
       d == Def(it.src, it.name, it.linkage, base + if it.offset.Some? then it.offset.value else OffsetAt(rel, items, p))
  }

  lemma {:induction false} SectionSymbols(base: nat, rel: set<nat>, items: seq<Item>, n: nat, d: Def)
    requires n <= |items|
    ensures d in SectionDefs(base, rel, items, n) <==> exists p: nat :: p < n && ItemDefines(base, rel, items, p, d)
  {
    hide OffsetAt;
    if n > 0 {
      var m: nat := n - 1;
      SectionSymbols(base, rel, items, m, d);
      assert ItemDefines(base, rel, items, m, d) <==> d in SectionDefs(base, rel, items, n)[|SectionDefs(base, rel, items, m)|..];
    }
  }

  /** The symbols of a link are exactly what its symbol items define under the final layout. */
  lemma {:induction false} LinkedSymbols(merged: seq<Merged>, bases: Bases, relaxed: Relaxed, d: Def)
    ensures d in Defs(merged, bases, relaxed) <==> exists j: nat, p: nat :: Defines(merged, bases, relaxed, j, p, d)
    decreases |merged|
  {
    hide SectionDefs, ItemDefines;
    if merged != [] {
      var init, n := merged[..|merged| - 1], |merged| - 1;
      var m := merged[n];
      LinkedSymbols(init, bases, relaxed, d);
      SectionSymbols(SectionBase(bases, m.name), RelOf(relaxed, m.name), m.items, |m.items|, d);
      forall j: nat, p: nat | j < n ensures Defines(init, bases, relaxed, j, p, d) <==> Defines(merged, bases, relaxed, j, p, d) {}
      if exists p: nat :: p < |m.items| && ItemDefines(SectionBase(bases, m.name), RelOf(relaxed, m.name), m.items, p, d) {
        var p: nat :| p < |m.items| && ItemDefines(SectionBase(bases, m.name), RelOf(relaxed, m.name), m.items, p, d);
        assert Defines(merged, bases, relaxed, n, p, d);
      }
    }
  }

  // ---- placeholders ---------------------------------------------------------------

  /** `w'` is the word `w` with its immediate replaced. */
  predicate Filled(w: int, w': int, imm: int) {
    0 <= w' < 4096 && w' % 64 == imm && w' / 64 == Mask12(w) / 64
  }

  /** What patching promises of each kind of relocation: the value over two immediates for loads, jumps
      and calls, the jump word of the latter as it was; the value itself for a data word; and for a
      branch the fields that encode the distance, or an error exactly when it is out of reach. */
  lemma PatchMeaning(kind: RelocKind, ws: seq<int>, val: int, addr: int)
    requires |ws| == RelocSpan(kind)
    ensures var v, r := Mask12(val), Patch(kind, ws, val, addr);
            if kind == Imm12 then r == Ok([v])
            else if kind == Imm6Pc then
              if InRange(v - addr) then
                r.Ok? && |r.value| == 1 && 0 <= r.value[0] < 4096
                && BranchOffset(r.value[0] / 64 % 8, r.value[0] % 64) == v - addr
                && r.value[0] / 512 == Mask12(ws[0]) / 512
              else r == Err(RelocTooFar(v - addr))
            else
              r.Ok? && |r.value| == |ws| && Filled(ws[0], r.value[0], v / 64) && Filled(ws[1], r.value[1], v % 64)
              && (|ws| == 3 ==> r.value[2] == ws[2])
  {
    var v := Mask12(val);
    if kind == Imm6Pc {
      if InRange(v - addr) { BranchFields(ws[0], v - addr); }
    } else if kind != Imm12 {
      Fills(ws[0], v / 64);
      Fills(ws[1], v % 64);
    }
  }

  lemma Fills(w: int, imm: int)
    requires 0 <= imm < 64
    ensures Filled(w, SetImm6(w, imm), imm)
  {
  }

  lemma BranchFields(w: int, off: int)
    requires InRange(off)
    ensures var w' := SetImm6(SetRd(w, if off < 0 then 7 else 0), off);
            0 <= w' < 4096 && BranchOffset(w' / 64 % 8, w' % 64) == off && w' / 512 == Mask12(w) / 512
  {
    var hi, rd: Reg, low := Mask12(w) / 512, if off < 0 then 7 else 0, Mask12(w) % 64;
    HighBits(w);
    Fields(hi, rd, low);
    Fields(hi, rd, off % 64);
    MaskId(hi * 512 + rd * 64 + low);
    Reached(off);
    hide *;
    SetRdIs(w, rd);
    SetImmIs(hi * 512 + rd * 64 + low, off);
  }

  lemma HighBits(w: int)
    ensures 0 <= Mask12(w) / 512 < 8
  {
  }

  /** A word of three fields, taken apart. */
  lemma Fields(hi: int, rd: int, low: int)
    requires 0 <= hi < 8 && 0 <= rd < 8 && 0 <= low < 64
    ensures var w := hi * 512 + rd * 64 + low;
            0 <= w < 4096 && w / 512 == hi && w / 64 == hi * 8 + rd && w / 64 % 8 == rd && w % 64 == low
  {
    Split(hi, 512, rd * 64 + low);
    Split(hi * 8 + rd, 64, low);
    Split(hi, 8, rd);
  }

  lemma Reached(off: int)
    requires InRange(off)
    ensures BranchOffset(if off < 0 then 7 else 0, off % 64) == off && 0 <= off % 64 < 64
  {
  }

  lemma SetRdIs(w: int, rd: Reg)
    ensures SetRd(w, rd) == Mask12(w) / 512 * 512 + rd * 64 + Mask12(w) % 64
  {
  }

  lemma SetImmIs(w: int, v: int)
    ensures SetImm6(w, v) == Mask12(w) / 64 * 64 + v % 64
  {
  }
}
