/** The linker, given the object the assembler writes, computes the abstract relaxation of the
    program as well: its relaxed item indices are those of the abstractly relaxed statements. */
module LinkRelax {
  import opened Isa
  import opened ObjFile
  import opened Linker
  import opened Symbols
  import opened Relaxation
  import opened Emission
  import opened Flatten
  import opened Assembler
  import P = Programs

  // ---- the items of a program -----------------------------------------------------

  /** Statements with addresses attached; the addresses do not matter for the items. */
  ghost predicate Places(prog: seq<Stmt>, ps: seq<Placed>) {
    |ps| == |prog| && forall i | 0 <= i < |prog| :: ps[i].stmt == prog[i]
  }

  function SymItems(prog: seq<Stmt>, fp: string, labels: seq<string>): seq<Item> {
    seq(|labels|, k requires 0 <= k < |labels| => ItemSym(fp, labels[k], LinkageOf(prog, labels[k]), None))
  }

  function LocItems(ps: seq<Placed>, fp: string, i: nat): seq<Item>
    requires i < |ps|
  {
    var s := ps[i].stmt;
    if s.op.Empty? || CurLoc(ps, i) == Some((s.file, s.line)) then [] else [ItemLoc(fp, s.line)]
  }

  function FixedItems(ws: seq<Word>): seq<Item> {
    seq(|ws|, k requires 0 <= k < |ws| => ItemWord(ws[k]))
  }

  function WordOpItem(fp: string, op: WordOp): Item {
    match op
    case Const(v) => ItemWord(Mask12(v))
    case Ref(name) => ItemReloc(fp, Imm12, [0], name, 0)
  }

  function WordOpItems(fp: string, ops: seq<WordOp>): seq<Item> {
    seq(|ops|, k requires 0 <= k < |ops| => WordOpItem(fp, ops[k]))
  }

  function OpItems(fp: string, op: Op): seq<Item> {
    match op
    case Empty => []
    case Directive(_, _) => []
    case Fixed(ws) => FixedItems(ws)
    case Words(ops) => WordOpItems(fp, ops)
    case LoadLabel(rd, name) =>
      [ItemReloc(fp, LiImm12, [EncodeRi(OP_ADDI, rd, 0), EncodeRi(OP_LUI, rd, 0)], name, 0)]
    case Branch(kind, name) => [ItemBrel(fp, kind, name, 0)]
  }

  function HeadItems(prog: seq<Stmt>, ps: seq<Placed>, fp: string, i: nat): seq<Item>
    requires i < |ps|
  {
    SymItems(prog, fp, ps[i].stmt.labels) + LocItems(ps, fp, i)
  }

  function StmtItems(prog: seq<Stmt>, ps: seq<Placed>, fp: string, i: nat): seq<Item>
    requires i < |ps|
  {
    HeadItems(prog, ps, fp, i) + OpItems(fp, ps[i].stmt.op)
  }

  function ItemsOf(prog: seq<Stmt>, ps: seq<Placed>, fp: string, m: nat): seq<Item>
    requires m <= |ps|
  {
    if m == 0 then [] else ItemsOf(prog, ps, fp, m - 1) + StmtItems(prog, ps, fp, m - 1)
  }

  // ---- from records to those items ------------------------------------------------

  lemma {:induction false} SymsToItems(prog: seq<Stmt>, src: string, acc: seq<Item>, labels: seq<string>)
    ensures ToItems(src, acc, SymRecords(labels, prog)) == Ok(acc + SymItems(prog, src, labels))
    decreases |labels|
  {
    if labels == [] {
      assert acc + SymItems(prog, src, labels) == acc;
    } else {
      var init, l := labels[..|labels| - 1], labels[|labels| - 1];
      SymsToItems(prog, src, acc, init);
      var r := RecSym(l, LinkageOf(prog, l), None);
      assert SymRecords(labels, prog) == SymRecords(init, prog) + [r];
      ToItemsConcat(src, acc, SymRecords(init, prog), [r]);
      var acc' := acc + SymItems(prog, src, init);
      ToItemsOne(src, acc', r);
      assert acc' + [ItemSym(src, l, LinkageOf(prog, l), None)] == acc + SymItems(prog, src, labels);
    }
  }

  lemma LocToItems(src: string, acc: seq<Item>, ps: seq<Placed>, i: nat)
    requires i < |ps|
    ensures ToItems(src, acc, LocRecords(ps, i)) == Ok(acc + LocItems(ps, src, i))
  {
    var s := ps[i].stmt;
    if s.op.Empty? || CurLoc(ps, i) == Some((s.file, s.line)) {
      assert acc + LocItems(ps, src, i) == acc;
    } else {
      ToItemsOne(src, acc, RecLoc(s.file, s.line));
    }
  }

  lemma {:induction false} FixedToItems(src: string, acc: seq<Item>, ws: seq<Word>)
    ensures ToItems(src, acc, FixedRecords(ws)) == Ok(acc + FixedItems(ws))
    decreases |ws|
  {
    if ws == [] {
      assert acc + FixedItems(ws) == acc;
    } else {
      var init, w := ws[..|ws| - 1], ws[|ws| - 1];
      FixedToItems(src, acc, init);
      assert FixedRecords(ws) == FixedRecords(init) + [RecWord(w)];
      ToItemsConcat(src, acc, FixedRecords(init), [RecWord(w)]);
      ToItemsOne(src, acc + FixedItems(init), RecWord(w));
      assert acc + FixedItems(init) + [ItemWord(w)] == acc + FixedItems(ws);
    }
  }

  lemma RefToItems(src: string, acc: seq<Item>, name: string)
    ensures ToItems(src, acc, [RecWord(0), RecReloc(Imm12, name, 0)])
            == Ok(acc + [ItemReloc(src, Imm12, [0], name, 0)])
  {
    hide ToItems;
    var r0, r1 := RecWord(0), RecReloc(Imm12, name, 0);
    assert [r0, r1] == [r0] + [r1];
    ToItemsOne(src, acc, r0);
    ToItemsConcat(src, acc, [r0], [r1]);
    var a1 := acc + [ItemWord(0)];
    PopOne(0, acc, 0);
    assert [0] + [] == [0];
    ToItemsOne(src, a1, r1);
  }

  lemma {:induction false} WordOpsToItems(src: string, acc: seq<Item>, ops: seq<WordOp>)
    ensures ToItems(src, acc, WordOpRecords(ops)) == Ok(acc + WordOpItems(src, ops))
    decreases |ops|
  {
    hide ToItems;
    if ops == [] {
      ToItemsNil(src, acc);
      assert acc + WordOpItems(src, ops) == acc;
    } else {
      var init, op := ops[..|ops| - 1], ops[|ops| - 1];
      WordOpsToItems(src, acc, init);
      var acc' := acc + WordOpItems(src, init);
      assert acc' + [WordOpItem(src, op)] == acc + WordOpItems(src, ops);
      match op
      case Const(v) =>
        ToItemsConcat(src, acc, WordOpRecords(init), [RecWord(Mask12(v))]);
        ToItemsOne(src, acc', RecWord(Mask12(v)));
      case Ref(name) =>
        ToItemsConcat(src, acc, WordOpRecords(init), [RecWord(0), RecReloc(Imm12, name, 0)]);
        RefToItems(src, acc', name);
    }
  }

  lemma OpToItems(src: string, acc: seq<Item>, op: Op)
    requires StmtRecords(op).Ok?
    ensures ToItems(src, acc, StmtRecords(op).value) == Ok(acc + OpItems(src, op))
  {
    hide ToItems, EncodeRi;
    match op
    case Empty => ToItemsNil(src, acc); assert acc + [] == acc;
    case Directive(_, _) => ToItemsNil(src, acc); assert acc + [] == acc;
    case Fixed(ws) => FixedToItems(src, acc, ws);
    case Words(ops) => WordOpsToItems(src, acc, ops);
    case LoadLabel(rd, name) => LoadRecords(src, acc, EncodeRi(OP_LUI, rd, 0), EncodeRi(OP_ADDI, rd, 0), name);
    case Branch(kind, name) => ToItemsOne(src, acc, RecBrel(kind, name, 0));
  }

  /** The records of a program flatten to its items. */
  lemma {:induction false} RecordsToItemsOf(prog: seq<Stmt>, ps: seq<Placed>, src: string, n: nat)
    requires n <= |ps| && P.NoGaps(ps) && BuildRecords(prog, ps, n).Ok?
    ensures ToItems(src, [], BuildRecords(prog, ps, n).value) == Ok(ItemsOf(prog, ps, src, n))
  {
    hide ToItems, SymRecords, LocRecords, StmtRecords, SymItems, LocItems, OpItems;
    if n == 0 {
      ToItemsNil(src, []);
    } else {
      RecordsToItemsOf(prog, ps, src, n - 1);
      var i := n - 1;
      var p := ps[i];
      var acc := BuildRecords(prog, ps, i).value;
      var rs0, rs1, rs2 := SymRecords(p.stmt.labels, prog), LocRecords(ps, i), StmtRecords(p.stmt.op).value;
      assert BuildRecords(prog, ps, n).value == acc + (rs0 + (rs1 + rs2));
      var a0 := ItemsOf(prog, ps, src, i);
      var a1 := a0 + SymItems(prog, src, p.stmt.labels);
      var a2 := a1 + LocItems(ps, src, i);
      ToItemsConcat(src, [], acc, rs0 + (rs1 + rs2));
      SymsToItems(prog, src, a0, p.stmt.labels);
      ToItemsConcat(src, a0, rs0, rs1 + rs2);
      LocToItems(src, a1, ps, i);
      ToItemsConcat(src, a1, rs1, rs2);
      OpToItems(src, a2, p.stmt.op);
      assert a2 + OpItems(src, p.stmt.op) == a0 + StmtItems(prog, ps, src, i);
    }
  }

  // ---- offsets --------------------------------------------------------------------

  /** Where the operation of statement `i` begins; for a branch, its item. */
  function Idx(prog: seq<Stmt>, ps: seq<Placed>, fp: string, i: nat): nat
    requires i < |ps|
  {
    |ItemsOf(prog, ps, fp, i)| + |HeadItems(prog, ps, fp, i)|
  }

  /** The item indices of the statements in `r`. */
  function IdxSet(prog: seq<Stmt>, ps: seq<Placed>, fp: string, r: set<nat>): set<nat> {
    set i | i in r && i < |ps| :: Idx(prog, ps, fp, i)
  }

  lemma {:induction false} ItemsGrow(prog: seq<Stmt>, ps: seq<Placed>, fp: string, i: nat, j: nat)
    requires i <= j <= |ps|
    ensures |ItemsOf(prog, ps, fp, i)| <= |ItemsOf(prog, ps, fp, j)|
    ensures ItemsOf(prog, ps, fp, j)[..|ItemsOf(prog, ps, fp, i)|] == ItemsOf(prog, ps, fp, i)
    decreases j
  {
    hide StmtItems;
    if i < j { ItemsGrow(prog, ps, fp, i, j - 1); }
  }

  lemma IdxBounds(prog: seq<Stmt>, ps: seq<Placed>, fp: string, i: nat)
    requires i < |ps|
    ensures |ItemsOf(prog, ps, fp, i)| <= Idx(prog, ps, fp, i)
    ensures Idx(prog, ps, fp, i) + |OpItems(fp, ps[i].stmt.op)| == |ItemsOf(prog, ps, fp, i + 1)|
  {
    hide HeadItems, OpItems;
  }

  /** Different branches have different item indices. */
  lemma IdxInjective(prog: seq<Stmt>, ps: seq<Placed>, fp: string, i: nat, j: nat)
    requires i < |ps| && j < |ps| && ps[i].stmt.op.Branch? && ps[j].stmt.op.Branch?
    requires Idx(prog, ps, fp, i) == Idx(prog, ps, fp, j)
    ensures i == j
  {
    hide ItemsOf, Idx;
    IdxBounds(prog, ps, fp, i);
    IdxBounds(prog, ps, fp, j);
    if i < j { ItemsGrow(prog, ps, fp, i + 1, j); } else if j < i { ItemsGrow(prog, ps, fp, j + 1, i); }
  }

  lemma IdxInSet(prog: seq<Stmt>, ps: seq<Placed>, fp: string, r: set<nat>, i: nat)
    requires Places(prog, ps) && P.OnlyBranches(prog, r) && i < |prog| && prog[i].op.Branch?
    ensures Idx(prog, ps, fp, i) in IdxSet(prog, ps, fp, r) <==> i in r
  {
    hide Idx;
    if Idx(prog, ps, fp, i) in IdxSet(prog, ps, fp, r) {
      var j :| j in r && j < |ps| && Idx(prog, ps, fp, j) == Idx(prog, ps, fp, i);
      IdxInjective(prog, ps, fp, i, j);
    }
  }

  /** Words taken by a stretch of items that starts at index `k`. */
  function SizeFrom(rel: set<nat>, k: nat, items: seq<Item>): nat {
    if items == [] then 0
    else SizeFrom(rel, k, items[..|items| - 1]) + ItemSize(rel, k + |items| - 1, items[|items| - 1])
  }

  lemma {:induction false} OffsetOverConcat(rel: set<nat>, xs: seq<Item>, ys: seq<Item>)
    ensures OffsetAt(rel, xs + ys, |xs| + |ys|) == OffsetAt(rel, xs, |xs|) + SizeFrom(rel, |xs|, ys)
    decreases |ys|
  {
    hide ItemSize;
    if ys == [] {
      assert xs + ys == xs;
    } else {
      var init, y := ys[..|ys| - 1], ys[|ys| - 1];
      OffsetOverConcat(rel, xs, init);
      assert xs + ys == (xs + init) + [y];
      OffsetPrefix(rel, xs + init, [y], |xs + init|);
    }
  }

  /** Items that take no room. */
  lemma {:induction false} WeightlessSize(rel: set<nat>, k: nat, items: seq<Item>)
    requires forall i | 0 <= i < |items| :: items[i].ItemSym? || items[i].ItemLoc?
    ensures SizeFrom(rel, k, items) == 0
    decreases |items|
  {
    if items != [] { WeightlessSize(rel, k, items[..|items| - 1]); }
  }

  lemma {:induction false} UnitSize(rel: set<nat>, k: nat, items: seq<Item>)
    requires forall i | 0 <= i < |items| :: items[i].ItemWord? || (items[i].ItemReloc? && items[i].kind == Imm12)
    ensures SizeFrom(rel, k, items) == |items|
    decreases |items|
  {
    if items != [] { UnitSize(rel, k, items[..|items| - 1]); }
  }

  lemma OneSize(rel: set<nat>, k: nat, it: Item)
    ensures SizeFrom(rel, k, [it]) == ItemSize(rel, k, it)
  {
    assert [it][..0] == [];
  }

  lemma OpSize(rel: set<nat>, k: nat, fp: string, op: Op)
    requires StmtRecords(op).Ok?
    ensures SizeFrom(rel, k, OpItems(fp, op)) == if op.Branch? && k in rel then 4 else StmtSize(op)
  {
    hide SizeFrom, EncodeRi;
    match op
    case Empty => WeightlessSize(rel, k, []);
    case Directive(_, _) => WeightlessSize(rel, k, []);
    case Fixed(ws) => UnitSize(rel, k, FixedItems(ws));
    case Words(ops) => UnitSize(rel, k, WordOpItems(fp, ops));
    case LoadLabel(_, _) => OneSize(rel, k, OpItems(fp, op)[0]);
    case Branch(_, _) => OneSize(rel, k, OpItems(fp, op)[0]);
  }

  lemma HeadWeightless(prog: seq<Stmt>, ps: seq<Placed>, fp: string, i: nat)
    requires i < |ps|
    ensures var h := HeadItems(prog, ps, fp, i); forall k | 0 <= k < |h| :: h[k].ItemSym? || h[k].ItemLoc?
  {
    hide CurLoc, LinkageOf;
  }

  /** Every statement can be written as records. */
  ghost predicate Recordable(prog: seq<Stmt>) { forall i | 0 <= i < |prog| :: StmtRecords(prog[i].op).Ok? }

  /** Offsets in the section are the abstract addresses, at the start of each statement and up to
      its operation. */
  lemma {:induction false} OffsetsAre(prog: seq<Stmt>, ps: seq<Placed>, fp: string, r: set<nat>, m: nat)
    requires m <= |prog| && Places(prog, ps) && Recordable(prog) && P.OnlyBranches(prog, r)
    ensures var items := ItemsOf(prog, ps, fp, m);
            OffsetAt(IdxSet(prog, ps, fp, r), items, |items|) == P.Addr(prog, r, m)
  {
    hide *;
    var rel := IdxSet(prog, ps, fp, r);
    if m == 0 {
      OffsetsBase(prog, ps, fp, r);
    } else {
      var i := m - 1;
      StmtFacts(prog, ps, i);
      OffsetsAre(prog, ps, fp, r, i);
      var x, h, o := ItemsOf(prog, ps, fp, i), HeadItems(prog, ps, fp, i), OpItems(fp, ps[i].stmt.op);
      ItemsStep(prog, ps, fp, i);
      OffsetOverConcat(rel, x, h);
      HeadWeightless(prog, ps, fp, i);
      WeightlessSize(rel, |x|, h);
      OffsetOverConcat(rel, x + h, o);
      OpSize(rel, |x + h|, fp, prog[i].op);
      if prog[i].op.Branch? { IdxInSet(prog, ps, fp, r, i); }
      AddrStep(prog, r, i);
      IdxIs(prog, ps, fp, i);
    }
  }

  lemma OffsetsBase(prog: seq<Stmt>, ps: seq<Placed>, fp: string, r: set<nat>)
    ensures OffsetAt(IdxSet(prog, ps, fp, r), ItemsOf(prog, ps, fp, 0), 0) == P.Addr(prog, r, 0) == 0
    ensures |ItemsOf(prog, ps, fp, 0)| == 0
  {
    hide IdxSet;
  }

  lemma IdxIs(prog: seq<Stmt>, ps: seq<Placed>, fp: string, i: nat)
    requires i < |ps|
    ensures Idx(prog, ps, fp, i) == |ItemsOf(prog, ps, fp, i) + HeadItems(prog, ps, fp, i)|
  {
    hide ItemsOf, HeadItems;
  }

  lemma ItemsStep(prog: seq<Stmt>, ps: seq<Placed>, fp: string, i: nat)
    requires i < |ps|
    ensures ItemsOf(prog, ps, fp, i + 1)
            == (ItemsOf(prog, ps, fp, i) + HeadItems(prog, ps, fp, i)) + OpItems(fp, ps[i].stmt.op)
  {
    hide HeadItems, OpItems;
  }

  lemma StmtFacts(prog: seq<Stmt>, ps: seq<Placed>, i: nat)
    requires i < |prog| && Places(prog, ps) && Recordable(prog)
    ensures ps[i].stmt == prog[i] && StmtRecords(prog[i].op).Ok? && |ps| == |prog|
  {
    hide StmtRecords;
  }

  lemma AddrStep(prog: seq<Stmt>, r: set<nat>, i: nat)
    requires i < |prog|
    ensures P.Addr(prog, r, i + 1) == P.Addr(prog, r, i) + if prog[i].op.Branch? && i in r then 4 else StmtSize(prog[i].op)
  {
    hide StmtSize;
  }

  /** The same, read off the items of the whole program, for any item of the head. */
  lemma HeadOffset(prog: seq<Stmt>, ps: seq<Placed>, fp: string, r: set<nat>, i: nat, k: nat)
    requires i < |prog| && Places(prog, ps) && Recordable(prog) && P.OnlyBranches(prog, r)
    requires k <= |HeadItems(prog, ps, fp, i)|
    ensures |ItemsOf(prog, ps, fp, i)| + k <= |ItemsOf(prog, ps, fp, |prog|)|
    ensures OffsetAt(IdxSet(prog, ps, fp, r), ItemsOf(prog, ps, fp, |prog|), |ItemsOf(prog, ps, fp, i)| + k)
            == P.Addr(prog, r, i)
  {
    hide *;
    var rel := IdxSet(prog, ps, fp, r);
    StmtFacts(prog, ps, i);
    OffsetsAre(prog, ps, fp, r, i);
    var x, h := ItemsOf(prog, ps, fp, i), HeadItems(prog, ps, fp, i);
    ItemsStep(prog, ps, fp, i);
    ItemsGrow(prog, ps, fp, i + 1, |prog|);
    HeadWeightless(prog, ps, fp, i);
    WeightlessSize(rel, |x|, h[..k]);
    OffsetOverConcat(rel, x, h[..k]);
    var all := ItemsOf(prog, ps, fp, |prog|);
    var n1 := |ItemsOf(prog, ps, fp, i + 1)|;
    assert all[..n1][..|x| + k] == x + h[..k];
    assert all == (x + h[..k]) + all[|x| + k..];
    OffsetPrefix(rel, x + h[..k], all[|x| + k..], |x| + k);
  }
}
