/** Flat assembly against assembling to an object and linking it: the same words, whenever the
    link succeeds, with the exact list of programs the flat path refuses. */
module FlatLink {
  import opened Isa
  import opened ObjFile
  import opened Linker
  import opened Sequences
  import opened Symbols
  import opened Relaxation
  import opened Emission
  import opened LinkGuarantees
  import opened Assembler
  import opened LinkRelax
  import opened LinkRounds
  import opened Flatten
  import F = FlatRelax
  import P = Programs

  // ---- the words of a program, stated once ----------------------------------------

  function Lab(prog: seq<Stmt>, r: set<nat>, l: string): int {
    match P.LabelAddr(prog, r, l)
    case None => 0
    case Some(a) => a
  }

  function WordOpValue(prog: seq<Stmt>, r: set<nat>, op: WordOp): Word {
    match op
    case Const(v) => Mask12(v)
    case Ref(name) => Mask12(Lab(prog, r, name))
  }

  function WordOpValues(prog: seq<Stmt>, r: set<nat>, ops: seq<WordOp>): seq<Word> {
    seq(|ops|, k requires 0 <= k < |ops| => WordOpValue(prog, r, ops[k]))
  }

  /** The words of statement `i` when the branches `r` are relaxed. */
  function WordsFor(prog: seq<Stmt>, r: set<nat>, i: nat): seq<Word>
    requires i < |prog|
  {
    match prog[i].op
    case Empty => []
    case Directive(_, _) => []
    case Fixed(ws) => ws
    case Words(ops) => WordOpValues(prog, r, ops)
    case LoadLabel(rd, name) =>
      var v := Mask12(Lab(prog, r, name));
      [EncodeRi(OP_LUI, rd, v / 64), EncodeRi(OP_ADDI, rd, v % 64)]
    case Branch(kind, name) =>
      if i in r then LongBranch(kind, Lab(prog, r, name))
      else [ShortBranch(kind, Lab(prog, r, name) - P.Addr(prog, r, i))]
  }

  /** The addressed words of the first `m` statements. */
  function PairsOf(prog: seq<Stmt>, r: set<nat>, m: nat): seq<(nat, Word)>
    requires m <= |prog|
  {
    if m == 0 then []
    else PairsOf(prog, r, m - 1) + Place(P.Addr(prog, r, m - 1), WordsFor(prog, r, m - 1))
  }

  // ---- references -----------------------------------------------------------------

  predicate Known(prog: seq<Stmt>, l: string) { P.DefIdx(prog, l, |prog|).Some? }

  predicate OpKnown(prog: seq<Stmt>, op: Op) {
    match op
    case Words(ops) => forall k | 0 <= k < |ops| :: ops[k].Ref? ==> Known(prog, ops[k].name)
    case LoadLabel(_, name) => Known(prog, name)
    case Branch(_, name) => Known(prog, name)
    case _ => true
  }

  /** Every label a statement uses is defined. */
  ghost predicate RefsKnown(prog: seq<Stmt>) { forall i | 0 <= i < |prog| :: OpKnown(prog, prog[i].op) }

  // ---- the linker's side ----------------------------------------------------------

  function EnvOf(prog: seq<Stmt>, ps: seq<Placed>, fp: string, r: set<nat>): Result<SymEnv, LinkError>
    requires |ps| == |prog|
  {
    BuildEnv(ProgDefs(prog, ps, fp, r))
  }

  lemma {:induction false} EmitPrefixOk(base: nat, rel: set<nat>, env: SymEnv, items: seq<Item>, m: nat, n: nat)
    requires m <= n <= |items| && EmitSection(base, rel, env, items, n).Ok?
    ensures EmitSection(base, rel, env, items, m).Ok?
    decreases n
  {
    hide ItemWords, OffsetAt;
    if m < n { EmitPrefixOk(base, rel, env, items, m, n - 1); }
  }

  /** A stretch of items with one word each. */
  lemma {:induction false} UnitStretch(base: nat, rel: set<nat>, env: SymEnv, items: seq<Item>, p: nat, n: nat, ws: seq<Word>)
    requires p + n <= |items| && n <= |ws| && EmitSection(base, rel, env, items, p).Ok?
    requires forall k: nat | k < n :: UnitAt(base, rel, env, items, p, k, ws)
    ensures EmitSection(base, rel, env, items, p + n)
            == Ok(EmitSection(base, rel, env, items, p).value + Place(base + OffsetAt(rel, items, p), ws[..n]))
    ensures OffsetAt(rel, items, p + n) == OffsetAt(rel, items, p) + n
    decreases n
  {
    hide ItemWords, ItemSize;
    var ps := EmitSection(base, rel, env, items, p).value;
    var a := base + OffsetAt(rel, items, p);
    if n == 0 {
      assert ps + Place(a, ws[..0]) == ps;
    } else {
      UnitStretch(base, rel, env, items, p, n - 1, ws);
      assert UnitAt(base, rel, env, items, p, n - 1, ws);
      assert (ps + Place(a, ws[..n - 1])) + Place(a + n - 1, [ws[n - 1]]) == ps + Place(a, ws[..n]);
    }
  }

  ghost predicate UnitAt(base: nat, rel: set<nat>, env: SymEnv, items: seq<Item>, p: nat, k: nat, ws: seq<Word>)
    requires p + k < |items| && k < |ws|
  {
    ItemWords(base, rel, env, p + k, items[p + k], OffsetAt(rel, items, p + k)) == Ok([ws[k]])
    && ItemSize(rel, p + k, items[p + k]) == 1
  }

  /** A stretch of items without words. */
  lemma {:induction false} EmptyStretch(base: nat, rel: set<nat>, env: SymEnv, items: seq<Item>, p: nat, n: nat)
    requires p + n <= |items| && EmitSection(base, rel, env, items, p).Ok?
    requires forall k | p <= k < p + n :: items[k].ItemSym? || items[k].ItemLoc?
    ensures EmitSection(base, rel, env, items, p + n) == EmitSection(base, rel, env, items, p)
    decreases n
  {
    if n > 0 {
      EmptyStretch(base, rel, env, items, p, n - 1);
      var ps := EmitSection(base, rel, env, items, p).value;
      var off := OffsetAt(rel, items, p + n - 1);
      hide OffsetAt;
      assert ItemWords(base, rel, env, p + n - 1, items[p + n - 1], off) == Ok([]);
      assert ps + Place(base + off, []) == ps;
    }
  }

  /** The items of statement `i` inside those of the program. */
  lemma StmtItemsAt(prog: seq<Stmt>, ps: seq<Placed>, fp: string, i: nat)
    requires Places(prog, ps) && i < |prog|
    ensures var items, x := ItemsOf(prog, ps, fp, |prog|), |ItemsOf(prog, ps, fp, i)|;
            var h, o := HeadItems(prog, ps, fp, i), OpItems(fp, prog[i].op);
            x + |h| + |o| == |ItemsOf(prog, ps, fp, i + 1)| <= |items|
            && (forall k | x <= k < x + |h| :: items[k].ItemSym? || items[k].ItemLoc?)
            && (forall k: nat | k < |o| :: items[x + |h| + k] == o[k])
  {
    hide *;
    ItemsSplit(prog, ps, fp, i);
    HeadWeightless(prog, ps, fp, i);
    var items, before := ItemsOf(prog, ps, fp, |prog|), ItemsOf(prog, ps, fp, i);
    HeadSlice(items, before, HeadItems(prog, ps, fp, i), OpItems(fp, prog[i].op));
    OpSlice(items, before, HeadItems(prog, ps, fp, i), OpItems(fp, prog[i].op));
  }

  /** The three parts of a prefix, item by item. */
  lemma HeadSlice(whole: seq<Item>, a: seq<Item>, h: seq<Item>, o: seq<Item>)
    requires |a| + |h| + |o| <= |whole| && whole[..|a| + |h| + |o|] == (a + h) + o
    requires forall k | 0 <= k < |h| :: h[k].ItemSym? || h[k].ItemLoc?
    ensures forall k | |a| <= k < |a| + |h| :: whole[k].ItemSym? || whole[k].ItemLoc?
  {
    forall k | |a| <= k < |a| + |h| ensures whole[k].ItemSym? || whole[k].ItemLoc? {
      assert whole[k] == whole[..|a| + |h| + |o|][k] == h[k - |a|];
    }
  }

  lemma OpSlice(whole: seq<Item>, a: seq<Item>, h: seq<Item>, o: seq<Item>)
    requires |a| + |h| + |o| <= |whole| && whole[..|a| + |h| + |o|] == (a + h) + o
    ensures forall k: nat | k < |o| :: whole[|a| + |h| + k] == o[k]
  {
    var some := (a + h) + o;
    forall k: nat | k < |o| ensures whole[|a| + |h| + k] == o[k] {
      assert whole[|a| + |h| + k] == some[|a| + |h| + k];
    }
  }

  lemma ItemsSplit(prog: seq<Stmt>, ps: seq<Placed>, fp: string, i: nat)
    requires Places(prog, ps) && i < |prog|
    ensures |ps| == |prog|
    ensures var items, before := ItemsOf(prog, ps, fp, |prog|), ItemsOf(prog, ps, fp, i);
            var h, o := HeadItems(prog, ps, fp, i), OpItems(fp, prog[i].op);
            |before| + |h| + |o| == |ItemsOf(prog, ps, fp, i + 1)| <= |items|
            && items[..|before| + |h| + |o|] == (before + h) + o
  {
    hide HeadItems, OpItems, ItemsOf;
    ItemsStep(prog, ps, fp, i);
    ItemsGrow(prog, ps, fp, i + 1, |prog|);
  }

  lemma MaskMask(v: int)
    ensures Mask12(Mask12(v)) == Mask12(v)
  {
  }

  /** One `.word` operand, linked. */
  lemma WordOpLinked(prog: seq<Stmt>, ps: seq<Placed>, fp: string, r: set<nat>, op: WordOp, idx: nat, off: nat)
    requires Setting(prog, ps, r)
    ensures EnvOf(prog, ps, fp, r).Ok?
    ensures var w := ItemWords(0, IdxSet(prog, ps, fp, r), EnvOf(prog, ps, fp, r).value, idx, WordOpItem(fp, op), off);
            if op.Const? || Known(prog, op.name) then w == Ok([WordOpValue(prog, r, op)]) else w.Err?
  {
    hide Setting, ProgDefs, IdxSet, BuildEnv, Resolve, P.Addr, Mask12;
    ResolveIs(prog, ps, fp, r, if op.Ref? then op.name else "");
    match op
    case Const(v) => MaskMask(v);
    case Ref(name) =>
      if Known(prog, name) {
        MaskMask(Lab(prog, r, name));
        assert MaskAll([Mask12(Lab(prog, r, name))]) == [Mask12(Lab(prog, r, name))];
      }
  }

  /** A relocated load, linked. */
  lemma LoadLinked(prog: seq<Stmt>, ps: seq<Placed>, fp: string, r: set<nat>, rd: Reg, name: string, idx: nat, off: nat)
    requires Setting(prog, ps, r)
    ensures EnvOf(prog, ps, fp, r).Ok?
    ensures var it := ItemReloc(fp, LiImm12, [EncodeRi(OP_ADDI, rd, 0), EncodeRi(OP_LUI, rd, 0)], name, 0);
            var w := ItemWords(0, IdxSet(prog, ps, fp, r), EnvOf(prog, ps, fp, r).value, idx, it, off);
            var v := Mask12(Lab(prog, r, name));
            if Known(prog, name) then w == Ok([EncodeRi(OP_LUI, rd, v / 64), EncodeRi(OP_ADDI, rd, v % 64)]) else w.Err?
  {
    hide Setting, ProgDefs, IdxSet, BuildEnv, Resolve, P.Addr, Mask12, EncodeRi, SetImm6;
    ResolveIs(prog, ps, fp, r, name);
    if Known(prog, name) {
      var v := Mask12(Lab(prog, r, name));
      SetImmField(OP_LUI, rd, v / 64);
      SetImmField(OP_ADDI, rd, v % 64);
      MaskId(EncodeRi(OP_LUI, rd, v / 64));
      MaskId(EncodeRi(OP_ADDI, rd, v % 64));
      assert Reverse([EncodeRi(OP_ADDI, rd, 0), EncodeRi(OP_LUI, rd, 0)]) == [EncodeRi(OP_LUI, rd, 0), EncodeRi(OP_ADDI, rd, 0)];
      assert MaskAll([EncodeRi(OP_LUI, rd, v / 64), EncodeRi(OP_ADDI, rd, v % 64)])
             == [EncodeRi(OP_LUI, rd, v / 64), EncodeRi(OP_ADDI, rd, v % 64)];
    }
  }

  /** A branch, linked. */
  lemma BranchLinked(prog: seq<Stmt>, ps: seq<Placed>, fp: string, r: set<nat>, i: nat)
    requires Setting(prog, ps, r) && i < |prog| && prog[i].op.Branch?
    ensures EnvOf(prog, ps, fp, r).Ok?
    ensures var it := ItemBrel(fp, prog[i].op.kind, prog[i].op.name, 0);
            var w := ItemWords(0, IdxSet(prog, ps, fp, r), EnvOf(prog, ps, fp, r).value, Idx(prog, ps, fp, i), it, P.Addr(prog, r, i));
            (w.Ok? ==> Known(prog, prog[i].op.name) && w == Ok(WordsFor(prog, r, i)))
  {
    hide ProgDefs, IdxSet, BuildEnv, Resolve, P.Addr, Idx, LongBranch, ShortBranch, Recordable, P.DistinctLabels, P.OnlyBranches;
    ResolveIs(prog, ps, fp, r, prog[i].op.name);
    IdxInSet(prog, ps, fp, r, i);
  }

  /** What the linker emits for statement `i`, given what it emitted before. */
  lemma StmtLinked(prog: seq<Stmt>, ps: seq<Placed>, fp: string, r: set<nat>, i: nat)
    requires Setting(prog, ps, r) && i < |prog| && EnvOf(prog, ps, fp, r).Ok?
    requires var items := ItemsOf(prog, ps, fp, |prog|);
             EmitSection(0, IdxSet(prog, ps, fp, r), EnvOf(prog, ps, fp, r).value, items, |items|).Ok?
    ensures var items, rel, env := ItemsOf(prog, ps, fp, |prog|), IdxSet(prog, ps, fp, r), EnvOf(prog, ps, fp, r).value;
            var x, y := |ItemsOf(prog, ps, fp, i)|, |ItemsOf(prog, ps, fp, i + 1)|;
            x <= y <= |items| && EmitSection(0, rel, env, items, x).Ok?
            && EmitSection(0, rel, env, items, y)
               == Ok(EmitSection(0, rel, env, items, x).value + Place(P.Addr(prog, r, i), WordsFor(prog, r, i)))
            && OpKnown(prog, prog[i].op)
  {
    hide *;
    SettingFacts(prog, ps, r);
    var items, rel, env := ItemsOf(prog, ps, fp, |prog|), IdxSet(prog, ps, fp, r), EnvOf(prog, ps, fp, r).value;
    var x, h := |ItemsOf(prog, ps, fp, i)|, |HeadItems(prog, ps, fp, i)|;
    StmtItemsAt(prog, ps, fp, i);
    EmitPrefixOk(0, rel, env, items, x, |items|);
    EmptyStretch(0, rel, env, items, x, h);
    SettingParts(prog, ps, r);
    HeadOffset(prog, ps, fp, r, i, h);
    IdxIs2(prog, ps, fp, i);
    OpLinked(prog, ps, fp, r, i, items, rel, env, x + h);
  }

  lemma SettingParts(prog: seq<Stmt>, ps: seq<Placed>, r: set<nat>)
    requires Setting(prog, ps, r)
    ensures Places(prog, ps) && Recordable(prog) && P.OnlyBranches(prog, r)
  {
  }

  lemma IdxIs2(prog: seq<Stmt>, ps: seq<Placed>, fp: string, i: nat)
    requires i < |ps|
    ensures Idx(prog, ps, fp, i) == |ItemsOf(prog, ps, fp, i)| + |HeadItems(prog, ps, fp, i)|
  {
    hide ItemsOf, HeadItems;
  }

  /** The operation of statement `i`, whose items start at `p`. */
  lemma OpLinked(prog: seq<Stmt>, ps: seq<Placed>, fp: string, r: set<nat>, i: nat,
                 items: seq<Item>, rel: set<nat>, env: SymEnv, p: nat)
    requires Setting(prog, ps, r) && i < |prog| && EnvOf(prog, ps, fp, r) == Ok(env)
    requires rel == IdxSet(prog, ps, fp, r) && p == Idx(prog, ps, fp, i)
    requires var o := OpItems(fp, prog[i].op);
             p + |o| <= |items| && forall k: nat | k < |o| :: items[p + k] == o[k]
    requires OffsetAt(rel, items, p) == P.Addr(prog, r, i)
    requires EmitSection(0, rel, env, items, |items|).Ok? && EmitSection(0, rel, env, items, p).Ok?
    ensures EmitSection(0, rel, env, items, p + |OpItems(fp, prog[i].op)|)
            == Ok(EmitSection(0, rel, env, items, p).value + Place(P.Addr(prog, r, i), WordsFor(prog, r, i)))
    ensures OpKnown(prog, prog[i].op)
  {
    hide EmitSection, ItemWords, IdxSet, Idx, EnvOf, P.Addr, EncodeRi, LongBranch, ShortBranch, Setting, OffsetAt, Lab, Known;
    var out := EmitSection(0, rel, env, items, p).value;
    match prog[i].op
    case Empty => assert out + Place(P.Addr(prog, r, i), []) == out;
    case Directive(_, _) => assert out + Place(P.Addr(prog, r, i), []) == out;
    case Fixed(ws) =>
      forall k: nat | k < |ws| ensures UnitAt(0, rel, env, items, p, k, ws) {
        assert OpItems(fp, prog[i].op)[k] == ItemWord(ws[k]);
        FixedUnit(rel, env, items, p, k, ws);
      }
      UnitStretch(0, rel, env, items, p, |ws|, ws);
      assert ws[..|ws|] == ws;
    case Words(ops) =>
      var ws := WordsFor(prog, r, i);
      forall k: nat | k < |ops| ensures UnitAt(0, rel, env, items, p, k, ws) && (ops[k].Ref? ==> Known(prog, ops[k].name)) {
        assert OpItems(fp, prog[i].op)[k] == WordOpItem(fp, ops[k]);
        WordUnit(prog, ps, fp, r, ops[k], items, rel, env, p, k, ws);
      }
      UnitStretch(0, rel, env, items, p, |ws|, ws);
      assert ws[..|ws|] == ws;
    case LoadLabel(rd, name) =>
      LoadLinked(prog, ps, fp, r, rd, name, p, P.Addr(prog, r, i));
      EmitHasItem(0, rel, env, items, |items|, p);
      EmitNext(rel, env, items, p);
      assert items[p + 0] == OpItems(fp, prog[i].op)[0];
    case Branch(kind, name) =>
      BranchLinked(prog, ps, fp, r, i);
      EmitHasItem(0, rel, env, items, |items|, p);
      EmitNext(rel, env, items, p);
      assert items[p + 0] == OpItems(fp, prog[i].op)[0];
  }

  lemma EmitNext(rel: set<nat>, env: SymEnv, items: seq<Item>, p: nat)
    requires p < |items| && EmitSection(0, rel, env, items, p).Ok?
    requires ItemWords(0, rel, env, p, items[p], OffsetAt(rel, items, p)).Ok?
    ensures EmitSection(0, rel, env, items, p + 1)
            == Ok(EmitSection(0, rel, env, items, p).value
                  + Place(OffsetAt(rel, items, p), ItemWords(0, rel, env, p, items[p], OffsetAt(rel, items, p)).value))
  {
    hide ItemWords, OffsetAt;
  }

  lemma FixedUnit(rel: set<nat>, env: SymEnv, items: seq<Item>, p: nat, k: nat, ws: seq<Word>)
    requires p + k < |items| && k < |ws| && items[p + k] == ItemWord(ws[k])
    ensures UnitAt(0, rel, env, items, p, k, ws)
  {
    MaskId(ws[k]);
    hide Mask12;
  }

  lemma WordUnit(prog: seq<Stmt>, ps: seq<Placed>, fp: string, r: set<nat>, op: WordOp,
                 items: seq<Item>, rel: set<nat>, env: SymEnv, p: nat, k: nat, ws: seq<Word>)
    requires Setting(prog, ps, r) && EnvOf(prog, ps, fp, r) == Ok(env) && rel == IdxSet(prog, ps, fp, r)
    requires p + k < |items| && k < |ws| && items[p + k] == WordOpItem(fp, op) && ws[k] == WordOpValue(prog, r, op)
    requires EmitSection(0, rel, env, items, |items|).Ok?
    ensures UnitAt(0, rel, env, items, p, k, ws) && (op.Ref? ==> Known(prog, op.name))
  {
    EmitHasItem(0, rel, env, items, |items|, p + k);
    var off0 := OffsetAt(rel, items, p + k);
    hide EmitSection, ItemWords, IdxSet, EnvOf, Setting, OffsetAt, Known, WordOpValue;
    WordOpLinked(prog, ps, fp, r, op, p + k, off0);
    UnitItem(fp, op, rel, p + k);
  }

  lemma UnitItem(fp: string, op: WordOp, rel: set<nat>, idx: nat)
    ensures ItemSize(rel, idx, WordOpItem(fp, op)) == 1
  {
    hide Mask12;
  }

  /** Everything the linker emits for the program. */
  lemma {:induction false} ProgramLinked(prog: seq<Stmt>, ps: seq<Placed>, fp: string, r: set<nat>, m: nat)
    requires Setting(prog, ps, r) && m <= |prog| && EnvOf(prog, ps, fp, r).Ok?
    requires var items := ItemsOf(prog, ps, fp, |prog|);
             EmitSection(0, IdxSet(prog, ps, fp, r), EnvOf(prog, ps, fp, r).value, items, |items|).Ok?
    ensures var items, x := ItemsOf(prog, ps, fp, |prog|), |ItemsOf(prog, ps, fp, m)|;
            x <= |items|
            && EmitSection(0, IdxSet(prog, ps, fp, r), EnvOf(prog, ps, fp, r).value, items, x) == Ok(PairsOf(prog, r, m))
    ensures forall i | 0 <= i < m :: OpKnown(prog, prog[i].op)
  {
    hide *;
    SettingFacts(prog, ps, r);
    if m == 0 {
      NothingLinked(prog, ps, fp, r);
    } else {
      ProgramLinked(prog, ps, fp, r, m - 1);
      StmtLinked(prog, ps, fp, r, m - 1);
      PairsStep(prog, r, m - 1);
    }
  }

  lemma NothingLinked(prog: seq<Stmt>, ps: seq<Placed>, fp: string, r: set<nat>)
    requires |ps| == |prog| && EnvOf(prog, ps, fp, r).Ok?
    ensures |ItemsOf(prog, ps, fp, 0)| == 0 && PairsOf(prog, r, 0) == []
    ensures EmitSection(0, IdxSet(prog, ps, fp, r), EnvOf(prog, ps, fp, r).value, ItemsOf(prog, ps, fp, |prog|), 0) == Ok([])
  {
    hide EnvOf, IdxSet;
  }

  lemma PairsStep(prog: seq<Stmt>, r: set<nat>, i: nat)
    requires i < |prog|
    ensures PairsOf(prog, r, i + 1) == PairsOf(prog, r, i) + Place(P.Addr(prog, r, i), WordsFor(prog, r, i))
  {
    hide WordsFor, Place, P.Addr;
  }

  // ---- the flat assembler's side --------------------------------------------------

  /** What the flat encoder insists on: `li` does not name r0, and no `li` and no relaxed branch
      refers to an address past 0o7777 (a label after the last word of a full image). */
  predicate Accepted(prog: seq<Stmt>, r: set<nat>, i: nat)
    requires i < |prog|
  {
    match prog[i].op
    case LoadLabel(rd, name) => rd != 0 && Lab(prog, r, name) <= 4095
    case Branch(_, name) => i in r ==> Lab(prog, r, name) <= 4095
    case _ => true
  }

  /** What the flat encoder asks of a statement: words to write, known labels, accepted addresses, and a
      target within reach or a relaxed branch. */
  predicate Writable(prog: seq<Stmt>, r: set<nat>, i: nat)
    requires i < |prog|
  {
    StmtRecords(prog[i].op).Ok? && OpKnown(prog, prog[i].op) && Accepted(prog, r, i) && !P.TooFar(prog, r, i)
  }

  /** An operation refers to a label. */
  predicate RefersTo(op: Op, l: string) {
    match op
    case Words(ops) => Ref(l) in ops
    case LoadLabel(_, name) => name == l
    case Branch(_, name) => name == l
    case _ => false
  }

  /** No statement refers to one of the first `n` made-up labels. */
  ghost predicate RefsAvoidSkips(prog: seq<Stmt>, n: nat) {
    forall i, k: nat | 0 <= i < |prog| && k < n :: !RefersTo(prog[i].op, SkipName(k))
  }

  /** A label map shows a label exactly as the program defines it. */
  ghost predicate Shows(prog: seq<Stmt>, r: set<nat>, labels: map<string, int>, l: string) {
    (l in labels <==> Known(prog, l)) && (l in labels ==> labels[l] == Lab(prog, r, l) >= 0)
  }

  /** The label map of the expanded program shows every label that a statement refers to. */
  lemma LabelShown(prog: seq<Stmt>, r: set<nat>, nm: F.Names, k: nat, labels: map<string, int>, i: nat, l: string)
    requires F.LabelsOf(prog, r, nm, k, |prog|, labels) && RefsAvoidSkips(prog, k)
    requires i < |prog| && RefersTo(prog[i].op, l)
    ensures Shows(prog, r, labels, l)
  {
    hide P.Addr, RefersTo, SkipName, F.HasSkips, F.IsKnown, F.HasLabels;
    KnownShown(prog, r, labels, l);
    MapKnown(prog, k, labels, l);
    UserName(prog, k, i, l);
  }

  lemma KnownShown(prog: seq<Stmt>, r: set<nat>, labels: map<string, int>, l: string)
    requires F.HasLabels(prog, r, |prog|, labels)
    ensures Known(prog, l) ==> l in labels && labels[l] == Lab(prog, r, l) >= 0
  {
    hide P.Addr;
    if Known(prog, l) { assert l in prog[P.DefIdx(prog, l, |prog|).value].labels; }
  }

  lemma MapKnown(prog: seq<Stmt>, k: nat, labels: map<string, int>, l: string)
    requires F.OnlyKnown(prog, k, |prog|, labels)
    ensures l in labels ==> F.IsKnown(prog, k, |prog|, l)
  {
    hide F.IsKnown;
  }

  lemma UserName(prog: seq<Stmt>, k: nat, i: nat, l: string)
    requires RefsAvoidSkips(prog, k) && i < |prog| && RefersTo(prog[i].op, l)
    ensures F.IsKnown(prog, k, |prog|, l) ==> Known(prog, l)
  {
    hide RefersTo, SkipName;
  }

  lemma EncodePairsSnoc(ps: seq<Placed>, p: Placed, labels: map<string, int>)
    ensures EncodePairs(ps + [p], labels)
            == match EncodePairs(ps, labels)
               case Err(e) => Err(e)
               case Ok(pairs) =>
                 match EncodeStmt(p, labels)
                 case Err(e) => Err(e)
                 case Ok(ws) => Ok(pairs + Place(if p.addr < 0 then 0 else p.addr, ws))
  {
    hide EncodeStmt, Place;
    assert (ps + [p])[..|ps|] == ps;
  }

  /** The operands of a `.word`: their values, or an error when a label is not known. */
  lemma {:induction false} EvalIs(prog: seq<Stmt>, r: set<nat>, labels: map<string, int>, ops: seq<WordOp>)
    requires forall l | Ref(l) in ops :: Shows(prog, r, labels, l)
    ensures var e := EvalOps(ops, labels);
            if forall k | 0 <= k < |ops| :: ops[k].Ref? ==> Known(prog, ops[k].name) then e == Ok(WordOpValues(prog, r, ops))
            else e.Err?
  {
    hide Known, Mask12, Lab;
    if ops == [] {
      assert WordOpValues(prog, r, ops) == [];
    } else {
      var init, op := ops[..|ops| - 1], ops[|ops| - 1];
      assert forall l | Ref(l) in init :: Ref(l) in ops;
      EvalIs(prog, r, labels, init);
      if op.Ref? { assert Ref(op.name) in ops && Shows(prog, r, labels, op.name); }
      hide Shows;
      assert WordOpValues(prog, r, ops) == WordOpValues(prog, r, init) + [WordOpValue(prog, r, op)];
      assert forall k | 0 <= k < |init| :: init[k] == ops[k];
    }
  }

  /** A plain statement or an unrelaxed branch. */
  lemma StmtFlat(prog: seq<Stmt>, r: set<nat>, labels: map<string, int>, i: nat)
    requires i < |prog| && !(prog[i].op.Branch? && i in r)
    requires forall l | RefersTo(prog[i].op, l) :: Shows(prog, r, labels, l)
    ensures var e := EncodeStmt(Placed(prog[i], P.Addr(prog, r, i)), labels);
            if Writable(prog, r, i) then e == Ok(WordsFor(prog, r, i)) else e.Err?
  {
    hide P.Addr, Mask12, EncodeRi, ShortBranch;
    match prog[i].op
    case Words(ops) =>
      forall l | Ref(l) in ops ensures Shows(prog, r, labels, l) { assert RefersTo(prog[i].op, l); }
      hide P.DefIdx;
      EvalIs(prog, r, labels, ops);
    case LoadLabel(_, name) => assert RefersTo(prog[i].op, name) && Shows(prog, r, labels, name);
    case Branch(_, name) => assert RefersTo(prog[i].op, name) && Shows(prog, r, labels, name);
    case _ =>
  }

  /** Four statements with the words `ws` from address `a` on, if the second has any. */
  lemma FourFlat(ps: seq<Placed>, b: seq<Placed>, labels: map<string, int>, a: nat, ws: seq<Word>)
    requires |b| == 4 && |ws| == 4 && EncodePairs(ps, labels).Ok?
    requires EncodeStmt(b[0], labels) == Ok([ws[0]]) && EncodeStmt(b[2], labels) == Ok([ws[3]])
    requires EncodeStmt(b[1], labels).Ok? ==> EncodeStmt(b[1], labels) == Ok([ws[1], ws[2]])
    requires EncodeStmt(b[3], labels) == Ok([])
    requires b[0].addr == a && b[1].addr == a + 1 && b[2].addr == a + 3 && b[3].addr == a + 4
    ensures var e := EncodePairs(ps + b, labels);
            if EncodeStmt(b[1], labels).Ok? then e == Ok(EncodePairs(ps, labels).value + Place(a, ws)) else e.Err?
  {
    hide *;
    var p1 := ps + [b[0]];
    var p2 := p1 + [b[1]];
    var p3 := p2 + [b[2]];
    assert ps + b == p3 + [b[3]];
    EncodePairsSnoc(ps, b[0], labels);
    EncodePairsSnoc(p1, b[1], labels);
    EncodePairsSnoc(p2, b[2], labels);
    EncodePairsSnoc(p3, b[3], labels);
    PlaceParts(EncodePairs(ps, labels).value, a, ws);
  }

  lemma PlaceParts(out: seq<(nat, Word)>, a: nat, ws: seq<Word>)
    requires |ws| == 4
    ensures out + Place(a, [ws[0]]) + Place(a + 1, [ws[1], ws[2]]) + Place(a + 3, [ws[3]]) + Place(a + 4, [])
         == out + Place(a, ws)
  {
  }

  /** The four spliced statements encode to the words of the linker's long branch. */
  lemma SplicedFlat(prog: seq<Stmt>, r: set<nat>, nm: F.Names, labels: map<string, int>, ps: seq<Placed>, i: nat)
    requires i < |prog| && prog[i].op.Branch? && i in r && EncodePairs(ps, labels).Ok?
    requires F.IsSkip(prog, r, nm, i, labels) && Shows(prog, r, labels, prog[i].op.name)
    ensures var e := EncodePairs(ps + F.Block(prog, r, nm, i), labels);
            if Writable(prog, r, i) then
              e == Ok(EncodePairs(ps, labels).value + Place(P.Addr(prog, r, i), WordsFor(prog, r, i)))
            else e.Err?
  {
    hide *;
    SplicedWords(prog, r, nm, labels, i);
    SplicedWritable(prog, r, i);
    FourFlat(ps, F.Block(prog, r, nm, i), labels, P.Addr(prog, r, i), WordsFor(prog, r, i));
  }

  lemma SplicedWritable(prog: seq<Stmt>, r: set<nat>, i: nat)
    requires i < |prog| && prog[i].op.Branch? && i in r
    ensures Writable(prog, r, i) <==> Known(prog, prog[i].op.name) && Lab(prog, r, prog[i].op.name) <= 4095
  {
    hide Known, Lab, P.Addr, P.LabelAddr;
  }

  lemma SplicedWords(prog: seq<Stmt>, r: set<nat>, nm: F.Names, labels: map<string, int>, i: nat)
    requires i < |prog| && prog[i].op.Branch? && i in r
    requires F.IsSkip(prog, r, nm, i, labels) && Shows(prog, r, labels, prog[i].op.name)
    ensures var b, ws := F.Block(prog, r, nm, i), WordsFor(prog, r, i);
            |b| == 4 && |ws| == 4 && EncodeStmt(b[0], labels) == Ok([ws[0]])
            && (if Known(prog, prog[i].op.name) && Lab(prog, r, prog[i].op.name) <= 4095 then
                  EncodeStmt(b[1], labels) == Ok([ws[1], ws[2]])
                else EncodeStmt(b[1], labels).Err?)
            && EncodeStmt(b[2], labels) == Ok([ws[3]]) && EncodeStmt(b[3], labels) == Ok([])
            && b[0].addr == P.Addr(prog, r, i) && b[1].addr == P.Addr(prog, r, i) + 1
            && b[2].addr == P.Addr(prog, r, i) + 3 && b[3].addr == P.Addr(prog, r, i) + 4
  {
    hide P.Addr, Mask12, EncodeRi, EncodeR3, SkipName, Lab, Known;
    InverseFour(prog[i].op.kind);
  }

  lemma InverseFour(kind: BranchKind)
    ensures ShortBranch(Inverse(kind), 4) == EncodeRi(InverseOp(kind), 0, 4)
  {
    hide EncodeRi;
  }

  /** The flat encoder over the expanded program: the linker's pairs, or an error at the first
      statement it has no words for. */
  lemma {:induction false} ProgramFlat(prog: seq<Stmt>, r: set<nat>, nm: F.Names, k: nat, labels: map<string, int>, m: nat)
    requires m <= |prog| && F.LabelsOf(prog, r, nm, k, |prog|, labels) && RefsAvoidSkips(prog, k)
    ensures var e := EncodePairs(F.Expand(prog, r, nm, m), labels);
            if forall i | 0 <= i < m :: Writable(prog, r, i) then e == Ok(PairsOf(prog, r, m)) else e.Err?
  {
    hide F.LabelsOf, RefsAvoidSkips, P.Addr, F.Block, WordsFor, Writable, Place;
    if m > 0 {
      var i := m - 1;
      ProgramFlat(prog, r, nm, k, labels, i);
      StepFlat(prog, r, nm, k, labels, i, F.Expand(prog, r, nm, i));
      hide EncodePairs;
    }
  }

  lemma StepFlat(prog: seq<Stmt>, r: set<nat>, nm: F.Names, k: nat, labels: map<string, int>, i: nat, ps: seq<Placed>)
    requires i < |prog| && F.LabelsOf(prog, r, nm, k, |prog|, labels) && RefsAvoidSkips(prog, k)
    ensures var e := EncodePairs(ps + F.Block(prog, r, nm, i), labels);
            if EncodePairs(ps, labels).Err? || !Writable(prog, r, i) then e.Err?
            else e == Ok(EncodePairs(ps, labels).value + Place(P.Addr(prog, r, i), WordsFor(prog, r, i)))
  {
    hide P.Addr, WordsFor, Writable, Place, EncodeStmt, F.OnlyKnown, F.HasLabels, F.IsSkip, Shows, RefsAvoidSkips;
    var b := F.Block(prog, r, nm, i);
    if EncodePairs(ps, labels).Err? {
      ErrStays(ps, b, labels);
    } else if prog[i].op.Branch? && i in r {
      LabelShown(prog, r, nm, k, labels, i, prog[i].op.name);
      SplicedFlat(prog, r, nm, labels, ps, i);
    } else {
      forall l | RefersTo(prog[i].op, l) ensures Shows(prog, r, labels, l) { LabelShown(prog, r, nm, k, labels, i, l); }
      StmtFlat(prog, r, labels, i);
      EncodePairsSnoc(ps, b[0], labels);
      hide EncodePairs;
      assert b == [b[0]];
    }
  }

  lemma {:induction false} ErrStays(ps: seq<Placed>, b: seq<Placed>, labels: map<string, int>)
    requires EncodePairs(ps, labels).Err?
    ensures EncodePairs(ps + b, labels).Err?
    decreases |b|
  {
    hide EncodePairs;
    if b == [] {
      assert ps + b == ps;
    } else {
      var init, p := b[..|b| - 1], b[|b| - 1];
      ErrStays(ps, init, labels);
      assert ps + b == (ps + init) + [p];
      EncodePairsSnoc(ps + init, p, labels);
    }
  }

  // ---- the theorem ----------------------------------------------------------------

  /** The branches of the program that both paths relax. */
  function RelaxedStmts(prog: seq<Stmt>): set<nat> { P.RelaxSteps(prog, {}, 20) }

  /** The programs the flat path assembles, among those that link: some words to place unless
      there are no statements at all, and every statement accepted. */
  ghost predicate FlatAccepts(prog: seq<Stmt>, words: seq<Word>) {
    prog == [] || (words != [] && forall i | 0 <= i < |prog| :: Accepted(prog, RelaxedStmts(prog), i))
  }

  /** Everything the object path knows about an assembled program. */
  lemma ObjectSetting(prog: seq<Stmt>, sources: seq<string>, fp: string) returns (ps: seq<Placed>)
    requires prog != [] && AssembleObject(prog, sources).Ok?
    ensures Assign(prog, |prog|).Ok? && Setting(prog, ps, {})
    ensures LinkObjectFiles(TEXT_BASES, [(fp, AssembleObject(prog, sources).value)])
            == LinkPieces(TEXT_BASES, [Piece(fp, "text", ItemsOf(prog, ps, fp, |prog|))])
  {
    hide Assign, BuildRecords, ItemsOf, LinkPieces, StmtRecords;
    AssignDistinctHere(prog);
    ps := Assign(prog, |prog|).value.placed;
    P.NormalizeIs(prog, ps);
    P.NoGapsHere(prog, ps);
    hide Normalize, P.Addr;
    P.BuildRecordable(prog, ps, |ps|);
    RecordsToItemsOf(prog, ps, fp, |ps|);
    var rs := BuildRecords(prog, ps, |ps|).value;
    assert AssembleObject(prog, sources) == Ok(ObjectFile(1, sources, [Section("text", rs)]));
    OnePiece(fp, AssembleObject(prog, sources).value, rs, ItemsOf(prog, ps, fp, |prog|));
    hide ToItems, P.NoGaps;
    assert Places(prog, ps) && Recordable(prog);
  }

  lemma AssignDistinctHere(prog: seq<Stmt>)
    requires Assign(prog, |prog|).Ok?
    ensures P.DistinctLabels(prog)
    ensures var placed := Assign(prog, |prog|).value.placed;
            |placed| == |prog| && forall i | 0 <= i < |prog| :: placed[i] == Placed(prog[i], P.Addr(prog, {}, i))
  {
    P.AssignDistinct(prog);
  }

  lemma OnePiece(fp: string, obj: ObjectFile, rs: seq<Record>, items: seq<Item>)
    requires obj.sections == [Section("text", rs)] && ToItems(fp, [], rs) == Ok(items)
    ensures AllPieces([(fp, obj)], 1) == Ok([Piece(fp, "text", items)])
  {
    hide ToItems;
    assert ObjectPieces(fp, obj.sections, 0) == Ok([]);
    assert ObjectPieces(fp, obj.sections, 1) == Ok([] + [Piece(fp, "text", items)]);
    assert AllPieces([(fp, obj)], 0) == Ok([]);
    assert [] + [Piece(fp, "text", items)] == [Piece(fp, "text", items)];
  }

  lemma OneOrder(pieces: seq<Piece>, fp: string, items: seq<Item>)
    requires pieces == [Piece(fp, "text", items)]
    ensures SectionOrder(pieces) == ["text"] && ConcatItems(pieces, "text") == items
  {
    assert pieces[..0] == [];
    assert SectionOrder([]) == [];
    assert ConcatItems([], "text") == [];
    assert [] + ["text"] == ["text"] && [] + items == items;
  }

  lemma OneBase()
    ensures AssignBases(TEXT_BASES, ["text"]) == TEXT_BASES
  {
    assert ["text"][..0] == [];
    assert TEXT_BASES[0].0 == "text";
    assert AssignBases(TEXT_BASES, []) == TEXT_BASES;
  }

  lemma OneMerged(fp: string, items: seq<Item>)
    ensures var pieces := [Piece(fp, "text", items)];
            MergePieces(pieces) == [Merged("text", items)] && SectionOrder(pieces) == ["text"]
            && AssignBases(TEXT_BASES, SectionOrder(pieces)) == TEXT_BASES && BudgetFor(pieces) == 20
  {
    var pieces := [Piece(fp, "text", items)];
    hide SectionOrder, ConcatItems, AssignBases;
    OneOrder(pieces, fp, items);
    OneBase();
    assert |MergePieces(pieces)| == 1;
    assert MergePieces(pieces)[0] == Merged("text", items);
  }

  /** The linked program: settled on the abstract relaxation, its image that of `PairsOf`. */
  lemma LinkedProgram(prog: seq<Stmt>, ps: seq<Placed>, fp: string, lr: LinkResult)
    requires Setting(prog, ps, {})
    requires LinkPieces(TEXT_BASES, [Piece(fp, "text", ItemsOf(prog, ps, fp, |prog|))]) == Ok(lr)
    ensures var r := RelaxedStmts(prog);
            P.RelaxStep(prog, r) == r && Setting(prog, ps, r) && RefsKnown(prog)
            && lr.words == Image(PairsOf(prog, r, |prog|))
  {
    hide Setting, RelaxLoop, ItemsOf, Finish, P.RelaxStep, P.RelaxSteps, IdxSet;
    SettingFacts(prog, ps, {});
    var items, r := ItemsOf(prog, ps, fp, |prog|), RelaxedStmts(prog);
    OneMerged(fp, items);
    hide MergePieces, AssignBases, BudgetFor;
    NoIdx(prog, ps, fp);
    LoopIs(prog, ps, fp, {}, map[], 20);
    var relaxed := RelaxLoop([Section1(prog, ps, fp)], TEXT_BASES, map[], 20).value;
    FinishedProgram(prog, ps, fp, r, relaxed, lr);
  }

  lemma NoIdx(prog: seq<Stmt>, ps: seq<Placed>, fp: string)
    requires |ps| == |prog|
    ensures RelOf(map[], "text") == IdxSet(prog, ps, fp, {})
  {
  }

  lemma FinishedProgram(prog: seq<Stmt>, ps: seq<Placed>, fp: string, r: set<nat>, relaxed: Relaxed, lr: LinkResult)
    requires Setting(prog, ps, r) && RelOf(relaxed, "text") == IdxSet(prog, ps, fp, r)
    requires Finish([Section1(prog, ps, fp)], TEXT_BASES, relaxed) == Ok(lr)
    ensures RefsKnown(prog) && lr.words == Image(PairsOf(prog, r, |prog|))
  {
    hide Setting, ItemsOf, IdxSet, BuildEnv, ProgDefs, EmitSection, PairsOf, OpKnown, Image, FirstLongSection, PlacedSections, Defs;
    SettingFacts(prog, ps, r);
    var m := Section1(prog, ps, fp);
    Section1Defs(prog, ps, fp, r, relaxed);
    var all := FinishParts([m], TEXT_BASES, relaxed);
    hide Finish;
    var env := EnvOf(prog, ps, fp, r).value;
    OneSection(m, TEXT_BASES, relaxed, env, all);
    ProgramLinked(prog, ps, fp, r, |prog|);
  }

  lemma OneSection(m: Merged, bases: Bases, relaxed: Relaxed, env: SymEnv, all: seq<(nat, Word)>)
    requires EmitAll([m], bases, relaxed, env, 1) == Ok(all)
    ensures EmitMerged(m, bases, relaxed, env) == Ok(all)
  {
    hide EmitMerged;
    assert EmitAll([m], bases, relaxed, env, 0) == Ok([]);
    assert EmitMerged([m][0], bases, relaxed, env).Ok?;
    var ps := EmitMerged(m, bases, relaxed, env).value;
    assert [] + ps == ps;
  }

  /** Known labels are not made up. */
  lemma KnownNamesAreUser(prog: seq<Stmt>, n: nat)
    requires RefsKnown(prog) && F.NoSkipLabels(prog, n)
    ensures RefsAvoidSkips(prog, n)
  {
    hide SkipName;
    forall i, k: nat | 0 <= i < |prog| && k < n
      ensures !RefersTo(prog[i].op, SkipName(k))
    {
      if RefersTo(prog[i].op, SkipName(k)) { KnownRef(prog, i, SkipName(k)); }
    }
  }

  lemma KnownRef(prog: seq<Stmt>, i: nat, l: string)
    requires RefsKnown(prog) && i < |prog| && RefersTo(prog[i].op, l)
    ensures exists d | 0 <= d < |prog| :: l in prog[d].labels
  {
    assert OpKnown(prog, prog[i].op);
    assert Known(prog, l);
    hide RefersTo;
    assert l in prog[P.DefIdx(prog, l, |prog|).value].labels;
  }

  lemma BranchNamesAreUser(prog: seq<Stmt>, n: nat)
    requires RefsAvoidSkips(prog, n)
    ensures F.RefsAreUser(prog, n)
  {
    hide SkipName;
    forall i, k: nat | 0 <= i < |prog| && prog[i].op.Branch? && k < n
      ensures prog[i].op.name != SkipName(k)
    {
      assert !RefersTo(prog[i].op, SkipName(k));
    }
  }

  /** No statement defines, or refers to, a label that the flat relaxer makes up for this program.  It
      makes up one for each branch it relaxes, numbered from 0. */
  ghost predicate SkipFree(prog: seq<Stmt>) {
    F.NoSkipLabels(prog, |RelaxedStmts(prog)|) && RefsAvoidSkips(prog, |RelaxedStmts(prog)|)
  }

  /** The flat path on a program that gets addresses. */
  lemma FlatProgram(prog: seq<Stmt>)
    requires prog != [] && Assign(prog, |prog|).Ok? && SkipFree(prog)
    ensures var r := RelaxedStmts(prog);
            var pairs := PairsOf(prog, r, |prog|);
            if pairs != [] && forall i | 0 <= i < |prog| :: Writable(prog, r, i) then
              FlatAssemble(prog) == Ok(Image(pairs))
            else FlatAssemble(prog).Err?
  {
    hide Assign, F.NoSkipLabels, RefsAvoidSkips, P.RelaxSteps, Writable, Image, PairsOf, RelaxRounds, P.RelaxStep, LabelMap, EncodePairs;
    var r := RelaxedStmts(prog);
    BranchNamesAreUser(prog, |r|);
    var nm := F.FlatRelaxed(prog);
    AssignDistinctHere(prog);
    F.ExpandLabels(prog, r, nm, |r|, |prog|);
    ProgramFlat(prog, r, nm, |r|, LabelMap(F.Expand(prog, r, nm, |prog|)), |prog|);
    ExpandNonEmpty(prog, r, nm);
  }

  /** In a program that links every statement has words, as far as it is accepted. */
  lemma LinkedWritable(prog: seq<Stmt>, r: set<nat>)
    requires Recordable(prog) && RefsKnown(prog) && P.RelaxStep(prog, r) == r
    ensures forall i | 0 <= i < |prog| :: Writable(prog, r, i) <==> Accepted(prog, r, i)
  {
    hide P.RelaxStep, P.TooFar, OpKnown, Accepted, StmtRecords;
    SettledNotFar(prog, r);
  }

  lemma SettledNotFar(prog: seq<Stmt>, r: set<nat>)
    requires P.RelaxStep(prog, r) == r
    ensures forall i: nat | i < |prog| :: !P.TooFar(prog, r, i)
  {
    hide P.RelaxStep, P.TooFar;
    forall i: nat | i < |prog| ensures !P.TooFar(prog, r, i) { StepMembers(prog, r, i); }
  }

  lemma ExpandNonEmpty(prog: seq<Stmt>, r: set<nat>, nm: F.Names)
    requires prog != []
    ensures F.Expand(prog, r, nm, |prog|) != []
  {
    hide P.Addr, SkipName;
    assert |F.Block(prog, r, nm, |prog| - 1)| > 0;
  }

  lemma ImageEmpty(pairs: seq<(nat, Word)>)
    ensures Image(pairs) == [] <==> pairs == []
  {
    if pairs != [] { assert pairs[0].0 <= MaxAddr(pairs); }
  }

  /** Flat assembly equals assembling to an object and linking it at base 0.  If the program defines
      none of the labels that the flat relaxer makes up for it, and the one-object link succeeds, then
      the flat assembler accepts the program exactly when `FlatAccepts` says, and the words are the
      same, relaxed branches included. */
  lemma FlatEqualsLink(prog: seq<Stmt>, sources: seq<string>, fp: string, lr: LinkResult)
    requires AssembleObject(prog, sources).Ok? && F.NoSkipLabels(prog, |RelaxedStmts(prog)|)
    requires LinkObjectFiles(TEXT_BASES, [(fp, AssembleObject(prog, sources).value)]) == Ok(lr)
    ensures FlatAccepts(prog, lr.words) ==> FlatAssemble(prog) == Ok(lr.words)
    ensures !FlatAccepts(prog, lr.words) ==> FlatAssemble(prog).Err?
  {
    if prog == [] {
      EmptyProgram(sources, fp, lr);
    } else {
      hide LinkObjectFiles, LinkPieces, AssembleObject, Assign, F.NoSkipLabels, RefsAvoidSkips, Setting, RelaxedStmts, Accepted, Writable, Image, PairsOf, P.RelaxStep, FlatAssemble, RefsKnown, ItemsOf;
      var ps := ObjectSetting(prog, sources, fp);
      SettingFacts(prog, ps, {});
      LinkedProgram(prog, ps, fp, lr);
      SettingParts(prog, ps, {});
      KnownNamesAreUser(prog, |RelaxedStmts(prog)|);
      LinkedWritable(prog, RelaxedStmts(prog));
      FlatProgram(prog);
      ImageEmpty(PairsOf(prog, RelaxedStmts(prog), |prog|));
    }
  }

  lemma EmptyProgram(sources: seq<string>, fp: string, lr: LinkResult)
    requires AssembleObject([], sources).Ok?
    requires LinkObjectFiles(TEXT_BASES, [(fp, AssembleObject([], sources).value)]) == Ok(lr)
    ensures FlatAssemble([]) == Ok([]) && lr.words == []
  {
    var obj := ObjectFile(1, sources, []);
    assert AssembleObject([], sources) == Ok(obj);
    assert ObjectPieces(fp, obj.sections, 0) == Ok([]);
    assert AllPieces([(fp, obj)], 0) == Ok([]);
    assert AllPieces([(fp, obj)], 1) == Ok([] + []);
    assert Image([]) == [];
    hide AllPieces, ObjectPieces;
    EmptyLink(lr);
  }

  lemma EmptyLink(lr: LinkResult)
    requires LinkPieces(TEXT_BASES, []) == Ok(lr)
    ensures lr.words == []
  {
    assert MergePieces([]) == [];
    hide RelaxLoop;
    var bases := AssignBases(TEXT_BASES, SectionOrder([]));
    var relaxed := RelaxLoop([], bases, map[], BudgetFor([])).value;
    var all := FinishParts([], bases, relaxed);
    hide Finish;
    assert all == [];
  }
}
