/** Emission conserves words: a section emits each of its addresses exactly once, its size is
    what its records say plus three words per relaxed branch, and when sections do not overlap
    the image holds those words and zeros elsewhere. */
module Emission {
  import opened Isa
  import opened ObjFile
  import opened Linker
  import opened Sequences
  import opened Relaxation

  // ---- one section ----------------------------------------------------------------

  lemma PatchLength(kind: RelocKind, ws: seq<int>, val: int, addr: int)
    ensures Patch(kind, ws, val, addr).Ok? ==> |Patch(kind, ws, val, addr).value| == RelocSpan(kind)
  {
    hide SetImm6, SetRd;
  }

  lemma ItemWordsLength(base: nat, rel: set<nat>, env: SymEnv, idx: nat, it: Item, off: nat)
    ensures var r := ItemWords(base, rel, env, idx, it, off);
            r.Ok? ==> |r.value| == ItemSize(rel, idx, it)
  {
    hide LongBranch, ShortBranch, Patch, Resolve;
    match it
    case ItemReloc(src, kind, ws, sym, addend) =>
      if Resolve(src, sym, env).Ok? {
        PatchLength(kind, Reverse(ws), Resolve(src, sym, env).value + addend, base + off);
      }
    case ItemBrel(src, branch, sym, addend) =>
      if Resolve(src, sym, env).Ok? { LongLength(branch, Resolve(src, sym, env).value + addend); }
    case _ =>
  }

  lemma LongLength(branch: BranchKind, target: int)
    ensures |LongBranch(branch, target)| == 4
  {
  }

  /** The k-th pair of a section is the k-th address from its base: every address exactly once. */
  lemma {:induction false} EmitConsecutive(base: nat, rel: set<nat>, env: SymEnv, items: seq<Item>, n: nat)
    requires n <= |items| && EmitSection(base, rel, env, items, n).Ok?
    ensures var ps := EmitSection(base, rel, env, items, n).value;
            |ps| == OffsetAt(rel, items, n) && forall k | 0 <= k < |ps| :: ps[k].0 == base + k
  {
    hide ItemWords;
    if n > 0 {
      EmitConsecutive(base, rel, env, items, n - 1);
      ItemWordsLength(base, rel, env, n - 1, items[n - 1], OffsetAt(rel, items, n - 1));
      hide ItemSize;
    }
  }

  lemma {:induction false} OffsetMonotone(rel: set<nat>, items: seq<Item>, p: nat, q: nat)
    requires p <= q <= |items|
    ensures OffsetAt(rel, items, p) <= OffsetAt(rel, items, q)
    decreases q - p
  {
    if p < q { OffsetMonotone(rel, items, p, q - 1); }
  }

  /** The words of item `i` sit at its offset in the section's output. */
  lemma {:induction false} EmitHasItem(base: nat, rel: set<nat>, env: SymEnv, items: seq<Item>, n: nat, i: nat)
    requires i < n <= |items| && EmitSection(base, rel, env, items, n).Ok?
    ensures var ps := EmitSection(base, rel, env, items, n).value;
            var off := OffsetAt(rel, items, i);
            var ws := ItemWords(base, rel, env, i, items[i], off);
            ws.Ok? && off + |ws.value| <= |ps|
            && forall k | 0 <= k < |ws.value| :: ps[off + k] == (base + off + k, ws.value[k])
    decreases n
  {
    hide ItemWords;
    EmitConsecutive(base, rel, env, items, n - 1);
    if i < n - 1 { EmitHasItem(base, rel, env, items, n - 1, i); }
  }

  // ---- the image ------------------------------------------------------------------

  ghost predicate Owns(base: nat, ps: seq<(nat, Word)>, a: nat) { base <= a < base + |ps| }

  ghost predicate Consecutive(base: nat, ps: seq<(nat, Word)>) {
    forall k | 0 <= k < |ps| :: ps[k].0 == base + k
  }

  lemma {:induction false} LastWriteConsecutive(before: seq<(nat, Word)>, base: nat, ps: seq<(nat, Word)>, a: nat)
    requires Consecutive(base, ps)
    ensures LastWrite(before + ps, a) == if Owns(base, ps, a) then ps[a - base].1 else LastWrite(before, a)
    decreases |ps|
  {
    if ps == [] {
      assert before + ps == before;
    } else {
      var init, p := ps[..|ps| - 1], ps[|ps| - 1];
      assert before + ps == (before + init) + [p];
      LastWriteSnoc(before + init, p, a);
      assert p.0 == base + |init|;
      LastWriteConsecutive(before, base, init, a);
    }
  }

  function BaseOf(m: Merged, bases: Bases): nat { SectionBase(bases, m.name) }

  function SizeOf(m: Merged, relaxed: Relaxed): nat {
    OffsetAt(RelOf(relaxed, m.name), m.items, |m.items|)
  }

  ghost predicate Covers(m: Merged, bases: Bases, relaxed: Relaxed, a: nat) {
    BaseOf(m, bases) <= a < BaseOf(m, bases) + SizeOf(m, relaxed)
  }

  /** No address belongs to two sections. */
  ghost predicate Disjoint(merged: seq<Merged>, bases: Bases, relaxed: Relaxed) {
    forall i, j, a: nat | 0 <= i < |merged| && 0 <= j < |merged|
                     && Covers(merged[i], bases, relaxed, a) && Covers(merged[j], bases, relaxed, a) :: i == j
  }

  lemma {:induction false} EmitAllParts(merged: seq<Merged>, bases: Bases, relaxed: Relaxed, env: SymEnv, n: nat, j: nat)
    requires j < n <= |merged| && EmitAll(merged, bases, relaxed, env, n).Ok?
    ensures EmitMerged(merged[j], bases, relaxed, env).Ok?
  {
    hide EmitMerged;
    if j < n - 1 { EmitAllParts(merged, bases, relaxed, env, n - 1, j); }
  }

  lemma EmitMergedConsecutive(m: Merged, bases: Bases, relaxed: Relaxed, env: SymEnv)
    requires EmitMerged(m, bases, relaxed, env).Ok?
    ensures var ps := EmitMerged(m, bases, relaxed, env).value;
            Consecutive(BaseOf(m, bases), ps) && |ps| == SizeOf(m, relaxed)
  {
    EmitConsecutive(SectionBase(bases, m.name), RelOf(relaxed, m.name), env, m.items, |m.items|);
  }

  /** An address no section covers is never written. */
  lemma {:induction false} Unwritten(merged: seq<Merged>, bases: Bases, relaxed: Relaxed, env: SymEnv, n: nat, a: nat)
    requires n <= |merged| && EmitAll(merged, bases, relaxed, env, n).Ok?
    requires forall j | 0 <= j < n :: !Covers(merged[j], bases, relaxed, a)
    ensures LastWrite(EmitAll(merged, bases, relaxed, env, n).value, a) == 0
  {
    hide EmitMerged;
    if n > 0 {
      Unwritten(merged, bases, relaxed, env, n - 1, a);
      var m := merged[n - 1];
      EmitMergedConsecutive(m, bases, relaxed, env);
      assert !Covers(m, bases, relaxed, a);
      hide SizeOf, BaseOf;
      LastWriteConsecutive(EmitAll(merged, bases, relaxed, env, n - 1).value, BaseOf(m, bases),
                           EmitMerged(m, bases, relaxed, env).value, a);
    }
  }

  /** An address covered by one section only holds that section's word. */
  lemma {:induction false} WrittenOnce(merged: seq<Merged>, bases: Bases, relaxed: Relaxed, env: SymEnv, n: nat, j: nat, a: nat)
    requires j < n <= |merged| && EmitAll(merged, bases, relaxed, env, n).Ok?
    requires Covers(merged[j], bases, relaxed, a)
    requires forall i | 0 <= i < n && i != j :: !Covers(merged[i], bases, relaxed, a)
    ensures EmitMerged(merged[j], bases, relaxed, env).Ok?
    ensures var ps := EmitMerged(merged[j], bases, relaxed, env).value;
            |ps| == SizeOf(merged[j], relaxed)
            && LastWrite(EmitAll(merged, bases, relaxed, env, n).value, a) == ps[a - BaseOf(merged[j], bases)].1
  {
    hide EmitMerged;
    var m := merged[n - 1];
    EmitMergedConsecutive(m, bases, relaxed, env);
    var before := EmitAll(merged, bases, relaxed, env, n - 1).value;
    LastWriteConsecutive(before, BaseOf(m, bases), EmitMerged(m, bases, relaxed, env).value, a);
    if j < n - 1 {
      WrittenOnce(merged, bases, relaxed, env, n - 1, j, a);
      assert !Covers(m, bases, relaxed, a);
    }
  }

  // ---- sizes ----------------------------------------------------------------------

  /** What one record adds to its section; a relocation covers words already counted. */
  function RecordSize(r: Record): nat {
    match r
    case RecWord(_) => 1
    case RecZero(n) => if n < 0 then 0 else n
    case RecBrel(_, _, _) => 1
    case _ => 0
  }

  function RecordsSize(rs: seq<Record>): nat {
    if rs == [] then 0 else RecordSize(rs[0]) + RecordsSize(rs[1..])
  }

  lemma {:induction false} OffsetPrefix(rel: set<nat>, items: seq<Item>, more: seq<Item>, n: nat)
    requires n <= |items|
    ensures OffsetAt(rel, items + more, n) == OffsetAt(rel, items, n)
  {
    if n > 0 { OffsetPrefix(rel, items, more, n - 1); }
  }

  function Total(items: seq<Item>): nat { OffsetAt({}, items, |items|) }

  lemma {:induction false} TotalConcat(xs: seq<Item>, ys: seq<Item>)
    ensures Total(xs + ys) == Total(xs) + Total(ys)
    decreases |ys|
  {
    if ys == [] {
      assert xs + ys == xs;
    } else {
      var init, y := ys[..|ys| - 1], ys[|ys| - 1];
      assert ys == init + [y] && xs + ys == (xs + init) + [y];
      TotalConcat(xs, init);
      TotalSnoc(xs + init, y);
      TotalSnoc(init, y);
    }
  }

  lemma TotalSnoc(xs: seq<Item>, y: Item)
    ensures Total(xs + [y]) == Total(xs) + ItemSize({}, |xs|, y)
  {
    OffsetPrefix({}, xs, [y], |xs|);
  }

  lemma {:induction false} PoppedSize(k: nat, stack: seq<Item>)
    ensures match PopPlaceholders(k, stack)
            case None => true
            case Some((ws, rest)) => |ws| == k && Total(rest) + k == Total(stack)
    decreases k
  {
    if k > 0 && stack != [] && stack[|stack| - 1].ItemWord? {
      var init, top := stack[..|stack| - 1], stack[|stack| - 1];
      PoppedSize(k - 1, init);
      assert stack == init + [top];
      TotalSnoc(init, top);
    }
  }

  lemma {:induction false} ZerosSize(n: nat)
    ensures Total(Zeros(n)) == n
  {
    if n > 0 {
      ZerosSize(n - 1);
      assert Zeros(n) == Zeros(n - 1) + [ItemWord(0)];
      TotalSnoc(Zeros(n - 1), ItemWord(0));
    }
  }

  lemma AddRecordSize(src: string, acc: seq<Item>, r: Record)
    requires AddRecord(src, acc, r).Ok?
    ensures Total(AddRecord(src, acc, r).value) == Total(acc) + RecordSize(r)
  {
    hide Total, PopPlaceholders, Zeros;
    match r
    case RecWord(w) => TotalSnoc(acc, ItemWord(w));
    case RecZero(n) =>
      ZerosSize(if n < 0 then 0 else n);
      ZerosOfNegative(n);
      TotalConcat(acc, Zeros(n));
    case RecSym(name, linkage, offset) => TotalSnoc(acc, ItemSym(src, name, linkage, offset));
    case RecLoc(_, lineno) => TotalSnoc(acc, ItemLoc(src, lineno));
    case RecBrel(branch, symbol, addend) => TotalSnoc(acc, ItemBrel(src, branch, symbol, addend));
    case RecReloc(kind, symbol, addend) =>
      PoppedSize(RelocSpan(kind), acc);
      var (ws, rest) := PopPlaceholders(RelocSpan(kind), acc).value;
      TotalSnoc(rest, ItemReloc(src, kind, ws, symbol, addend));
  }

  lemma ZerosOfNegative(n: int)
    ensures Zeros(n) == Zeros(if n < 0 then 0 else n)
  {
  }

  /** Flattening keeps size: relocations add nothing to the words they cover. */
  lemma {:induction false} ItemsKeepSize(src: string, acc: seq<Item>, rs: seq<Record>)
    requires ToItems(src, acc, rs).Ok?
    ensures Total(ToItems(src, acc, rs).value) == Total(acc) + RecordsSize(rs)
    decreases |rs|
  {
    hide Total, AddRecord;
    if rs != [] {
      AddRecordSize(src, acc, rs[0]);
      ItemsKeepSize(src, AddRecord(src, acc, rs[0]).value, rs[1..]);
    }
  }

  /** Every relaxed branch adds exactly three words. */
  lemma {:induction false} RelaxedGrowth(rel: set<nat>, items: seq<Item>, n: nat)
    requires n <= |items| && forall i | i in rel :: i < |items| && items[i].ItemBrel?
    ensures OffsetAt(rel, items, n) == OffsetAt({}, items, n) + 3 * |Below(rel, n)|
  {
    if n > 0 {
      RelaxedGrowth(rel, items, n - 1);
      if n - 1 in rel {
        assert Below(rel, n) == Below(rel, n - 1) + {n - 1};
      } else {
        assert Below(rel, n) == Below(rel, n - 1);
      }
    } else {
      assert Below(rel, 0) == {};
    }
  }

  function Below(rel: set<nat>, n: nat): set<nat> { set i | i in rel && i < n }

  /** The records of all pieces of one section. */
  function PiecesSize(pieces: seq<Piece>, name: string): nat {
    if pieces == [] then 0
    else
      PiecesSize(pieces[..|pieces| - 1], name)
      + if pieces[|pieces| - 1].name == name then Total(pieces[|pieces| - 1].items) else 0
  }

  lemma {:induction false} ConcatSize(pieces: seq<Piece>, name: string)
    ensures Total(ConcatItems(pieces, name)) == PiecesSize(pieces, name)
  {
    hide Total;
    if pieces == [] {
      EmptyTotal();
    } else {
      ConcatSize(pieces[..|pieces| - 1], name);
      EmptyTotal();
      TotalConcat(ConcatItems(pieces[..|pieces| - 1], name),
                  if pieces[|pieces| - 1].name == name then pieces[|pieces| - 1].items else []);
    }
  }

  lemma EmptyTotal()
    ensures Total([]) == 0
  {
  }

  /** Filling the immediate of a placeholder. */
  lemma SetImmField(op: Reg, rd: Reg, v: int)
    ensures SetImm6(EncodeRi(op, rd, 0), v) == EncodeRi(op, rd, v)
  {
    FieldsRi(op, rd, 0);
    MaskId(EncodeRi(op, rd, 0));
    var hi := op % 8 * 8 + rd % 8;
    assert EncodeRi(op, rd, 0) == hi * 64;
    assert hi * 64 / 64 == hi;
  }
}
