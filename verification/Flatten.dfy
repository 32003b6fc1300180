/** How records flatten to items (pytools/link_core.py:105-159), one record or one group at a time. */
module Flatten {
  import opened Isa
  import opened ObjFile
  import opened Linker
  import opened Sequences

  lemma {:induction false} ToItemsConcat(src: string, acc: seq<Item>, a: seq<Record>, b: seq<Record>)
    requires ToItems(src, acc, a).Ok?
    ensures ToItems(src, acc, a + b) == ToItems(src, ToItems(src, acc, a).value, b)
    decreases |a|
  {
    hide AddRecord;
    if a == [] {
      assert a + b == b;
    } else {
      assert (a + b)[1..] == a[1..] + b && (a + b)[0] == a[0];
      ToItemsConcat(src, AddRecord(src, acc, a[0]).value, a[1..], b);
    }
  }

  lemma ToItemsOne(src: string, acc: seq<Item>, r: Record)
    requires AddRecord(src, acc, r).Ok?
    ensures ToItems(src, acc, [r]) == AddRecord(src, acc, r)
  {
    hide AddRecord;
    assert [r][1..] == [];
    assert ToItems(src, AddRecord(src, acc, r).value, []) == AddRecord(src, acc, r);
  }

  lemma ToItemsNil(src: string, acc: seq<Item>)
    ensures ToItems(src, acc, []) == Ok(acc)
  {
  }

  lemma Snoc(xs: seq<Item>, x: Item)
    ensures (xs + [x])[..|xs + [x]| - 1] == xs && (xs + [x])[|xs + [x]| - 1] == x
  {
  }

  lemma PopOne(k: nat, xs: seq<Item>, w: int)
    ensures PopPlaceholders(k + 1, xs + [ItemWord(w)])
            == match PopPlaceholders(k, xs)
               case None => None
               case Some((ws, rest)) => Some(([w] + ws, rest))
  {
    Snoc(xs, ItemWord(w));
  }

  /** The records of `li rd, label` become one item, its placeholder words nearest first. */
  lemma LoadRecords(src: string, acc: seq<Item>, lui: int, addi: int, name: string)
    ensures ToItems(src, acc, [RecWord(lui), RecWord(addi), RecReloc(LiImm12, name, 0)])
            == Ok(acc + [ItemReloc(src, LiImm12, [addi, lui], name, 0)])
  {
    hide ToItems;
    var r0, r1, r2 := RecWord(lui), RecWord(addi), RecReloc(LiImm12, name, 0);
    assert [r0, r1, r2] == [r0] + ([r1] + [r2]);
    var a1 := acc + [ItemWord(lui)];
    var a2 := a1 + [ItemWord(addi)];
    ToItemsOne(src, acc, r0);
    ToItemsConcat(src, acc, [r0], [r1] + [r2]);
    ToItemsOne(src, a1, r1);
    ToItemsConcat(src, a1, [r1], [r2]);
    PopOne(0, acc, lui);
    PopOne(1, a1, addi);
    assert [addi] + ([lui] + []) == [addi, lui];
    ToItemsOne(src, a2, r2);
  }

  // ---- and back -------------------------------------------------------------------

  /** The placeholder words of a relocation in the order they were recorded. */
  function RecordedWords(it: Item): seq<int>
    requires it.ItemReloc?
  {
    Reverse(it.ws)
  }

  function WordRecords(ws: seq<int>): seq<Record> { seq(|ws|, i requires 0 <= i < |ws| => RecWord(ws[i])) }

  /** The records an item came from; the path of a source position is not kept. */
  function Recorded(it: Item): seq<Record> {
    match it
    case ItemWord(w) => [RecWord(w)]
    case ItemSym(_, name, linkage, offset) => [RecSym(name, linkage, offset)]
    case ItemLoc(_, lineno) => [RecLoc("", lineno)]
    case ItemBrel(_, branch, sym, addend) => [RecBrel(branch, sym, addend)]
    case ItemReloc(_, kind, _, sym, addend) => WordRecords(RecordedWords(it)) + [RecReloc(kind, sym, addend)]
  }

  function AllRecorded(items: seq<Item>): seq<Record> {
    if items == [] then [] else AllRecorded(items[..|items| - 1]) + Recorded(items[|items| - 1])
  }

  /** Records without runs of zeros and without paths. */
  function Plain(r: Record): seq<Record> {
    match r
    case RecZero(n) => seq(if n < 0 then 0 else n, _ => RecWord(0))
    case RecLoc(_, lineno) => [RecLoc("", lineno)]
    case _ => [r]
  }

  function AllPlain(rs: seq<Record>): seq<Record> { if rs == [] then [] else Plain(rs[0]) + AllPlain(rs[1..]) }

  lemma {:induction false} RecordedConcat(xs: seq<Item>, ys: seq<Item>)
    ensures AllRecorded(xs + ys) == AllRecorded(xs) + AllRecorded(ys)
    decreases |ys|
  {
    hide Recorded;
    if ys == [] {
      assert xs + ys == xs;
    } else {
      assert (xs + ys)[..|xs + ys| - 1] == xs + ys[..|ys| - 1];
      RecordedConcat(xs, ys[..|ys| - 1]);
    }
  }

  lemma RecordedOne(it: Item)
    ensures AllRecorded([it]) == Recorded(it)
  {
    assert [it][..0] == [];
  }

  lemma {:induction false} ZerosRecorded(n: nat)
    ensures AllRecorded(Zeros(n)) == seq(n, _ => RecWord(0))
  {
    if n > 0 {
      ZerosRecorded(n - 1);
      assert Zeros(n)[..n - 1] == Zeros(n - 1);
    }
  }

  /** Popped words are the last recorded ones. */
  lemma {:induction false} PopRecorded(k: nat, stack: seq<Item>)
    ensures match PopPlaceholders(k, stack)
            case None => true
            case Some((ws, rest)) => AllRecorded(stack) == AllRecorded(rest) + WordRecords(Reverse(ws))
    decreases k
  {
    if k > 0 && PopPlaceholders(k, stack).Some? {
      var init, w := stack[..|stack| - 1], stack[|stack| - 1].w;
      PopRecorded(k - 1, init);
      var ws := PopPlaceholders(k - 1, init).value.0;
      hide PopPlaceholders;
      assert WordRecords(Reverse([w] + ws)) == WordRecords(Reverse(ws)) + [RecWord(w)];
    }
  }

  lemma AddRecorded(src: string, acc: seq<Item>, r: Record)
    requires AddRecord(src, acc, r).Ok?
    ensures AllRecorded(AddRecord(src, acc, r).value) == AllRecorded(acc) + Plain(r)
    ensures (forall it | it in acc :: it.ItemWord? || it.src == src) ==>
              forall it | it in AddRecord(src, acc, r).value :: it.ItemWord? || it.src == src
  {
    hide AllRecorded;
    match r
    case RecZero(n) =>
      ZerosRecorded(if n < 0 then 0 else n);
      RecordedConcat(acc, Zeros(n));
    case RecReloc(kind, symbol, addend) =>
      var (ws, rest) := PopPlaceholders(RelocSpan(kind), acc).value;
      PopRecorded(RelocSpan(kind), acc);
      PopKeeps(RelocSpan(kind), acc);
      RecordedConcat(rest, [ItemReloc(src, kind, ws, symbol, addend)]);
      RecordedOne(ItemReloc(src, kind, ws, symbol, addend));
    case _ =>
      var it := AddRecord(src, acc, r).value[|acc|];
      RecordedConcat(acc, [it]);
      RecordedOne(it);
  }

  lemma {:induction false} PopKeeps(k: nat, stack: seq<Item>)
    ensures match PopPlaceholders(k, stack)
            case None => true
            case Some((_, rest)) => rest <= stack
    decreases k
  {
    if k > 0 && PopPlaceholders(k, stack).Some? { PopKeeps(k - 1, stack[..|stack| - 1]); }
  }

  /** Flattening loses nothing: the items tell the records they came from, each word, symbol, branch and
      relocation with all its fields and in order, and every item names its object. */
  lemma {:induction false} ItemsRecorded(src: string, acc: seq<Item>, rs: seq<Record>)
    requires ToItems(src, acc, rs).Ok? && forall it | it in acc :: it.ItemWord? || it.src == src
    ensures AllRecorded(ToItems(src, acc, rs).value) == AllRecorded(acc) + AllPlain(rs)
    ensures forall it | it in ToItems(src, acc, rs).value :: it.ItemWord? || it.src == src
    decreases |rs|
  {
    hide AddRecord, AllRecorded, Plain;
    if rs != [] {
      AddRecorded(src, acc, rs[0]);
      ItemsRecorded(src, AddRecord(src, acc, rs[0]).value, rs[1..]);
    }
  }

  /** Emission patches the placeholder words in the order they were recorded. */
  lemma RelocEmitted(base: nat, rel: set<nat>, env: SymEnv, idx: nat, it: Item, off: nat, ws: seq<Word>)
    requires it.ItemReloc? && ItemWords(base, rel, env, idx, it, off) == Ok(ws)
    ensures var target := Resolve(it.src, it.sym, env);
            target.Ok?
            && var patched := Patch(it.kind, RecordedWords(it), target.value + it.addend, base + off);
               patched.Ok? && ws == MaskAll(patched.value)
  {
    hide Patch, Resolve, Reverse;
  }
}
