/** What linked words do on the processor: branches arrive where their symbol is, in the short
    form and in the relaxed one, and relocated loads deliver final addresses. */
module BranchMeaning {
  import opened Isa
  import opened Machine
  import opened ObjFile
  import opened Linker
  import opened Sequences
  import opened Relaxation
  import opened Emission
  import opened LinkGuarantees

  predicate Taken(branch: BranchKind, t: Bit) { if branch == BT then t == 1 else t == 0 }

  lemma FetchIs(s: State, i: Instr)
    requires Encodable(i) && Read(s.mem, s.pc) == Encode(i)
    ensures Step(s) == Exec(s, i)
  {
    hide Encode, Decode, Exec;
    DecodeEncode(i);
  }

  lemma RunOne(s: State)
    ensures Run(s, 1) == Step(s)
  {
    hide Step;
    assert Run(s, 1) == Run(Step(s), 0);
  }

  lemma RunTwo(s: State)
    ensures Run(s, 2) == Step(Step(s))
  {
    hide Step;
    RunSum(s, 1, 1);
    RunOne(s);
    RunOne(Step(s));
  }

  lemma RunFour(s: State)
    ensures Run(s, 4) == Step(Step(Step(Step(s))))
  {
    hide Step;
    RunSum(s, 2, 2);
    RunTwo(s);
    RunTwo(Step(Step(s)));
  }

  /** The instruction a short branch word encodes. */
  function BranchInstr(branch: BranchKind, offset: int): Instr {
    if branch == BT then Bt(offset) else Bf(offset)
  }

  function InverseInstr(branch: BranchKind, offset: int): Instr {
    if branch == BT then Bf(offset) else Bt(offset)
  }

  lemma MaskSum(a: int, k: int)
    ensures Mask12(Mask12(a) + k) == Mask12(a + k)
  {
  }

  /** One step through a short branch placed at `a`. */
  lemma ShortMeaning(s: State, branch: BranchKind, a: int, target: int)
    requires InRange(target - a) && s.pc == Mask12(a)
    requires Read(s.mem, s.pc) == ShortBranch(branch, target - a)
    ensures Run(s, 1) == s.(pc := if Taken(branch, s.t) then Mask12(target) else Mask12(a + 1))
  {
    hide Step, Read, Mask12, EncodeRi;
    var i := BranchInstr(branch, target - a);
    assert Encodable(i) && Encode(i) == ShortBranch(branch, target - a);
    FetchIs(s, i);
    RunOne(s);
    hide Run;
    MaskSum(a, target - a);
    MaskSum(a, 1);
  }

  lemma LoadWord(v: Word)
    ensures Mask12(v / 64 * 64) == v / 64 * 64 && v / 64 * 64 + v % 64 == v
  {
  }

  /** `lui` then `addi` on one register. */
  lemma LuiAddi(s: State, rd: Reg, a: int, v: Word)
    requires 0 < rd < 7 && s.pc == Mask12(a)
    ensures var s1 := Exec(s, Lui(rd, v / 64));
            s1.pc == Mask12(a + 1) && s1.mem == s.mem && s1.t == s.t
            && Exec(s1, Addi(rd, v % 64)) == s.Set(rd, v).(pc := Mask12(a + 2))
  {
    hide Mask12, State.Set, State.Get;
    var s1 := Exec(s, Lui(rd, v / 64));
    MaskSum(a, 1);
    MaskSum(a + 1, 1);
    LoadWord(v);
    SetAndPc(s, rd, v / 64 * 64, Mask12(a + 1));
    assert s1 == s.Set(rd, v / 64 * 64).(pc := Mask12(a + 1));
    SetOnly(s, rd, v / 64 * 64);
    GetAfterSet(s, rd, v / 64 * 64);
    GetKeepsPc(s.Set(rd, v / 64 * 64), rd, Mask12(a + 1));
    assert s1.Get(rd) == v / 64 * 64;
    var s2 := Exec(s1, Addi(rd, v % 64));
    assert s2 == s1.(pc := Mask12(a + 2)).Set(rd, v);
    SetAndPc(s.Set(rd, v / 64 * 64), rd, v, Mask12(a + 2));
    SetAfterSet(s, rd, v / 64 * 64, v);
  }

  lemma SetOnly(s: State, r: Reg, v: int)
    ensures s.Set(r, v).mem == s.mem && s.Set(r, v).t == s.t && s.Set(r, v).pc == s.pc
  {
    hide Mask12;
  }

  lemma GetKeepsPc(s: State, r: Reg, p: Word)
    ensures s.(pc := p).Get(r) == s.Get(r)
  {
  }

  /** Two words that load a 12-bit value into `rd`, at `a`. */
  lemma LoadMeaning(s: State, rd: Reg, a: int, v: Word)
    requires 0 < rd < 7 && s.pc == Mask12(a)
    requires Read(s.mem, Mask12(a)) == EncodeRi(OP_LUI, rd, v / 64)
    requires Read(s.mem, Mask12(a + 1)) == EncodeRi(OP_ADDI, rd, v % 64)
    ensures Run(s, 2) == s.Set(rd, v).(pc := Mask12(a + 2))
  {
    hide Step, Read, Mask12, EncodeRi, Run, Exec, State.Set;
    LuiAddi(s, rd, a, v);
    FetchIs(s, Lui(rd, v / 64));
    var s1 := Exec(s, Lui(rd, v / 64));
    FetchIs(s1, Addi(rd, v % 64));
    RunTwo(s);
  }

  /** The head of a relaxed branch. */
  lemma LongHead(s: State, branch: BranchKind, a: int)
    requires s.pc == Mask12(a) && Read(s.mem, Mask12(a)) == EncodeRi(InverseOp(branch), 0, 4)
    ensures Step(s) == s.(pc := if Taken(branch, s.t) then Mask12(a + 1) else Mask12(a + 4))
  {
    hide Step, Read, Mask12, EncodeRi;
    MaskSum(a, 1);
    MaskSum(a, 4);
    var i := InverseInstr(branch, 4);
    assert Encodable(i) && Encode(i) == EncodeRi(InverseOp(branch), 0, 4);
    FetchIs(s, i);
  }

  lemma JumpThroughR4(s: State)
    requires Read(s.mem, s.pc) == EncodeR3(OP_SPEC, 0, 4, RB_JALR)
    ensures Step(s) == s.(pc := s.r4)
  {
    hide Step, Read, Mask12, EncodeR3;
    FetchIs(s, Jalr(0, 4));
  }

  /** A relaxed branch placed at `a`: four steps to the target, with r4 spent, when the condition
      holds; one step past the group when it does not. */
  lemma LongMeaning(s: State, branch: BranchKind, a: int, target: int)
    requires s.pc == Mask12(a)
    requires forall k | 0 <= k < 4 :: Read(s.mem, Mask12(a + k)) == LongBranch(branch, target)[k]
    ensures Taken(branch, s.t) ==> Run(s, 4) == s.(r4 := Mask12(target), pc := Mask12(target))
    ensures !Taken(branch, s.t) ==> Run(s, 1) == s.(pc := Mask12(a + 4))
  {
    var v := Mask12(target);
    var ws := LongBranch(branch, target);
    assert Read(s.mem, Mask12(a + 0)) == ws[0] && Read(s.mem, Mask12(a + 1)) == ws[1];
    assert Read(s.mem, Mask12(a + 2)) == ws[2] && Read(s.mem, Mask12(a + 3)) == ws[3];
    hide Step, Read, Mask12, EncodeRi, EncodeR3, Run, Taken;
    LongHead(s, branch, a);
    if Taken(branch, s.t) {
      var s1 := s.(pc := Mask12(a + 1));
      LoadMeaning(s1, 4, a + 1, v);
      MaskId(v);
      var s3 := s1.(r4 := v, pc := Mask12(a + 3));
      assert s1.Set(4, v).(pc := Mask12(a + 3)) == s3;
      JumpThroughR4(s3);
      RunTwo(s1);
      RunFour(s);
    } else {
      RunOne(s);
    }
  }

  // ---- the linked program ---------------------------------------------------------

  /** A link result loaded at address 0. */
  ghost predicate Holds(mem: Memory, words: seq<Word>) {
    |words| <= 4096 && forall a: Word | a < |words| :: Read(mem, a) == words[a]
  }

  /** Where item `i` of section `j` is placed. */
  ghost function ItemAddr(t: Trace, j: nat, i: nat): nat
    requires j < |t.merged| && i <= |t.merged[j].items|
  {
    BaseOf(t.merged[j], t.bases) + OffsetAt(RelOf(t.relaxed, t.merged[j].name), t.merged[j].items, i)
  }

  ghost function ItemResult(t: Trace, j: nat, i: nat): Result<seq<Word>, LinkError>
    requires j < |t.merged| && i < |t.merged[j].items|
  {
    var m := t.merged[j];
    var rel := RelOf(t.relaxed, m.name);
    ItemWords(BaseOf(m, t.bases), rel, t.env, i, m.items[i], OffsetAt(rel, m.items, i))
  }

  /** Every word of every item is in memory at its address. */
  lemma ItemLoaded(t: Trace, words: seq<Word>, mem: Memory, j: nat, i: nat)
    requires ImageOf(t, words) && Holds(mem, words) && j < |t.merged| && i < |t.merged[j].items|
    requires EmitAll(t.merged, t.bases, t.relaxed, t.env, |t.merged|).Ok?
    ensures Loaded(t, mem, j, i)
  {
    hide ItemResult, ItemAddr, Read, ImageOf, EmitAll, EmitMerged, Holds, BaseOf, SizeOf;
    ItemPlaced(t, j, i);
    var ws := ItemResult(t, j, i).value;
    forall k | 0 <= k < |ws|
      ensures HoldsWord(mem, ItemAddr(t, j, i) + k, ws[k])
    {
      ItemWordPlaced(t, words, j, i, k);
      HoldsAt(mem, words, ItemAddr(t, j, i) + k);
    }
  }

  /** The words of an item are where its section emits them. */
  lemma ItemPlaced(t: Trace, j: nat, i: nat)
    requires j < |t.merged| && i < |t.merged[j].items|
    requires EmitAll(t.merged, t.bases, t.relaxed, t.env, |t.merged|).Ok?
    ensures ItemResult(t, j, i).Ok? && EmitMerged(t.merged[j], t.bases, t.relaxed, t.env).Ok?
    ensures var ps, ws := EmitMerged(t.merged[j], t.bases, t.relaxed, t.env).value, ItemResult(t, j, i).value;
            var off := ItemAddr(t, j, i) - BaseOf(t.merged[j], t.bases);
            0 <= off && off + |ws| <= |ps| == SizeOf(t.merged[j], t.relaxed)
            && forall k | 0 <= k < |ws| :: ps[off + k].1 == ws[k]
  {
    var m := t.merged[j];
    var rel := RelOf(t.relaxed, m.name);
    EmitAllParts(t.merged, t.bases, t.relaxed, t.env, |t.merged|, j);
    hide EmitAll;
    EmitMergedConsecutive(m, t.bases, t.relaxed, t.env);
    EmitHasItem(BaseOf(m, t.bases), rel, t.env, m.items, |m.items|, i);
    hide ItemWords, EmitSection, OffsetAt, SectionBase;
  }

  lemma ItemWordPlaced(t: Trace, words: seq<Word>, j: nat, i: nat, k: nat)
    requires ImageOf(t, words) && j < |t.merged| && i < |t.merged[j].items|
    requires EmitAll(t.merged, t.bases, t.relaxed, t.env, |t.merged|).Ok? && ItemResult(t, j, i).Ok?
    requires k < |ItemResult(t, j, i).value|
    ensures ItemAddr(t, j, i) + k < |words| <= 4096 && words[ItemAddr(t, j, i) + k] == ItemResult(t, j, i).value[k]
  {
    hide EmitAll, EmitMerged, ItemResult, ItemAddr, SizeOf, BaseOf;
    ItemPlaced(t, j, i);
    var a := ItemAddr(t, j, i) + k;
    assert Covers(t.merged[j], t.bases, t.relaxed, a);
    assert WordAt(t, words, j, a);
  }

  /** The words of item `i` of section `j` are in memory at its address. */
  ghost predicate Loaded(t: Trace, mem: Memory, j: nat, i: nat)
    requires j < |t.merged| && i < |t.merged[j].items|
  {
    var ws := ItemResult(t, j, i);
    ws.Ok? && forall k | 0 <= k < |ws.value| :: HoldsWord(mem, ItemAddr(t, j, i) + k, ws.value[k])
  }

  predicate HoldsWord(mem: Memory, a: nat, w: Word) { a < 4096 && Read(mem, a) == w }

  lemma HoldsAt(mem: Memory, words: seq<Word>, a: nat)
    requires Holds(mem, words) && a < |words|
    ensures a < 4096 && Read(mem, a) == words[a]
  {
  }

  lemma NextAddr(t: Trace, j: nat, i: nat)
    requires j < |t.merged| && i < |t.merged[j].items|
    ensures ItemAddr(t, j, i + 1)
            == ItemAddr(t, j, i) + ItemSize(RelOf(t.relaxed, t.merged[j].name), i, t.merged[j].items[i])
  {
  }

  /** Branch meaning is preserved by linking and relaxation: from a branch item the program goes
      to its symbol's final address plus the addend, modulo 4096, when the condition holds, and
      to the next item when it does not.  T, memory and the registers stay as they are, but for
      r4 on the taken path of a relaxed branch. */
  lemma LinkedBranch(opts: Bases, pieces: seq<Piece>, t: Trace, words: seq<Word>, s: State, j: nat, i: nat)
    requires Linked(opts, pieces, t, words) && Holds(s.mem, words)
    requires j < |t.merged| && i < |t.merged[j].items| && t.merged[j].items[i].ItemBrel?
    requires s.pc == Mask12(ItemAddr(t, j, i))
    ensures var it := t.merged[j].items[i];
            var target := Resolve(it.src, it.sym, t.env);
            var next := Mask12(ItemAddr(t, j, i + 1));
            target.Ok? &&
            var dest := Mask12(target.value + it.addend);
            if i in RelOf(t.relaxed, t.merged[j].name) then
              (Taken(it.branch, s.t) ==> Run(s, 4) == s.(r4 := dest, pc := dest))
              && (!Taken(it.branch, s.t) ==> Run(s, 1) == s.(pc := next))
            else
              Run(s, 1) == s.(pc := if Taken(it.branch, s.t) then dest else next)
  {
    hide Linked, ImageOf, Holds, Resolve, Run, Loaded, Settled, Defs, BuildEnv, EmitAll, Mask12;
    LinkedImage(opts, pieces, t, words);
    ItemLoaded(t, words, s.mem, j, i);
    NextAddr(t, j, i);
    BranchAt(t, s, j, i);
    hide ItemAddr;
  }

  lemma BranchAt(t: Trace, s: State, j: nat, i: nat)
    requires j < |t.merged| && i < |t.merged[j].items| && t.merged[j].items[i].ItemBrel?
    requires s.pc == Mask12(ItemAddr(t, j, i)) && Loaded(t, s.mem, j, i)
    ensures var it := t.merged[j].items[i];
            var target := Resolve(it.src, it.sym, t.env);
            target.Ok? &&
            var dest := Mask12(target.value + it.addend);
            if i in RelOf(t.relaxed, t.merged[j].name) then
              (Taken(it.branch, s.t) ==> Run(s, 4) == s.(r4 := dest, pc := dest))
              && (!Taken(it.branch, s.t) ==> Run(s, 1) == s.(pc := Mask12(ItemAddr(t, j, i) + 4)))
            else
              Run(s, 1) == s.(pc := if Taken(it.branch, s.t) then dest else Mask12(ItemAddr(t, j, i) + 1))
  {
    hide *;
    var it := t.merged[j].items[i];
    LoadedOk(t, s.mem, j, i);
    var ws := BranchWords(t, j, i);
    var target := Resolve(it.src, it.sym, t.env).value + it.addend;
    if i in RelOf(t.relaxed, t.merged[j].name) {
      LongAt(t, s, j, i, ws, it.branch, target);
    } else {
      ShortAt(t, s, j, i, ws, it.branch, target);
    }
  }

  lemma LoadedOk(t: Trace, mem: Memory, j: nat, i: nat)
    requires j < |t.merged| && i < |t.merged[j].items| && Loaded(t, mem, j, i)
    ensures ItemResult(t, j, i).Ok?
  {
    hide ItemResult, ItemAddr;
  }

  lemma LongAt(t: Trace, s: State, j: nat, i: nat, ws: seq<Word>, branch: BranchKind, target: int)
    requires j < |t.merged| && i < |t.merged[j].items| && Loaded(t, s.mem, j, i) && s.pc == Mask12(ItemAddr(t, j, i))
    requires ItemResult(t, j, i) == Ok(ws) && ws == LongBranch(branch, target)
    ensures Taken(branch, s.t) ==> Run(s, 4) == s.(r4 := Mask12(target), pc := Mask12(target))
    ensures !Taken(branch, s.t) ==> Run(s, 1) == s.(pc := Mask12(ItemAddr(t, j, i) + 4))
  {
    hide *;
    LongLength(branch, target);
    forall k | 0 <= k < 4
      ensures Read(s.mem, Mask12(ItemAddr(t, j, i) + k)) == LongBranch(branch, target)[k]
    {
      LoadedWord(t, s.mem, j, i, ws, k);
    }
    LongMeaning(s, branch, ItemAddr(t, j, i), target);
  }

  lemma ShortAt(t: Trace, s: State, j: nat, i: nat, ws: seq<Word>, branch: BranchKind, target: int)
    requires j < |t.merged| && i < |t.merged[j].items| && Loaded(t, s.mem, j, i) && s.pc == Mask12(ItemAddr(t, j, i))
    requires InRange(target - ItemAddr(t, j, i))
    requires ItemResult(t, j, i) == Ok(ws) && ws == [ShortBranch(branch, target - ItemAddr(t, j, i))]
    ensures Run(s, 1) == s.(pc := if Taken(branch, s.t) then Mask12(target) else Mask12(ItemAddr(t, j, i) + 1))
  {
    hide *;
    LoadedWord(t, s.mem, j, i, ws, 0);
    assert ItemAddr(t, j, i) + 0 == ItemAddr(t, j, i);
    ShortMeaning(s, branch, ItemAddr(t, j, i), target);
  }

  lemma LoadedWord(t: Trace, mem: Memory, j: nat, i: nat, ws: seq<Word>, k: nat)
    requires j < |t.merged| && i < |t.merged[j].items| && Loaded(t, mem, j, i)
    requires ItemResult(t, j, i) == Ok(ws) && k < |ws|
    ensures Read(mem, Mask12(ItemAddr(t, j, i) + k)) == ws[k]
  {
    hide ItemResult, ItemAddr;
    assert ItemResult(t, j, i).value[k] == ws[k];
    MaskId(ItemAddr(t, j, i) + k);
  }

  lemma BranchWords(t: Trace, j: nat, i: nat) returns (ws: seq<Word>)
    requires j < |t.merged| && i < |t.merged[j].items| && t.merged[j].items[i].ItemBrel?
    requires ItemResult(t, j, i).Ok?
    ensures ItemResult(t, j, i) == Ok(ws)
    ensures var it := t.merged[j].items[i];
            var target := Resolve(it.src, it.sym, t.env);
            target.Ok? &&
            if i in RelOf(t.relaxed, t.merged[j].name) then ws == LongBranch(it.branch, target.value + it.addend)
            else
              var offset := target.value + it.addend - ItemAddr(t, j, i);
              InRange(offset) && ws == [ShortBranch(it.branch, offset)]
  {
    hide LongBranch, ShortBranch, OffsetAt, Resolve;
    ws := ItemResult(t, j, i).value;
  }

  /** A plain word is linked as it is, a 12-bit relocation as its symbol's final address plus the addend,
      at the address that the item has in its section. */
  lemma LinkedWord(opts: Bases, pieces: seq<Piece>, t: Trace, words: seq<Word>, j: nat, i: nat)
    requires Linked(opts, pieces, t, words) && j < |t.merged| && i < |t.merged[j].items|
    ensures var it, a := t.merged[j].items[i], ItemAddr(t, j, i);
            (it.ItemWord? ==> a < |words| && words[a] == it.w % 4096)
            && (it.ItemReloc? && it.kind == Imm12 ==>
                  var target := Resolve(it.src, it.sym, t.env);
                  target.Ok? && a < |words| && words[a] == (target.value + it.addend) % 4096)
  {
    hide Linked, ImageOf, ItemAddr, Settled, Defs, BuildEnv, EmitAll, Resolve, OffsetAt, BaseOf, EmitMerged;
    LinkedImage(opts, pieces, t, words);
    ItemPlaced(t, j, i);
    if t.merged[j].items[i].ItemWord? || (t.merged[j].items[i].ItemReloc? && t.merged[j].items[i].kind == Imm12) {
      ItemWordPlaced(t, words, j, i, 0);
    }
  }

  /** The item that `Flatten.LoadRecords` makes of the records of `li rd, label`. */
  predicate IsLoadItem(it: Item, rd: Reg) {
    it.ItemReloc? && it.kind == LiImm12 && it.ws == [EncodeRi(OP_ADDI, rd, 0), EncodeRi(OP_LUI, rd, 0)]
  }

  /** The patched words of a load item. */
  lemma LoadWords(base: nat, rel: set<nat>, env: SymEnv, idx: nat, it: Item, off: nat, rd: Reg)
    requires IsLoadItem(it, rd) && ItemWords(base, rel, env, idx, it, off).Ok?
    ensures Resolve(it.src, it.sym, env).Ok?
    ensures var v := Mask12(Resolve(it.src, it.sym, env).value + it.addend);
            ItemWords(base, rel, env, idx, it, off).value == [EncodeRi(OP_LUI, rd, v / 64), EncodeRi(OP_ADDI, rd, v % 64)]
  {
    hide Resolve, Mask12, EncodeRi, SetImm6;
    var v := Mask12(Resolve(it.src, it.sym, env).value + it.addend);
    SetImmField(OP_LUI, rd, v / 64);
    SetImmField(OP_ADDI, rd, v % 64);
    MaskId(EncodeRi(OP_LUI, rd, v / 64));
    MaskId(EncodeRi(OP_ADDI, rd, v % 64));
    assert Reverse(it.ws) == [EncodeRi(OP_LUI, rd, 0), EncodeRi(OP_ADDI, rd, 0)];
  }

  /** A relocated load delivers: two steps put the symbol's final address plus the addend into
      `rd` and leave everything else alone, wherever the section is placed and whatever has been
      relaxed between the load and its target. */
  lemma LinkedLoad(opts: Bases, pieces: seq<Piece>, t: Trace, words: seq<Word>, s: State, j: nat, i: nat, rd: Reg)
    requires Linked(opts, pieces, t, words) && Holds(s.mem, words) && 0 < rd < 7
    requires j < |t.merged| && i < |t.merged[j].items| && IsLoadItem(t.merged[j].items[i], rd)
    requires s.pc == Mask12(ItemAddr(t, j, i))
    ensures var it := t.merged[j].items[i];
            var target := Resolve(it.src, it.sym, t.env);
            target.Ok?
            && Run(s, 2) == s.Set(rd, target.value + it.addend).(pc := Mask12(ItemAddr(t, j, i + 1)))
  {
    hide Linked, ImageOf, Holds, Resolve, Run, Loaded, Settled, Defs, BuildEnv, EmitAll, Mask12, State.Set;
    LinkedImage(opts, pieces, t, words);
    ItemLoaded(t, words, s.mem, j, i);
    NextAddr(t, j, i);
    LoadAt(t, s, j, i, rd);
    hide ItemAddr;
  }

  lemma LoadAt(t: Trace, s: State, j: nat, i: nat, rd: Reg)
    requires j < |t.merged| && i < |t.merged[j].items| && IsLoadItem(t.merged[j].items[i], rd)
    requires 0 < rd < 7 && s.pc == Mask12(ItemAddr(t, j, i)) && Loaded(t, s.mem, j, i)
    ensures var it := t.merged[j].items[i];
            var target := Resolve(it.src, it.sym, t.env);
            target.Ok?
            && Run(s, 2) == s.Set(rd, target.value + it.addend).(pc := Mask12(ItemAddr(t, j, i) + 2))
  {
    hide *;
    LoadedOk(t, s.mem, j, i);
    LoadResult(t, j, i, rd);
    var it := t.merged[j].items[i];
    var ws := ItemResult(t, j, i).value;
    LoadedWord(t, s.mem, j, i, ws, 0);
    LoadedWord(t, s.mem, j, i, ws, 1);
    assert ItemAddr(t, j, i) + 0 == ItemAddr(t, j, i);
    LoadMeaning(s, rd, ItemAddr(t, j, i), Mask12(Resolve(it.src, it.sym, t.env).value + it.addend));
    SetMasked(s, rd, Resolve(it.src, it.sym, t.env).value + it.addend);
  }

  lemma LoadResult(t: Trace, j: nat, i: nat, rd: Reg)
    requires j < |t.merged| && i < |t.merged[j].items| && IsLoadItem(t.merged[j].items[i], rd) && ItemResult(t, j, i).Ok?
    ensures var it := t.merged[j].items[i];
            it.ItemReloc? && Resolve(it.src, it.sym, t.env).Ok?
            && var v := Mask12(Resolve(it.src, it.sym, t.env).value + it.addend);
               ItemResult(t, j, i).value == [EncodeRi(OP_LUI, rd, v / 64), EncodeRi(OP_ADDI, rd, v % 64)]
  {
    hide Resolve, Mask12, OffsetAt, ItemWords, EncodeRi;
    var m := t.merged[j];
    var rel := RelOf(t.relaxed, m.name);
    LoadWords(BaseOf(m, t.bases), rel, t.env, i, m.items[i], OffsetAt(rel, m.items, i), rd);
  }

  lemma SetMasked(s: State, r: Reg, v: int)
    ensures s.Set(r, Mask12(v)) == s.Set(r, v)
  {
    MaskId(Mask12(v));
    hide Mask12;
  }
}
