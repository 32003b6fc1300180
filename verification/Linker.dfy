/** The linker (pytools/link_core.py): records become items, sections are laid out, symbols
    resolved, short branches grown until nothing changes, and words patched and emitted. */
module Linker {
  import opened Isa
  import opened ObjFile
  import opened Sequences

  datatype LinkError =
    | BadReloc(src: string)                     // a relocation without its placeholder words
    | Undefined(name: string)
    | Duplicate(name: string, first: int, second: int)
    | BudgetExhausted
    | BranchTooFar(sym: string, offset: int)    // an unrelaxed branch out of range at emission
    | RelocTooFar(offset: int)
    | RelocShape(kind: RelocKind)
    | WordAddress(addr: int)                    // a word beyond the 12-bit address space
    | SectionEnd(name: string, last: int)

  datatype Item =
    | ItemWord(w: int)
    | ItemBrel(src: string, branch: BranchKind, sym: string, addend: int)
    | ItemReloc(src: string, kind: RelocKind, ws: seq<int>, sym: string, addend: int)
    | ItemSym(src: string, name: string, linkage: Linkage, offset: Option<int>)
    | ItemLoc(src: string, lineno: int)

  // ---- records to items -----------------------------------------------------------

  /** Pops `k` word items off the end: their words, nearest first, and what is left. */
  function PopPlaceholders(k: nat, stack: seq<Item>): Option<(seq<int>, seq<Item>)>
    decreases k
  {
    if k == 0 then Some(([], stack))
    else if stack == [] || !stack[|stack| - 1].ItemWord? then None
    else
      match PopPlaceholders(k - 1, stack[..|stack| - 1])
      case None => None
      case Some((ws, rest)) => Some(([stack[|stack| - 1].w] + ws, rest))
  }

  function Zeros(n: int): seq<Item> {
    seq(if n < 0 then 0 else n, _ => ItemWord(0))
  }

  /** The effect of one record on the items so far. */
  function AddRecord(src: string, acc: seq<Item>, r: Record): Result<seq<Item>, LinkError> {
    match r
    case RecWord(w) => Ok(acc + [ItemWord(w)])
    case RecZero(n) => Ok(acc + Zeros(n))
    case RecSym(name, linkage, offset) => Ok(acc + [ItemSym(src, name, linkage, offset)])
    case RecLoc(_, lineno) => Ok(acc + [ItemLoc(src, lineno)])
    case RecBrel(branch, symbol, addend) => Ok(acc + [ItemBrel(src, branch, symbol, addend)])
    case RecReloc(kind, symbol, addend) =>
      match PopPlaceholders(RelocSpan(kind), acc)
      case None => Err(BadReloc(src))
      case Some((ws, rest)) => Ok(rest + [ItemReloc(src, kind, ws, symbol, addend)])
  }

  function ToItems(src: string, acc: seq<Item>, rs: seq<Record>): Result<seq<Item>, LinkError>
    decreases |rs|
  {
    if rs == [] then Ok(acc)
    else
      match AddRecord(src, acc, rs[0])
      case Err(e) => Err(e)
      case Ok(acc') => ToItems(src, acc', rs[1..])
  }

  /** `_records_to_items_fixed`. */
  method RecordsToItems(src: string, records: seq<Record>) returns (r: Result<seq<Item>, LinkError>)
    ensures r == ToItems(src, [], records)
  {
    var acc: seq<Item> := [];
    var i := 0;
    while i < |records|
      invariant 0 <= i <= |records|
      invariant ToItems(src, acc, records[i..]) == ToItems(src, [], records)
    {
      assert records[i..][0] == records[i] && records[i..][1..] == records[i + 1..];
      match AddRecord(src, acc, records[i]) {
        case Err(e) => return Err(e);
        case Ok(acc') => acc := acc';
      }
      i := i + 1;
    }
    return Ok(acc);
  }

  // ---- layout ---------------------------------------------------------------------

  /** Words an item occupies: a branch takes four once relaxed; symbols and locations none. */
  function ItemSize(relaxed: set<nat>, idx: nat, it: Item): nat {
    match it
    case ItemWord(_) => 1
    case ItemBrel(_, _, _, _) => if idx in relaxed then 4 else 1
    case ItemReloc(_, kind, _, _, _) => RelocSpan(kind)
    case ItemSym(_, _, _, _) => 0
    case ItemLoc(_, _) => 0
  }

  /** Words before item `n`. */
  function OffsetAt(relaxed: set<nat>, items: seq<Item>, n: nat): nat
    requires n <= |items|
  {
    if n == 0 then 0
    else OffsetAt(relaxed, items, n - 1) + ItemSize(relaxed, n - 1, items[n - 1])
  }

  /** `layout_section`. */
  method LayoutSection(relaxed: set<nat>, items: seq<Item>) returns (offsets: seq<nat>, total: nat)
    ensures |offsets| == |items|
    ensures forall i :: 0 <= i < |items| ==> offsets[i] == OffsetAt(relaxed, items, i)
    ensures total == OffsetAt(relaxed, items, |items|)
  {
    offsets, total := [], 0;
    for i := 0 to |items|
      invariant |offsets| == i && total == OffsetAt(relaxed, items, i)
      invariant forall k :: 0 <= k < i ==> offsets[k] == OffsetAt(relaxed, items, k)
    {
      offsets := offsets + [total];
      total := total + ItemSize(relaxed, i, items[i]);
    }
  }

  /** A section with the items of all its pieces, in link order. */
  datatype Merged = Merged(name: string, items: seq<Item>)

  type Bases = seq<(string, nat)>

  /** `section_base`: the first entry for the name, 0 without one. */
  function SectionBase(bases: Bases, name: string): nat {
    if bases == [] then 0
    else if bases[0].0 == name then bases[0].1
    else SectionBase(bases[1..], name)
  }

  /** The relaxed branches of each section, by item index. */
  type Relaxed = map<string, set<nat>>

  function RelOf(relaxed: Relaxed, name: string): set<nat> {
    if name in relaxed then relaxed[name] else {}
  }

  // ---- symbols --------------------------------------------------------------------

  /** A placed symbol: what `collect_placed_symbols` lists and the environment is built from. */
  datatype Def = Def(src: string, name: string, linkage: Linkage, addr: int)

  /** The definitions among the first `n` items, in order; `extern` ones define nothing. */
  function SectionDefs(base: nat, rel: set<nat>, items: seq<Item>, n: nat): seq<Def>
    requires n <= |items|
  {
    if n == 0 then []
    else
      var it := items[n - 1];
      SectionDefs(base, rel, items, n - 1) +
      if it.ItemSym? && it.linkage != Extern then
        [Def(it.src, it.name, it.linkage,
             base + if it.offset.Some? then it.offset.value else OffsetAt(rel, items, n - 1))]
      else []
  }

  function Defs(merged: seq<Merged>, bases: Bases, relaxed: Relaxed): seq<Def> {
    if merged == [] then []
    else
      var m := merged[|merged| - 1];
      Defs(merged[..|merged| - 1], bases, relaxed)
      + SectionDefs(SectionBase(bases, m.name), RelOf(relaxed, m.name), m.items, |m.items|)
  }

  datatype SymEnv = SymEnv(global: map<string, int>, local: map<(string, string), int>,
                           unique: map<string, int>)

  predicate IsGlobal(d: Def) { d.linkage == Global || d.linkage == Weak }

  /** Global and weak definitions: a name may be defined again at the same address only. */
  function GlobalMap(defs: seq<Def>, n: nat): Result<map<string, int>, LinkError>
    requires n <= |defs|
  {
    if n == 0 then Ok(map[])
    else
      match GlobalMap(defs, n - 1)
      case Err(e) => Err(e)
      case Ok(m) =>
        var d := defs[n - 1];
        if !IsGlobal(d) then Ok(m)
        else if d.name in m && m[d.name] != d.addr then Err(Duplicate(d.name, m[d.name], d.addr))
        else Ok(m[d.name := d.addr])
  }

  function LocalMap(defs: seq<Def>, n: nat): map<(string, string), int>
    requires n <= |defs|
  {
    if n == 0 then map[]
    else
      var d := defs[n - 1];
      if d.linkage == Local then LocalMap(defs, n - 1)[(d.src, d.name) := d.addr]
      else LocalMap(defs, n - 1)
  }

  /** The first local definition of `name` from `i` on at an address other than `addr`. */
  function FirstOther(defs: seq<Def>, name: string, addr: int, i: nat): Option<int>
    decreases |defs| - i
  {
    if i >= |defs| then None
    else if defs[i].linkage == Local && defs[i].name == name && defs[i].addr != addr then
      Some(defs[i].addr)
    else FirstOther(defs, name, addr, i + 1)
  }

  /** Local names across all objects; two addresses for one name are an error. */
  function UniqueMap(defs: seq<Def>, n: nat): Result<map<string, int>, LinkError>
    requires n <= |defs|
  {
    if n == 0 then Ok(map[])
    else
      match UniqueMap(defs, n - 1)
      case Err(e) => Err(e)
      case Ok(m) =>
        var d := defs[n - 1];
        if d.linkage != Local || d.name in m then Ok(m)
        else
          match FirstOther(defs, d.name, d.addr, n)
          case Some(a) => Err(Duplicate(d.name, d.addr, a))
          case None => Ok(m[d.name := d.addr])
  }

  /** `build_symbol_env`. */
  function BuildEnv(defs: seq<Def>): Result<SymEnv, LinkError> {
    match GlobalMap(defs, |defs|)
    case Err(e) => Err(e)
    case Ok(global) =>
      match UniqueMap(defs, |defs|)
      case Err(e) => Err(e)
      case Ok(unique) => Ok(SymEnv(global, LocalMap(defs, |defs|), unique))
  }

  /** `resolve_sym`: the file's own local name, then a global one, then any local one. */
  function Resolve(src: string, name: string, env: SymEnv): Result<int, LinkError> {
    if (src, name) in env.local then Ok(env.local[(src, name)])
    else if name in env.global then Ok(env.global[name])
    else if name in env.unique then Ok(env.unique[name])
    else Err(Undefined(name))
  }

  // ---- relaxation -----------------------------------------------------------------

  predicate InRange(offset: int) { -64 <= offset <= 63 }

  /** The distance a branch item has to cover. */
  function BrelOffset(env: SymEnv, base: nat, rel: set<nat>, items: seq<Item>, i: nat)
    : Result<int, LinkError>
    requires i < |items| && items[i].ItemBrel?
  {
    match Resolve(items[i].src, items[i].sym, env)
    case Err(e) => Err(e)
    case Ok(target) => Ok(target + items[i].addend - (base + OffsetAt(rel, items, i)))
  }

  predicate OpenBranch(rel: set<nat>, items: seq<Item>, i: nat)
    requires i < |items|
  {
    items[i].ItemBrel? && i !in rel
  }

  /** One round over the first `n` items of a section: every unrelaxed branch that does not
      reach is added.  Offsets and symbols are those of the layout before the round. */
  function Scan(env: SymEnv, base: nat, rel: set<nat>, items: seq<Item>, n: nat)
    : Result<set<nat>, LinkError>
    requires n <= |items|
  {
    if n == 0 then Ok(rel)
    else
      match Scan(env, base, rel, items, n - 1)
      case Err(e) => Err(e)
      case Ok(acc) =>
        if !OpenBranch(rel, items, n - 1) then Ok(acc)
        else
          match BrelOffset(env, base, rel, items, n - 1)
          case Err(e) => Err(e)
          case Ok(offset) => Ok(if InRange(offset) then acc else acc + {n - 1})
  }

  /** The round over the first `n` sections. */
  function ScanAll(merged: seq<Merged>, bases: Bases, env: SymEnv, relaxed: Relaxed, n: nat)
    : Result<Relaxed, LinkError>
    requires n <= |merged|
  {
    if n == 0 then Ok(relaxed)
    else
      match ScanAll(merged, bases, env, relaxed, n - 1)
      case Err(e) => Err(e)
      case Ok(acc) =>
        var m := merged[n - 1];
        match Scan(env, SectionBase(bases, m.name), RelOf(relaxed, m.name), m.items, |m.items|)
        case Err(e) => Err(e)
        case Ok(rel) => Ok(acc[m.name := rel])
  }

  function Round(merged: seq<Merged>, bases: Bases, relaxed: Relaxed): Result<Relaxed, LinkError> {
    match BuildEnv(Defs(merged, bases, relaxed))
    case Err(e) => Err(e)
    case Ok(env) => ScanAll(merged, bases, env, relaxed, |merged|)
  }

  /** No section gained a branch. */
  predicate Unchanged(merged: seq<Merged>, old_: Relaxed, new_: Relaxed) {
    forall j | 0 <= j < |merged| :: RelOf(old_, merged[j].name) == RelOf(new_, merged[j].name)
  }

  /** `relax_loop`. */
  function RelaxLoop(merged: seq<Merged>, bases: Bases, relaxed: Relaxed, budget: nat)
    : Result<Relaxed, LinkError>
    decreases budget
  {
    if budget == 0 then Err(BudgetExhausted)
    else
      match Round(merged, bases, relaxed)
      case Err(e) => Err(e)
      case Ok(new_) =>
        if Unchanged(merged, relaxed, new_) then Ok(new_)
        else RelaxLoop(merged, bases, new_, budget - 1)
  }

  // ---- patching and emission ------------------------------------------------------

  /** `set_imm6` and `set_rd`: fields replaced, bits above the word dropped. */
  function SetImm6(w: int, v: int): Word { Mask12(w) / 64 * 64 + v % 64 }

  function SetRd(w: int, rd: Reg): Word { Mask12(w) / 512 * 512 + rd * 64 + Mask12(w) % 64 }

  /** `patch_placeholders`: `ws` in address order. */
  function Patch(kind: RelocKind, ws: seq<int>, val: int, addr: int): Result<seq<int>, LinkError> {
    var v := Mask12(val);
    var hi6, lo6 := v / 64, v % 64;
    match kind
    case Imm12 => Ok([v])
    case LiImm12 =>
      if |ws| != 2 then Err(RelocShape(kind)) else Ok([SetImm6(ws[0], hi6), SetImm6(ws[1], lo6)])
    case JmpTarget12 =>
      if |ws| != 3 then Err(RelocShape(kind))
      else Ok([SetImm6(ws[0], hi6), SetImm6(ws[1], lo6), ws[2]])
    case CallTarget12 =>
      if |ws| != 3 then Err(RelocShape(kind))
      else Ok([SetImm6(ws[0], hi6), SetImm6(ws[1], lo6), ws[2]])
    case Imm6Pc =>
      if |ws| != 1 then Err(RelocShape(kind))
      else
        var off := v - addr;
        if !InRange(off) then Err(RelocTooFar(off))
        else Ok([SetImm6(SetRd(ws[0], if off < 0 then 7 else 0), off)])
  }

  /** The opcode of a branch, and of its inverse. */
  function BranchOp(branch: BranchKind): int { if branch == BT then OP_ADDI else OP_LUI }

  function InverseOp(branch: BranchKind): int { if branch == BT then OP_LUI else OP_ADDI }

  /** A branch that reaches: one word. */
  function ShortBranch(branch: BranchKind, offset: int): Word {
    EncodeRi(BranchOp(branch), if offset < 0 then 7 else 0, offset)
  }

  /** A relaxed branch: the inverse condition skips an absolute jump through r4. */
  function LongBranch(branch: BranchKind, target: int): seq<Word> {
    var t := Mask12(target);
    [EncodeRi(InverseOp(branch), 0, 4), EncodeRi(OP_LUI, 4, t / 64), EncodeRi(OP_ADDI, 4, t % 64),
     EncodeR3(OP_SPEC, 0, 4, RB_JALR)]
  }

  function MaskAll(ws: seq<int>): seq<Word> {
    seq(|ws|, i requires 0 <= i < |ws| => Mask12(ws[i]))
  }

  /** The words of one item placed at `base + off` (the addresses follow consecutively). */
  function ItemWords(base: nat, rel: set<nat>, env: SymEnv, idx: nat, it: Item, off: nat)
    : Result<seq<Word>, LinkError>
  {
    match it
    case ItemWord(w) => Ok([Mask12(w)])
    case ItemSym(_, _, _, _) => Ok([])
    case ItemLoc(_, _) => Ok([])
    case ItemReloc(src, kind, ws, sym, addend) =>
      (match Resolve(src, sym, env)
       case Err(e) => Err(e)
       case Ok(target) =>
         match Patch(kind, Reverse(ws), target + addend, base + off)
         case Err(e) => Err(e)
         case Ok(patched) => Ok(MaskAll(patched)))
    case ItemBrel(src, branch, sym, addend) =>
      match Resolve(src, sym, env)
      case Err(e) => Err(e)
      case Ok(target) =>
        var offset := target + addend - (base + off);
        if idx in rel then Ok(LongBranch(branch, target + addend))
        else if InRange(offset) then Ok([ShortBranch(branch, offset)])
        else Err(BranchTooFar(sym, offset))
  }

  function Place(addr: nat, ws: seq<Word>): seq<(nat, Word)> {
    seq(|ws|, i requires 0 <= i < |ws| => (addr + i, ws[i]))
  }

  /** `emit_section`: addressed words of the first `n` items. */
  function EmitSection(base: nat, rel: set<nat>, env: SymEnv, items: seq<Item>, n: nat)
    : Result<seq<(nat, Word)>, LinkError>
    requires n <= |items|
  {
    if n == 0 then Ok([])
    else
      match EmitSection(base, rel, env, items, n - 1)
      case Err(e) => Err(e)
      case Ok(ps) =>
        var off := OffsetAt(rel, items, n - 1);
        match ItemWords(base, rel, env, n - 1, items[n - 1], off)
        case Err(e) => Err(e)
        case Ok(ws) => Ok(ps + Place(base + off, ws))
  }

  function EmitMerged(m: Merged, bases: Bases, relaxed: Relaxed, env: SymEnv)
    : Result<seq<(nat, Word)>, LinkError>
  {
    EmitSection(SectionBase(bases, m.name), RelOf(relaxed, m.name), env, m.items, |m.items|)
  }

  function EmitAll(merged: seq<Merged>, bases: Bases, relaxed: Relaxed, env: SymEnv, n: nat)
    : Result<seq<(nat, Word)>, LinkError>
    requires n <= |merged|
  {
    if n == 0 then Ok([])
    else
      match EmitAll(merged, bases, relaxed, env, n - 1)
      case Err(e) => Err(e)
      case Ok(ps) =>
        match EmitMerged(merged[n - 1], bases, relaxed, env)
        case Err(e) => Err(e)
        case Ok(qs) => Ok(ps + qs)
  }

  // ---- the image ------------------------------------------------------------------

  /** The word last written to address `a`, 0 if none was. */
  function LastWrite(ps: seq<(nat, Word)>, a: nat): Word {
    if ps == [] then 0
    else if ps[|ps| - 1].0 == a then ps[|ps| - 1].1
    else LastWrite(ps[..|ps| - 1], a)
  }

  function MaxAddr(ps: seq<(nat, Word)>): (r: int)
    ensures r >= -1 && (forall i | 0 <= i < |ps| :: ps[i].0 <= r)
    ensures r >= 0 ==> exists i | 0 <= i < |ps| :: ps[i].0 == r
  {
    if ps == [] then -1
    else
      var r := MaxAddr(ps[..|ps| - 1]);
      assert forall i | 0 <= i < |ps| - 1 :: ps[..|ps| - 1][i] == ps[i];
      if ps[|ps| - 1].0 > r then ps[|ps| - 1].0 else r
  }

  /** The first address beyond the address space. */
  function FirstBeyond(ps: seq<(nat, Word)>, i: nat): Option<nat>
    requires i <= |ps|
    decreases |ps| - i
  {
    if i == |ps| then None
    else if ps[i].0 > 4095 then Some(ps[i].0)
    else FirstBeyond(ps, i + 1)
  }

  function Image(ps: seq<(nat, Word)>): seq<Word> {
    seq(MaxAddr(ps) + 1, a requires 0 <= a => LastWrite(ps, a))
  }

  function MakeImage(ps: seq<(nat, Word)>): Result<seq<Word>, LinkError> {
    match FirstBeyond(ps, 0)
    case Some(a) => Err(WordAddress(a))
    case None => Ok(Image(ps))
  }

  lemma {:induction false} LastWriteSnoc(ps: seq<(nat, Word)>, p: (nat, Word), a: nat)
    ensures LastWrite(ps + [p], a) == if p.0 == a then p.1 else LastWrite(ps, a)
  {
    assert (ps + [p])[..|ps|] == ps;
  }

  /** Address `a` was written last by the write at `i`. */
  predicate WrittenLast(ps: seq<(nat, Word)>, a: nat, i: nat) {
    i < |ps| && ps[i].0 == a && forall j | i < j < |ps| :: ps[j].0 != a
  }

  lemma {:induction false} LastWriteIs(ps: seq<(nat, Word)>, a: nat)
    ensures (exists i: nat :: WrittenLast(ps, a, i) && LastWrite(ps, a) == ps[i].1)
            || ((forall i | 0 <= i < |ps| :: ps[i].0 != a) && LastWrite(ps, a) == 0)
  {
    if ps != [] {
      var n := |ps| - 1;
      if ps[n].0 == a {
        assert WrittenLast(ps, a, n);
      } else {
        LastWriteIs(ps[..n], a);
        if i: nat :| WrittenLast(ps[..n], a, i) && LastWrite(ps[..n], a) == ps[..n][i].1 {
          assert WrittenLast(ps, a, i);
        } else {
          assert forall i | 0 <= i < n :: ps[..n][i] == ps[i];
        }
      }
    }
  }

  lemma {:induction false} BeyondIs(ps: seq<(nat, Word)>, i: nat)
    requires i <= |ps|
    ensures var b := FirstBeyond(ps, i);
            if b.None? then forall k | i <= k < |ps| :: ps[k].0 <= 4095
            else exists k: nat :: i <= k < |ps| && ps[k].0 == b.value > 4095 && forall j | i <= j < k :: ps[j].0 <= 4095
    decreases |ps| - i
  {
    if i < |ps| && ps[i].0 <= 4095 { BeyondIs(ps, i + 1); }
  }

  /** The image of any list of writes, overlapping or not: it ends at the highest address written, holds at
      each address the word last written there and 0 where nothing was; the first address beyond the address
      space is an error. */
  lemma ImageMeans(ps: seq<(nat, Word)>, a: nat)
    ensures var r := MakeImage(ps);
            if r.Ok? then
              (forall i | 0 <= i < |ps| :: ps[i].0 <= 4095 && ps[i].0 < |r.value|)
              && (r.value != [] ==> exists i :: 0 <= i < |ps| && ps[i].0 == |r.value| - 1)
              && (a < |r.value| ==>
                    (exists i: nat :: WrittenLast(ps, a, i) && r.value[a] == ps[i].1)
                    || ((forall i | 0 <= i < |ps| :: ps[i].0 != a) && r.value[a] == 0))
            else
              exists k: nat :: k < |ps| && ps[k].0 > 4095 && r.error == WordAddress(ps[k].0)
                && forall j | 0 <= j < k :: ps[j].0 <= 4095
  {
    hide LastWrite;
    BeyondIs(ps, 0);
    LastWriteIs(ps, a);
  }

  /** The loop that fills the image list in place, in emission order. */
  method FillImage(ps: seq<(nat, Word)>) returns (r: Result<seq<Word>, LinkError>)
    ensures r == MakeImage(ps)
  {
    var img := new Word[MaxAddr(ps) + 1](_ => 0);
    assert ps[0..] == ps;
    for i := 0 to |ps|
      invariant FirstBeyond(ps, i) == FirstBeyond(ps, 0)
      invariant forall a: nat | a < img.Length :: img[a] == LastWrite(ps[..i], a)
    {
      if ps[i].0 > 4095 { return Err(WordAddress(ps[i].0)); }
      assert ps[..i + 1] == ps[..i] + [ps[i]];
      forall a: nat { LastWriteSnoc(ps[..i], ps[i], a); }
      img[ps[i].0] := ps[i].1;
    }
    assert ps[..|ps|] == ps;
    assert img[..] == Image(ps);
    return Ok(img[..]);
  }

  // ---- the whole link -------------------------------------------------------------

  datatype Piece = Piece(source: string, name: string, items: seq<Item>)

  /** The pieces of one object's first `n` sections. */
  function ObjectPieces(fp: string, sections: seq<Section>, n: nat): Result<seq<Piece>, LinkError>
    requires n <= |sections|
  {
    if n == 0 then Ok([])
    else
      match ObjectPieces(fp, sections, n - 1)
      case Err(e) => Err(e)
      case Ok(ps) =>
        match ToItems(fp, [], sections[n - 1].records)
        case Err(e) => Err(e)
        case Ok(items) => Ok(ps + [Piece(fp, sections[n - 1].name, items)])
  }

  function AllPieces(inputs: seq<(string, ObjectFile)>, n: nat): Result<seq<Piece>, LinkError>
    requires n <= |inputs|
  {
    if n == 0 then Ok([])
    else
      match AllPieces(inputs, n - 1)
      case Err(e) => Err(e)
      case Ok(ps) =>
        var (fp, obj) := inputs[n - 1];
        match ObjectPieces(fp, obj.sections, |obj.sections|)
        case Err(e) => Err(e)
        case Ok(qs) => Ok(ps + qs)
  }

  /** `collect_section_order`: names by first appearance. */
  function SectionOrder(pieces: seq<Piece>): (r: seq<string>)
    ensures forall i, j | 0 <= i < j < |r| :: r[i] != r[j]
  {
    if pieces == [] then []
    else
      var order := SectionOrder(pieces[..|pieces| - 1]);
      var name := pieces[|pieces| - 1].name;
      if name in order then order else order + [name]
  }

  function ConcatItems(pieces: seq<Piece>, name: string): seq<Item> {
    if pieces == [] then []
    else
      ConcatItems(pieces[..|pieces| - 1], name)
      + if pieces[|pieces| - 1].name == name then pieces[|pieces| - 1].items else []
  }

  function MergePieces(pieces: seq<Piece>): (r: seq<Merged>)
    ensures forall i, j | 0 <= i < j < |r| :: r[i].name != r[j].name
  {
    var order := SectionOrder(pieces);
    seq(|order|, i requires 0 <= i < |order| => Merged(order[i], ConcatItems(pieces, order[i])))
  }

  predicate Pinned(bases: Bases, name: string) { exists i | 0 <= i < |bases| :: bases[i].0 == name }

  /** `assign_bases`: sections without a given base get base 0. */
  function AssignBases(opts: Bases, order: seq<string>): Bases {
    if order == [] then opts
    else
      var bases := AssignBases(opts, order[..|order| - 1]);
      if Pinned(opts, order[|order| - 1]) then bases else bases + [(order[|order| - 1], 0)]
  }

  datatype PlacedSection = PlacedSection(name: string, base: nat, size: nat)

  datatype LinkResult = LinkResult(words: seq<Word>, symbols: seq<Def>, sections: seq<PlacedSection>)

  function PlacedSections(merged: seq<Merged>, bases: Bases, relaxed: Relaxed): seq<PlacedSection> {
    seq(|merged|, i requires 0 <= i < |merged| =>
      PlacedSection(merged[i].name, SectionBase(bases, merged[i].name),
                    OffsetAt(RelOf(relaxed, merged[i].name), merged[i].items, |merged[i].items|)))
  }

  /** The first non-empty section that ends beyond the address space. */
  function FirstLongSection(sections: seq<PlacedSection>, i: nat): Option<(string, int)>
    requires i <= |sections|
    decreases |sections| - i
  {
    if i == |sections| then None
    else if sections[i].size > 0 && sections[i].base + sections[i].size - 1 > 4095 then
      Some((sections[i].name, sections[i].base + sections[i].size - 1))
    else FirstLongSection(sections, i + 1)
  }

  /** Everything after relaxation. */
  function Finish(merged: seq<Merged>, bases: Bases, relaxed: Relaxed): Result<LinkResult, LinkError> {
    var defs := Defs(merged, bases, relaxed);
    match BuildEnv(defs)
    case Err(e) => Err(e)
    case Ok(env) =>
      match EmitAll(merged, bases, relaxed, env, |merged|)
      case Err(e) => Err(e)
      case Ok(ps) =>
        match MakeImage(ps)
        case Err(e) => Err(e)
        case Ok(words) =>
          var sections := PlacedSections(merged, bases, relaxed);
          match FirstLongSection(sections, 0)
          case Some((name, last)) => Err(SectionEnd(name, last))
          case None => Ok(LinkResult(words, defs, sections))
  }

  function BudgetFor(pieces: seq<Piece>): nat { |pieces| * 4 + 16 }

  function LinkPieces(opts: Bases, pieces: seq<Piece>): Result<LinkResult, LinkError> {
    var merged := MergePieces(pieces);
    var bases := AssignBases(opts, SectionOrder(pieces));
    match RelaxLoop(merged, bases, map[], BudgetFor(pieces))
    case Err(e) => Err(e)
    case Ok(relaxed) => Finish(merged, bases, relaxed)
  }

  /** `link_object_files`. */
  function LinkObjectFiles(opts: Bases, inputs: seq<(string, ObjectFile)>): Result<LinkResult, LinkError> {
    match AllPieces(inputs, |inputs|)
    case Err(e) => Err(e)
    case Ok(pieces) => LinkPieces(opts, pieces)
  }
}
