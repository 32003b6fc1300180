/** The assembler's remaining loops as the source runs them, and both assemblers end to end, each
    proved to compute the function of `Assembler` that the theorems are about. */
module AssemblerMethods {
  import opened Isa
  import opened ObjFile
  import opened Linker
  import opened Assembler

  // ---- flat encoding --------------------------------------------------------------

  /** The address map that a list of writes leaves. */
  ghost predicate Maps(m: map<nat, Word>, pairs: seq<(nat, Word)>) {
    (forall a: nat :: LastWrite(pairs, a) == if a in m then m[a] else 0)
    && (forall a: nat | a in m :: a <= MaxAddr(pairs))
    && (MaxAddr(pairs) >= 0 ==> MaxAddr(pairs) in m)
    && (m == map[] <==> pairs == [])
  }

  lemma MapsSnoc(m: map<nat, Word>, pairs: seq<(nat, Word)>, a: nat, w: Word)
    requires Maps(m, pairs)
    ensures Maps(m[a := w], pairs + [(a, w)])
  {
    hide LastWrite, MaxAddr;
    MaxSnoc(pairs, a, w);
    var more, m' := pairs + [(a, w)], m[a := w];
    assert a in m' && more != [];
    forall b: nat
      ensures LastWrite(more, b) == if b in m' then m'[b] else 0
    {
      LastWriteSnoc(pairs, (a, w), b);
    }
    assert forall b: nat | b in m' :: b == a || b in m;
    assert MaxAddr(more) in m';
  }

  lemma MaxSnoc(pairs: seq<(nat, Word)>, a: nat, w: Word)
    ensures MaxAddr(pairs + [(a, w)]) == if a > MaxAddr(pairs) then a else MaxAddr(pairs)
  {
    assert (pairs + [(a, w)])[..|pairs|] == pairs;
  }

  /** The words of one statement enter the map one after the other. */
  method EnterWords(m: map<nat, Word>, ghost pairs: seq<(nat, Word)>, addr: nat, ws: seq<Word>) returns (out: map<nat, Word>)
    requires Maps(m, pairs)
    ensures Maps(out, pairs + Place(addr, ws))
  {
    hide Maps;
    out := m;
    assert pairs + Place(addr, ws[..0]) == pairs;
    for i := 0 to |ws|
      invariant Maps(out, pairs + Place(addr, ws[..i]))
    {
      MapsSnoc(out, pairs + Place(addr, ws[..i]), addr + i, ws[i]);
      assert pairs + Place(addr, ws[..i + 1]) == pairs + Place(addr, ws[..i]) + [(addr + i, ws[i])];
      out := out[addr + i := ws[i]];
    }
    assert ws[..|ws|] == ws;
  }

  lemma {:induction false} EncodeFails(ps: seq<Placed>, labels: map<string, int>, n: nat, e: AsmError)
    requires n <= |ps| && EncodePairs(ps[..n], labels) == Err(e)
    ensures EncodePairs(ps, labels) == Err(e)
    decreases |ps| - n
  {
    if n < |ps| {
      assert ps[..n + 1][..n] == ps[..n];
      EncodeFails(ps, labels, n + 1, e);
    } else {
      assert ps[..n] == ps;
    }
  }

  /** `_encode_all`. */
  method EncodeImage(ps: seq<Placed>) returns (r: Result<seq<Word>, AsmError>)
    ensures r == EncodeAll(ps)
  {
    hide EncodeStmt, Maps, LabelMap, Image;
    if ps == [] { return Ok([]); }
    var labels := LabelMap(ps);
    var wordMap: map<nat, Word> := map[];
    ghost var pairs: seq<(nat, Word)> := [];
    NothingMapped();
    for i := 0 to |ps|
      invariant EncodePairs(ps[..i], labels) == Ok(pairs) && Maps(wordMap, pairs)
    {
      assert ps[..i + 1][..i] == ps[..i];
      var words := EncodeStmt(ps[i], labels);
      if words.Err? {
        EncodeFails(ps, labels, i + 1, words.error);
        return Err(words.error);
      }
      var addr: nat := if ps[i].addr < 0 then 0 else ps[i].addr;
      wordMap := EnterWords(wordMap, pairs, addr, words.value);
      pairs := pairs + Place(addr, words.value);
    }
    assert ps[..|ps|] == ps;
    MapEmpty(wordMap, pairs);
    if wordMap == map[] { return Err(NoWords); }
    var image := FillFromMap(wordMap, pairs);
    return Ok(image);
  }

  lemma NothingMapped()
    ensures Maps(map[], [])
  {
  }

  lemma MapEmpty(m: map<nat, Word>, pairs: seq<(nat, Word)>)
    requires Maps(m, pairs)
    ensures m == map[] <==> pairs == []
  {
  }

  /** The largest key, and a list of that length filled from the map. */
  method FillFromMap(m: map<nat, Word>, ghost pairs: seq<(nat, Word)>) returns (image: seq<Word>)
    requires Maps(m, pairs) && m != map[]
    ensures image == Image(pairs)
  {
    var keys, top: nat := m.Keys, 0;
    while keys != {}
      invariant keys <= m.Keys && forall a | a in m && a !in keys :: a <= top
      invariant top in m || (top == 0 && keys == m.Keys)
      decreases |keys|
    {
      var a :| a in keys;
      if keys == m.Keys || a > top { top := a; }
      keys := keys - {a};
    }
    assert pairs[0].0 <= MaxAddr(pairs);
    assert top == MaxAddr(pairs);
    var result := new Word[top + 1](_ => 0);
    forall a | a in m && a <= top { result[a] := m[a]; }
    image := result[..];
  }

  /** `assemble`: addresses, relaxation, encoding. */
  method AssembleFlat(prog: seq<Stmt>) returns (r: Result<seq<Word>, AsmError>)
    ensures r == FlatAssemble(prog)
  {
    hide Assign, RelaxRounds, EncodeAll;
    var lay := AssignAddresses(prog);
    if lay.Err? { return Err(lay.error); }
    var relaxed := RelaxChunk(lay.value.placed);
    r := EncodeImage(relaxed);
  }

  // ---- object emission ------------------------------------------------------------

  lemma {:induction false} BuildFails(prog: seq<Stmt>, ps: seq<Placed>, n: nat, e: AsmError)
    requires n <= |ps| && BuildRecords(prog, ps, n) == Err(e)
    ensures BuildRecords(prog, ps, |ps|) == Err(e)
    decreases |ps| - n
  {
    if n < |ps| { BuildFails(prog, ps, n + 1, e); }
  }

  /** `build_records`: an accumulator, a cursor, and the source position last written. */
  method EmitRecords(prog: seq<Stmt>, ps: seq<Placed>) returns (r: Result<seq<Record>, AsmError>)
    ensures r == BuildRecords(prog, ps, |ps|)
  {
    hide StmtRecords, SymRecords;
    var out: seq<Record> := [];
    var cursor: int := 0;
    var here: Option<(string, int)> := None;
    for i := 0 to |ps|
      invariant BuildRecords(prog, ps, i) == Ok(out) && cursor == Cursor(ps, i) && here == CurLoc(ps, i)
    {
      ghost var before := out;
      var p := ps[i];
      var gap := p.addr - cursor;
      var body := StmtRecords(p.stmt.op);
      if body.Err? {
        BuildFails(prog, ps, i + 1, body.error);
        return Err(body.error);
      }
      if gap > 0 { out := out + [RecZero(gap)]; }
      out := out + SymRecords(p.stmt.labels, prog);
      if !p.stmt.op.Empty? && here != Some((p.stmt.file, p.stmt.line)) {
        out := out + [RecLoc(p.stmt.file, p.stmt.line)];
        here := Some((p.stmt.file, p.stmt.line));
      }
      assert before + [] == before;
      ghost var zeros := before + if gap > 0 then [RecZero(gap)] else [];
      ghost var syms := zeros + SymRecords(p.stmt.labels, prog);
      assert syms + [] == syms && out == syms + LocRecords(ps, i);
      out := out + body.value;
      cursor := p.addr + StmtSize(p.stmt.op);
    }
    return Ok(out);
  }

  /** `assemble_object`. */
  method AssembleToObject(prog: seq<Stmt>, sources: seq<string>) returns (r: Result<ObjectFile, AsmError>)
    ensures r == AssembleObject(prog, sources)
  {
    hide Assign, Normalize, BuildRecords;
    var lay := AssignAddresses(prog);
    if lay.Err? { return Err(lay.error); }
    if prog == [] { return Ok(ObjectFile(1, sources, [])); }
    var records := EmitRecords(prog, Normalize(lay.value.placed));
    if records.Err? { return Err(records.error); }
    return Ok(ObjectFile(1, sources, [Section("text", records.value)]));
  }
}
