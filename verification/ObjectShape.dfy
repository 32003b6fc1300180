/** What an assembled object holds, statement by statement. */
module ObjectShape {
  import opened Isa
  import opened ObjFile
  import opened Linker
  import opened Assembler
  import opened Emission
  import P = Programs

  /** Statement `d` is a linkage directive that names `l`. */
  ghost predicate Directs(prog: seq<Stmt>, d: nat, l: string) {
    d < |prog| && prog[d].op.Directive? && l in prog[d].op.names
  }

  /** Some `.global` names `l`, and no later directive does. */
  ghost predicate ExportedBy(prog: seq<Stmt>, d: nat, l: string) {
    Directs(prog, d, l) && prog[d].op.linkage != Local && forall e: nat | d < e < |prog| :: !Directs(prog, e, l)
  }

  ghost predicate Exported(prog: seq<Stmt>, l: string) { exists d: nat :: ExportedBy(prog, d, l) }

  /** The last directive decides. */
  lemma {:induction false} LinkageIs(prog: seq<Stmt>, l: string)
    ensures LinkageOf(prog, l) == if Exported(prog, l) then Global else Local
  {
    if prog != [] {
      var init, n := prog[..|prog| - 1], |prog| - 1;
      LinkageIs(init, l);
      forall d: nat ensures Directs(init, d, l) <==> d < n && Directs(prog, d, l) {}
      if Directs(prog, n, l) {
        if prog[n].op.linkage != Local { assert ExportedBy(prog, n, l); }
        forall d: nat | ExportedBy(prog, d, l) ensures d == n { NoneAfter(prog, d, n, l); }
      } else {
        hide Directs;
        if Exported(init, l) {
          var d: nat :| ExportedBy(init, d, l);
          assert Directs(init, d, l);
          forall e: nat | d < e < |prog| ensures !Directs(prog, e, l) { if e < n { assert !Directs(init, e, l); } }
          assert ExportedBy(prog, d, l) by { LastOf(prog, init, d, l); }
        }
        if Exported(prog, l) {
          var d: nat :| ExportedBy(prog, d, l);
          assert Directs(prog, d, l) && d != n;
          forall e: nat | d < e < n ensures !Directs(init, e, l) { assert !Directs(prog, e, l); }
          assert ExportedBy(init, d, l) by { LastOf(init, prog, d, l); }
        }
      }
    }
  }

  lemma NoneAfter(prog: seq<Stmt>, d: nat, n: nat, l: string)
    requires ExportedBy(prog, d, l) && Directs(prog, n, l) && n + 1 == |prog|
    ensures d == n
  {
  }

  lemma LastOf(prog: seq<Stmt>, other: seq<Stmt>, d: nat, l: string)
    requires ExportedBy(other, d, l) && d < |prog| && prog[d] == other[d]
    requires forall e: nat | d < e < |prog| :: !Directs(prog, e, l)
    ensures ExportedBy(prog, d, l)
  {
  }

  /** The last statement before `i` that is more than labels is `j`, and it has the source position of `i`. */
  ghost predicate SamePlace(prog: seq<Stmt>, j: nat, i: nat) {
    j < i < |prog| && !prog[j].op.Empty? && prog[j].file == prog[i].file && prog[j].line == prog[i].line
    && forall e | j < e < i :: prog[e].op.Empty?
  }

  /** A statement with an operation gets a `loc` record unless the one before it had the same position. */
  ghost predicate NewPlace(prog: seq<Stmt>, i: nat) {
    i < |prog| && !prog[i].op.Empty? && !exists j: nat :: SamePlace(prog, j, i)
  }

  /** The records of one statement: its labels in order, each global exactly when exported; its position if
      that is new; and what its operation emits. */
  ghost predicate IsBlock(prog: seq<Stmt>, i: nat, b: seq<Record>) {
    i < |prog| && StmtRecords(prog[i].op).Ok?
    && var s, n := prog[i], |prog[i].labels|;
       n <= |b|
       && (forall k | 0 <= k < n :: b[k] == RecSym(s.labels[k], if Exported(prog, s.labels[k]) then Global else Local, None))
       && b[n..] == (if NewPlace(prog, i) then [RecLoc(s.file, s.line)] else []) + StmtRecords(s.op).value
  }

  ghost function Flat(blocks: seq<seq<Record>>): seq<Record> {
    if blocks == [] then [] else Flat(blocks[..|blocks| - 1]) + blocks[|blocks| - 1]
  }

  /** `n` is the length of a prefix without another operation after `j`. */
  lemma {:induction false} CurLocIs(prog: seq<Stmt>, ps: seq<Placed>, n: nat) returns (j: nat)
    requires |ps| == |prog| && n <= |prog| && forall k | 0 <= k < |prog| :: ps[k].stmt == prog[k]
    ensures CurLoc(ps, n).Some? ==>
              j < n && !prog[j].op.Empty? && CurLoc(ps, n) == Some((prog[j].file, prog[j].line))
              && forall e | j < e < n :: prog[e].op.Empty?
    ensures CurLoc(ps, n).None? ==> forall e | 0 <= e < n :: prog[e].op.Empty?
  {
    j := 0;
    if n > 0 { if prog[n - 1].op.Empty? { j := CurLocIs(prog, ps, n - 1); } else { j := n - 1; } }
  }

  lemma LocIs(prog: seq<Stmt>, ps: seq<Placed>, i: nat)
    requires |ps| == |prog| && i < |prog| && forall k | 0 <= k < |prog| :: ps[k].stmt == prog[k]
    ensures LocRecords(ps, i) == if NewPlace(prog, i) then [RecLoc(prog[i].file, prog[i].line)] else []
  {
    var j := CurLocIs(prog, ps, i);
    hide CurLoc;
    if CurLoc(ps, i) == Some((prog[i].file, prog[i].line)) { assert SamePlace(prog, j, i); }
    forall k: nat | SamePlace(prog, k, i) ensures CurLoc(ps, i) == Some((prog[i].file, prog[i].line)) {
      OnePlace(prog, k, j, i);
    }
  }

  lemma OnePlace(prog: seq<Stmt>, k: nat, j: nat, i: nat)
    requires SamePlace(prog, k, i)
    requires (j < i && !prog[j].op.Empty? && forall e | j < e < i :: prog[e].op.Empty?) || forall e | 0 <= e < i :: prog[e].op.Empty?
    ensures k == j && j < i && !prog[j].op.Empty?
  {
  }

  lemma BlockIs(prog: seq<Stmt>, ps: seq<Placed>, i: nat)
    requires |ps| == |prog| && i < |prog| && forall k | 0 <= k < |prog| :: ps[k].stmt == prog[k]
    requires StmtRecords(prog[i].op).Ok?
    ensures IsBlock(prog, i, SymRecords(prog[i].labels, prog) + (LocRecords(ps, i) + StmtRecords(prog[i].op).value))
  {
    LocIs(prog, ps, i);
    hide LocRecords, StmtRecords, NewPlace, Exported, LinkageOf;
    forall k | 0 <= k < |prog[i].labels| { LinkageIs(prog, prog[i].labels[k]); }
  }

  lemma {:induction false} BuildBlocks(prog: seq<Stmt>, ps: seq<Placed>, n: nat) returns (blocks: seq<seq<Record>>)
    requires |ps| == |prog| && n <= |prog| && (forall k | 0 <= k < |prog| :: ps[k].stmt == prog[k])
    requires P.NoGaps(ps) && BuildRecords(prog, ps, n).Ok?
    ensures |blocks| == n && (forall i: nat | i < n :: IsBlock(prog, i, blocks[i])) && BuildRecords(prog, ps, n).value == Flat(blocks)
  {
    hide IsBlock, StmtRecords, SymRecords, LocRecords;
    blocks := [];
    if n > 0 {
      var before := BuildBlocks(prog, ps, n - 1);
      BlockIs(prog, ps, n - 1);
      var p := ps[n - 1];
      var b := SymRecords(p.stmt.labels, prog) + (LocRecords(ps, n - 1) + StmtRecords(p.stmt.op).value);
      blocks := before + [b];
      assert blocks[..n - 1] == before;
      assert BuildRecords(prog, ps, n).value == BuildRecords(prog, ps, n - 1).value + b;
    }
  }

  /** An assembled object is the blocks of its statements in order, in one section. */
  lemma ObjectBlocks(prog: seq<Stmt>, sources: seq<string>) returns (blocks: seq<seq<Record>>)
    requires prog != [] && AssembleObject(prog, sources).Ok?
    ensures |blocks| == |prog| && forall i: nat | i < |prog| :: IsBlock(prog, i, blocks[i])
    ensures AssembleObject(prog, sources) == Ok(ObjectFile(1, sources, [Section("text", Flat(blocks))]))
  {
    hide Assign, BuildRecords, IsBlock;
    P.AssignDistinct(prog);
    var ps := Assign(prog, |prog|).value.placed;
    P.NormalizeIs(prog, ps);
    P.NoGapsHere(prog, ps);
    hide Normalize, P.Addr, P.NoGaps, P.DistinctLabels;
    blocks := BuildBlocks(prog, ps, |ps|);
  }

  /** The linkage of every symbol of an object, and that every label has its symbol. */
  lemma ObjectSymbols(prog: seq<Stmt>, sources: seq<string>, rs: seq<Record>)
    requires prog != [] && AssembleObject(prog, sources) == Ok(ObjectFile(1, sources, [Section("text", rs)]))
    ensures forall r | r in rs && r.RecSym? :: r == RecSym(r.name, if Exported(prog, r.name) then Global else Local, None)
    ensures forall i, l | 0 <= i < |prog| && l in prog[i].labels :: exists r :: r in rs && r.RecSym? && r.name == l
  {
    hide AssembleObject, Exported, NewPlace, StmtRecords;
    var blocks := ObjectBlocks(prog, sources);
    FlatHolds(blocks);
    forall r | r in rs && r.RecSym?
      ensures r == RecSym(r.name, if Exported(prog, r.name) then Global else Local, None)
    {
      var i :| 0 <= i < |blocks| && r in blocks[i];
      BlockSymbol(prog, i, blocks[i], r);
    }
    forall i, l | 0 <= i < |prog| && l in prog[i].labels
      ensures exists r :: r in rs && r.RecSym? && r.name == l
    {
      var k :| 0 <= k < |prog[i].labels| && prog[i].labels[k] == l;
      assert IsBlock(prog, i, blocks[i]);
      assert blocks[i][k] in rs;
    }
  }

  lemma BlockSymbol(prog: seq<Stmt>, i: nat, b: seq<Record>, r: Record)
    requires IsBlock(prog, i, b) && r in b && r.RecSym?
    ensures r == RecSym(r.name, if Exported(prog, r.name) then Global else Local, None)
  {
    var k :| 0 <= k < |b| && b[k] == r;
    NoSymbols(prog[i].op);
    hide StmtRecords, Exported, NewPlace;
    var n := |prog[i].labels|;
    forall e | n <= e < |b| ensures !b[e].RecSym? { assert b[e] == b[n..][e - n]; }
  }

  lemma NoSymbols(op: Op)
    requires StmtRecords(op).Ok?
    ensures forall r | r in StmtRecords(op).value :: !r.RecSym?
  {
    if op.Words? { NoWordSymbols(op.ops); }
  }

  lemma {:induction false} NoWordSymbols(ops: seq<WordOp>)
    ensures forall r | r in WordOpRecords(ops) :: !r.RecSym?
  {
    if ops != [] { NoWordSymbols(ops[..|ops| - 1]); }
  }

  lemma {:induction false} FlatHolds(blocks: seq<seq<Record>>)
    ensures forall r :: r in Flat(blocks) <==> exists i | 0 <= i < |blocks| :: r in blocks[i]
  {
    if blocks != [] {
      var init := blocks[..|blocks| - 1];
      FlatHolds(init);
      forall r ensures r in Flat(blocks) <==> exists i | 0 <= i < |blocks| :: r in blocks[i] {
        if r in Flat(init) { var i :| 0 <= i < |init| && r in init[i]; assert r in blocks[i]; }
        if i :| 0 <= i < |blocks| && r in blocks[i] { if i < |init| { assert r in init[i]; } }
      }
    }
  }

  // ---- gaps -----------------------------------------------------------------------

  lemma {:induction false} SizeConcat(xs: seq<Record>, ys: seq<Record>)
    ensures RecordsSize(xs + ys) == RecordsSize(xs) + RecordsSize(ys)
    decreases |xs|
  {
    hide RecordSize;
    if xs == [] {
      assert xs + ys == ys;
    } else {
      assert (xs + ys)[1..] == xs[1..] + ys;
      SizeConcat(xs[1..], ys);
    }
  }

  lemma {:induction false} EachSize(rs: seq<Record>, k: nat)
    requires forall i | 0 <= i < |rs| :: RecordSize(rs[i]) == k
    ensures RecordsSize(rs) == k * |rs|
    decreases |rs|
  {
    hide RecordSize;
    if rs != [] {
      EachSize(rs[1..], k);
      assert k * |rs| == k + k * (|rs| - 1);
    }
  }

  lemma {:induction false} WordOpsSize(ops: seq<WordOp>)
    ensures RecordsSize(WordOpRecords(ops)) == |ops|
    decreases |ops|
  {
    if ops != [] {
      var n := |ops| - 1;
      WordOpsSize(ops[..n]);
      var last := WordOpRecords(ops)[|WordOpRecords(ops[..n])|..];
      assert WordOpRecords(ops) == WordOpRecords(ops[..n]) + last;
      SizeConcat(WordOpRecords(ops[..n]), last);
      if ops[n].Ref? { EachSize(last[1..], 0); } else { EachSize(last, 1); }
    }
  }

  /** The records of a statement fill as many words as it is counted with. */
  lemma StmtRecordsSize(op: Op)
    requires StmtRecords(op).Ok?
    ensures RecordsSize(StmtRecords(op).value) == StmtSize(op)
  {
    match op
    case Empty =>
    case Directive(_, _) =>
    case Fixed(ws) => EachSize(FixedRecords(ws), 1);
    case Words(ops) => WordOpsSize(ops);
    case LoadLabel(_, _) =>
      var rs := StmtRecords(op).value;
      EachSize(rs[..2], 1);
      EachSize(rs[2..], 0);
      SizeConcat(rs[..2], rs[2..]);
      assert rs == rs[..2] + rs[2..];
    case Branch(_, _) =>
  }

  /** Statements at ascending addresses, gaps or not: the records of the first `n` fill the section exactly up
      to the end of the last, so every statement's records start at its address. */
  lemma {:induction false} RecordsReach(prog: seq<Stmt>, ps: seq<Placed>, n: nat)
    requires n <= |ps| && (forall i | 0 <= i < n :: Cursor(ps, i) <= ps[i].addr) && BuildRecords(prog, ps, n).Ok?
    ensures RecordsSize(BuildRecords(prog, ps, n).value) == Cursor(ps, n)
  {
    hide StmtRecords, StmtSize, SymRecords, LocRecords, RecordsSize, RecordSize;
    EachSize([], 0);
    if n > 0 {
      RecordsReach(prog, ps, n - 1);
      var p, acc := ps[n - 1], BuildRecords(prog, ps, n - 1).value;
      var gap := p.addr - Cursor(ps, n - 1);
      var zero := if gap > 0 then [RecZero(gap)] else [];
      var syms, locs, rs := SymRecords(p.stmt.labels, prog), LocRecords(ps, n - 1), StmtRecords(p.stmt.op).value;
      Weightless(prog, ps, n - 1);
      StmtRecordsSize(p.stmt.op);
      ZeroSize(gap);
      assert BuildRecords(prog, ps, n).value == acc + zero + syms + locs + rs;
      FiveSizes(acc, zero, syms, locs, rs);
    }
  }

  lemma FiveSizes(acc: seq<Record>, zero: seq<Record>, syms: seq<Record>, locs: seq<Record>, rs: seq<Record>)
    ensures RecordsSize(acc + zero + syms + locs + rs)
         == RecordsSize(acc) + RecordsSize(zero) + RecordsSize(syms) + RecordsSize(locs) + RecordsSize(rs)
  {
    hide RecordsSize;
    SizeConcat(acc, zero);
    SizeConcat(acc + zero, syms);
    SizeConcat(acc + zero + syms, locs);
    SizeConcat(acc + zero + syms + locs, rs);
  }

  lemma ZeroSize(gap: nat)
    ensures RecordsSize(if gap > 0 then [RecZero(gap)] else []) == gap
  {
    assert [RecZero(gap)][1..] == [];
  }

  lemma Weightless(prog: seq<Stmt>, ps: seq<Placed>, i: nat)
    requires i < |ps|
    ensures RecordsSize(SymRecords(ps[i].stmt.labels, prog)) == 0 && RecordsSize(LocRecords(ps, i)) == 0
  {
    EachSize(SymRecords(ps[i].stmt.labels, prog), 0);
    EachSize(LocRecords(ps, i), 0);
  }
}
