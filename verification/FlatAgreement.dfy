/** How far the image of a program reaches, and the programs on which flat assembly and link agree. */
module FlatAgreement {
  import opened Isa
  import opened ObjFile
  import opened Linker
  import opened Assembler
  import opened LinkRelax
  import opened LinkRounds
  import opened FlatLink
  import F = FlatRelax
  import P = Programs

  /** The words of the first `m` statements fill the addresses up to that of statement `m`. */
  lemma {:induction false} PairsCover(prog: seq<Stmt>, r: set<nat>, m: nat)
    requires m <= |prog| && Recordable(prog)
    ensures MaxAddr(PairsOf(prog, r, m)) + 1 == P.Addr(prog, r, m)
  {
    hide WordsFor, MaxAddr;
    if m > 0 {
      PairsCover(prog, r, m - 1);
      WordsFill(prog, r, m - 1);
      MaxPlace(PairsOf(prog, r, m - 1), P.Addr(prog, r, m - 1), WordsFor(prog, r, m - 1), |WordsFor(prog, r, m - 1)|);
      var ws := WordsFor(prog, r, m - 1);
      assert ws[..|ws|] == ws;
    } else {
      NoPairs();
    }
  }

  lemma NoPairs()
    ensures MaxAddr([]) == -1
  {
  }

  lemma WordsFill(prog: seq<Stmt>, r: set<nat>, i: nat)
    requires i < |prog| && StmtRecords(prog[i].op).Ok?
    ensures |WordsFor(prog, r, i)| == P.Size(prog, r, i)
  {
    hide EncodeRi, EncodeR3, Lab, WordOpValue;
  }

  lemma {:induction false} MaxPlace(pairs: seq<(nat, Word)>, addr: nat, ws: seq<Word>, n: nat)
    requires n <= |ws| && MaxAddr(pairs) + 1 == addr
    ensures MaxAddr(pairs + Place(addr, ws[..n])) + 1 == addr + n
    decreases n
  {
    var all := pairs + Place(addr, ws[..n]);
    if n > 0 {
      MaxPlace(pairs, addr, ws, n - 1);
      assert all[..|all| - 1] == pairs + Place(addr, ws[..n - 1]);
      assert all[|all| - 1].0 == addr + n - 1;
    } else {
      assert all == pairs;
    }
  }

  lemma {:induction false} AddrOrder(prog: seq<Stmt>, r: set<nat>, i: nat, j: nat)
    requires i <= j <= |prog|
    ensures P.Addr(prog, r, i) <= P.Addr(prog, r, j)
    decreases j
  {
    hide P.Size;
    if i < j { AddrOrder(prog, r, i, j - 1); }
  }

  /** A label is never past the end of the image. */
  lemma LabelInside(prog: seq<Stmt>, r: set<nat>, name: string)
    ensures Lab(prog, r, name) <= P.Addr(prog, r, |prog|)
  {
    hide P.Addr;
    match P.DefIdx(prog, name, |prog|)
    case None =>
    case Some(d) => AddrOrder(prog, r, d, |prog|);
  }

  /** A program with words to place, fewer than 4096 of them, that never loads a label into r0: if its
      one-object link at base 0 succeeds, the flat assembler yields the same words. */
  lemma FlatAgrees(prog: seq<Stmt>, sources: seq<string>, fp: string, lr: LinkResult)
    requires AssembleObject(prog, sources).Ok? && F.NoSkipLabels(prog, |RelaxedStmts(prog)|)
    requires LinkObjectFiles(TEXT_BASES, [(fp, AssembleObject(prog, sources).value)]) == Ok(lr)
    requires 0 < |lr.words| < 4096
    requires forall i | 0 <= i < |prog| && prog[i].op.LoadLabel? :: prog[i].op.rd != 0
    ensures FlatAssemble(prog) == Ok(lr.words)
  {
    hide AssembleObject, LinkObjectFiles, FlatAssemble, F.NoSkipLabels, PairsOf, P.Addr, Lab;
    FlatEqualsLink(prog, sources, fp, lr);
    if prog != [] {
      var r := RelaxedStmts(prog);
      LinkedWords(prog, sources, fp, lr);
      PairsCover(prog, r, |prog|);
      assert |lr.words| == P.Addr(prog, r, |prog|);
      forall i | 0 <= i < |prog|
        ensures Accepted(prog, r, i)
      {
        if prog[i].op.LoadLabel? || prog[i].op.Branch? { LabelInside(prog, r, prog[i].op.name); }
      }
    }
  }

  lemma LinkedWords(prog: seq<Stmt>, sources: seq<string>, fp: string, lr: LinkResult)
    requires prog != [] && AssembleObject(prog, sources).Ok?
    requires LinkObjectFiles(TEXT_BASES, [(fp, AssembleObject(prog, sources).value)]) == Ok(lr)
    ensures lr.words == Image(PairsOf(prog, RelaxedStmts(prog), |prog|)) && Recordable(prog)
  {
    hide LinkObjectFiles, LinkPieces, AssembleObject, Assign, Setting, RelaxedStmts, Image, PairsOf, P.RelaxStep, RefsKnown, ItemsOf;
    var ps := ObjectSetting(prog, sources, fp);
    SettingFacts(prog, ps, {});
    LinkedProgram(prog, ps, fp, lr);
    SettingParts(prog, ps, {});
  }
}
