/** Exactly which programs the flat assembler assembles, and which of those do not link. */
module FlatSucceeds {
  import opened Isa
  import opened ObjFile
  import opened Linker
  import opened Assembler
  import opened LinkRelax
  import opened LinkRounds
  import opened FlatLink
  import opened FlatAgreement
  import opened LinkSucceeds
  import P = Programs

  /** No empty `.word`, every label used is defined, relaxation settles within the flat relaxer's twenty
      rounds, there are words to place, and every address taken is accepted. */
  ghost predicate FlatAssembles(prog: seq<Stmt>) {
    Recordable(prog) && RefsKnown(prog) && Settles(prog, 20) && P.Addr(prog, RelaxedStmts(prog), |prog|) > 0
    && AllAccepted(prog, RelaxedStmts(prog))
  }

  ghost predicate AllAccepted(prog: seq<Stmt>, r: set<nat>) { forall i | 0 <= i < |prog| :: Accepted(prog, r, i) }

  /** What every statement needs, taken apart. */
  lemma AllWritable(prog: seq<Stmt>, r: set<nat>)
    ensures (forall i | 0 <= i < |prog| :: Writable(prog, r, i))
       <==> Recordable(prog) && RefsKnown(prog) && P.RelaxStep(prog, r) == r && AllAccepted(prog, r)
  {
    hide StmtRecords, OpKnown, Accepted, P.TooFar;
    if P.RelaxStep(prog, r) == r { SettledNotFar(prog, r); }
    hide P.RelaxStep;
    if forall i | 0 <= i < |prog| :: Writable(prog, r, i) {
      forall i | 0 <= i < |prog|
        ensures StmtRecords(prog[i].op).Ok? && OpKnown(prog, prog[i].op) && Accepted(prog, r, i) && !P.TooFar(prog, r, i)
      {
        assert Writable(prog, r, i);
      }
      NothingFar(prog, r);
    }
  }

  lemma NothingFar(prog: seq<Stmt>, r: set<nat>)
    requires forall i | 0 <= i < |prog| :: !P.TooFar(prog, r, i)
    ensures P.RelaxStep(prog, r) == r
  {
    hide P.TooFar;
    assert (set i: nat | i < |prog| && P.TooFar(prog, r, i)) == {};
  }

  /** A recordable program has words exactly when it ends beyond address 0. */
  lemma SomeWords(prog: seq<Stmt>, r: set<nat>)
    requires Recordable(prog)
    ensures PairsOf(prog, r, |prog|) != [] <==> P.Addr(prog, r, |prog|) > 0
  {
    hide PairsOf, P.Addr;
    PairsCover(prog, r, |prog|);
    MaxOfNone(PairsOf(prog, r, |prog|));
  }

  lemma MaxOfNone(pairs: seq<(nat, Word)>)
    ensures pairs == [] <==> MaxAddr(pairs) < 0
  {
  }

  /** The flat assembler accepts a program exactly when its labels are distinct and `FlatAssembles` holds,
      and then yields the words of the abstractly relaxed program.  (No statement may define or refer to
      a label that the relaxer makes up for the program.) */
  lemma FlatIff(prog: seq<Stmt>)
    requires SkipFree(prog)
    ensures FlatAssemble(prog).Ok? <==> Assign(prog, |prog|).Ok? && (prog == [] || FlatAssembles(prog))
    ensures FlatAssemble(prog).Ok? ==> FlatAssemble(prog).value == Image(PairsOf(prog, RelaxedStmts(prog), |prog|))
  {
    if prog == [] {
      assert Assign(prog, 0) == Ok(Layout([], 0, {}));
      assert Image(PairsOf(prog, RelaxedStmts(prog), 0)) == [];
      hide P.RelaxSteps;
    } else if Assign(prog, |prog|).Ok? {
      hide SkipFree, P.RelaxStep, P.RelaxSteps, PairsOf, Image, FlatAssemble, Assign, P.Addr, Writable, AllAccepted, RefsKnown, Recordable;
      FlatProgram(prog);
      AllWritable(prog, RelaxedStmts(prog));
      if Recordable(prog) { SomeWords(prog, RelaxedStmts(prog)); }
    }
  }

  // ---- flat, but not linked -------------------------------------------------------

  lemma {:induction false} BuildOk(prog: seq<Stmt>, ps: seq<Placed>, n: nat)
    requires n <= |ps| && forall i | 0 <= i < n :: StmtRecords(ps[i].stmt.op).Ok?
    ensures BuildRecords(prog, ps, n).Ok?
  {
    hide StmtRecords, SymRecords, LocRecords;
    if n > 0 { BuildOk(prog, ps, n - 1); }
  }

  lemma Assembles(prog: seq<Stmt>, sources: seq<string>)
    requires Assign(prog, |prog|).Ok? && Recordable(prog)
    ensures AssembleObject(prog, sources).Ok?
  {
    hide StmtRecords, Assign, BuildRecords;
    P.AssignDistinct(prog);
    hide P.DistinctLabels;
    var ps := Assign(prog, |prog|).value.placed;
    if prog != [] { BuildOk(prog, Normalize(ps), |ps|); }
  }

  lemma SettledEarly(prog: seq<Stmt>)
    requires Settles(prog, 19)
    ensures Settles(prog, 20) && Settling(prog) == RelaxedStmts(prog)
  {
    hide P.RelaxStep, P.RelaxSteps;
    StepsSettled(prog, {}, 19);
  }

  /** Every program that assembles flat assembles to an object.  That object does not link in exactly two
      cases: relaxation takes all of the flat relaxer's twenty rounds, one more step than the linker's
      budget has room for, or the image is longer than the address space, which only the linker checks. */
  lemma FlatButNotLinked(prog: seq<Stmt>, sources: seq<string>, fp: string)
    requires prog != [] && SkipFree(prog) && FlatAssemble(prog).Ok?
    ensures AssembleObject(prog, sources).Ok?
    ensures LinkObjectFiles(TEXT_BASES, [(fp, AssembleObject(prog, sources).value)]).Err?
       <==> !Settles(prog, 19) || P.Addr(prog, RelaxedStmts(prog), |prog|) > 4096
  {
    hide SkipFree, P.RelaxStep, P.RelaxSteps, PairsOf, Image, FlatAssemble, Assign, P.Addr, AllAccepted, RefsKnown, Recordable, LinkObjectFiles, AssembleObject;
    FlatIff(prog);
    Assembles(prog, sources);
    LinksIff(prog, sources, fp);
    if Settles(prog, 19) { SettledEarly(prog); }
  }
}
