/** Relaxation is optimal: among all self-consistent choices for a one-section program it
    returns the least, so no consistent image is shorter. */
module Optimality {
  import opened ObjFile
  import opened Linker
  import opened Symbols
  import opened Relaxation

  /** Growing the relaxed set never brings two items closer together. */
  lemma {:induction false} DistanceGrows(l: set<nat>, r: set<nat>, items: seq<Item>, p: nat, q: nat)
    requires l <= r && p <= q <= |items|
    ensures 0 <= OffsetAt(l, items, q) - OffsetAt(l, items, p) <= OffsetAt(r, items, q) - OffsetAt(r, items, p)
    decreases q - p
  {
    if p < q { DistanceGrows(l, r, items, p, q - 1); }
  }

  // ---- the reach of a branch under a layout ---------------------------------------

  /** Long branches among the items from `p` up to `q`. */
  function Long(rel: set<nat>, items: seq<Item>, p: nat, q: nat): nat
    requires p <= q <= |items|
    decreases q - p
  {
    if p == q then 0
    else Long(rel, items, p, q - 1) + if items[q - 1].ItemBrel? && q - 1 in rel then 1 else 0
  }

  /** Branch items from `p` up to `q`. */
  function Between(items: seq<Item>, p: nat, q: nat): nat
    requires p <= q <= |items|
    decreases q - p
  {
    if p == q then 0 else Between(items, p, q - 1) + if items[q - 1].ItemBrel? then 1 else 0
  }

  /** A stretch of items grows by three words for each long branch in it. */
  lemma {:induction false} GapIs(rel: set<nat>, items: seq<Item>, p: nat, q: nat)
    requires p <= q <= |items|
    ensures OffsetAt(rel, items, q) - OffsetAt(rel, items, p)
         == OffsetAt({}, items, q) - OffsetAt({}, items, p) + 3 * Long(rel, items, p, q)
    decreases q - p
  {
    if p < q { GapIs(rel, items, p, q - 1); }
  }

  lemma {:induction false} LongBounds(l: set<nat>, r: set<nat>, items: seq<Item>, p: nat, q: nat)
    requires p <= q <= |items| && l <= r
    ensures Long(l, items, p, q) <= Long(r, items, p, q) <= Between(items, p, q)
    decreases q - p
  {
    if p < q { LongBounds(l, r, items, p, q - 1); }
  }

  /** Any number of the branches of a stretch can be long. */
  lemma {:induction false} SomeLong(items: seq<Item>, p: nat, q: nat, n: nat) returns (r: set<nat>)
    requires p <= q <= |items| && n <= Between(items, p, q)
    ensures Long(r, items, p, q) == n && forall k | k in r :: p <= k < q
    decreases q - p
  {
    if n == 0 {
      r := {};
      LongNone(items, p, q);
    } else if items[q - 1].ItemBrel? {
      var s := SomeLong(items, p, q - 1, n - 1);
      r := s + {q - 1};
      LongSame(s, r, items, p, q - 1);
    } else {
      r := SomeLong(items, p, q - 1, n);
    }
  }

  lemma {:induction false} LongNone(items: seq<Item>, p: nat, q: nat)
    requires p <= q <= |items|
    ensures Long({}, items, p, q) == 0
    decreases q - p
  {
    if p < q { LongNone(items, p, q - 1); }
  }

  lemma {:induction false} LongSame(s: set<nat>, r: set<nat>, items: seq<Item>, p: nat, q: nat)
    requires p <= q <= |items| && forall k | p <= k < q :: k in s <==> k in r
    ensures Long(s, items, p, q) == Long(r, items, p, q)
    decreases q - p
  {
    if p < q { LongSame(s, r, items, p, q - 1); }
  }

  /** Where the item a reference means lies from the section's base: at its explicit offset, or where
      it stands. */
  function TargetOffset(rel: set<nat>, items: seq<Item>, p: nat): int
    requires p < |items| && items[p].ItemSym?
  {
    if items[p].offset.Some? then items[p].offset.value else OffsetAt(rel, items, p)
  }

  /** The distance a branch has to cover when `rel` is long; nothing if its symbol is not defined. */
  function Distance(rel: set<nat>, items: seq<Item>, i: nat): Option<int>
    requires i < |items| && items[i].ItemBrel?
  {
    match Target(items, items[i].src, items[i].sym)
    case None => None
    case Some(p) => Some(TargetOffset(rel, items, p) + items[i].addend - OffsetAt(rel, items, i))
  }

  /** Out of the reach of a short branch. */
  predicate OutOfReach(rel: set<nat>, items: seq<Item>, i: nat)
    requires i < |items| && items[i].ItemBrel?
  {
    var d := Distance(rel, items, i);
    d.Some? && !InRange(d.value)
  }

  /** The stretch whose long branches move the target away from the branch, or towards it: ahead of the
      branch up to the target, or behind it from the target (from the start of the section for a symbol
      with an explicit offset). */
  predicate Ahead(items: seq<Item>, i: nat, p: nat)
    requires p < |items| && items[p].ItemSym?
  {
    items[p].offset.None? && i < p
  }

  function Behind(items: seq<Item>, i: nat, p: nat): nat
    requires i < |items| && p < |items| && items[p].ItemSym? && !Ahead(items, i, p)
    ensures Behind(items, i, p) <= i
  {
    if items[p].offset.Some? then 0 else p
  }

  /** A branch that no growth of the others brings back into reach. */
  predicate Safe(items: seq<Item>, i: nat)
    requires i < |items| && items[i].ItemBrel?
  {
    match Target(items, items[i].src, items[i].sym)
    case None => true
    case Some(p) =>
      var v := Distance({}, items, i).value;
      if Ahead(items, i, p) then v >= -64 || v + 3 * Between(items, i + 1, p) < -64
      else v <= 63 || v - 3 * Between(items, Behind(items, i, p), i) > 63
  }

  /** Under every choice of long branches the distance is that of the shortest layout, more by three for
      every long branch on the way ahead, less by three for every one on the way behind. */
  lemma DistanceIs(rel: set<nat>, items: seq<Item>, i: nat, p: nat)
    requires i < |items| && items[i].ItemBrel? && i !in rel && Target(items, items[i].src, items[i].sym) == Some(p)
    ensures Distance(rel, items, i).Some? && Distance({}, items, i).Some?
    ensures Distance(rel, items, i).value - Distance({}, items, i).value
         == if Ahead(items, i, p) then 3 * Long(rel, items, i + 1, p) else -3 * Long(rel, items, Behind(items, i, p), i)
  {
    hide OffsetAt, Target, Long;
    if Ahead(items, i, p) {
      GapIs(rel, items, i, i + 1);
      LongOne(rel, items, i);
      GapIs(rel, items, i + 1, p);
    } else {
      GapIs(rel, items, Behind(items, i, p), i);
      StartsAtZero(rel, items);
      StartsAtZero({}, items);
    }
  }

  lemma TargetKnown(rel: set<nat>, items: seq<Item>, i: nat)
    requires i < |items| && items[i].ItemBrel?
    ensures Distance(rel, items, i).Some? <==> Target(items, items[i].src, items[i].sym).Some?
  {
    hide Target, OffsetAt;
  }

  lemma LongOne(rel: set<nat>, items: seq<Item>, i: nat)
    requires i < |items| && i !in rel
    ensures Long(rel, items, i, i + 1) == 0
  {
  }

  lemma StartsAtZero(rel: set<nat>, items: seq<Item>)
    ensures OffsetAt(rel, items, 0) == 0
  {
  }

  /** A branch stays out of reach while others grow. */
  ghost predicate StaysOut(items: seq<Item>, i: nat)
    requires i < |items| && items[i].ItemBrel?
  {
    forall l: set<nat>, r: set<nat> | l <= r && i !in r && OutOfReach(l, items, i) :: OutOfReach(r, items, i)
  }

  lemma SafeStaysOut(items: seq<Item>, i: nat, l: set<nat>, r: set<nat>)
    requires i < |items| && items[i].ItemBrel? && Safe(items, i) && l <= r && i !in r && OutOfReach(l, items, i)
    ensures OutOfReach(r, items, i)
  {
    hide Distance, Long, Between, Target;
    TargetKnown(l, items, i);
    var p := Target(items, items[i].src, items[i].sym).value;
    DistanceIs(l, items, i, p);
    DistanceIs(r, items, i, p);
    if Ahead(items, i, p) {
      LongBounds(l, r, items, i + 1, p);
    } else {
      LongBounds(l, r, items, Behind(items, i, p), i);
    }
  }

  /** An unsafe branch is out of reach under the shortest layout and back in reach under another. */
  lemma UnsafeComesBack(items: seq<Item>, i: nat) returns (r: set<nat>)
    requires i < |items| && items[i].ItemBrel? && !Safe(items, i)
    ensures i !in r && OutOfReach({}, items, i) && !OutOfReach(r, items, i)
  {
    hide Distance, Long, Between, Target;
    var p := Target(items, items[i].src, items[i].sym).value;
    DistanceIs({}, items, i, p);
    var v := Distance({}, items, i).value;
    if Ahead(items, i, p) {
      r := SomeLong(items, i + 1, p, (-64 - v + 2) / 3);
    } else {
      r := SomeLong(items, Behind(items, i, p), i, (v - 63 + 2) / 3);
    }
    DistanceIs(r, items, i, p);
  }

  /** A branch is safe exactly when being out of reach is never undone by making more branches long. */
  lemma SafeIff(items: seq<Item>, i: nat)
    requires i < |items| && items[i].ItemBrel?
    ensures Safe(items, i) <==> StaysOut(items, i)
  {
    hide Safe, OutOfReach;
    if Safe(items, i) {
      forall l: set<nat>, r: set<nat> | l <= r && i !in r && OutOfReach(l, items, i)
        ensures OutOfReach(r, items, i)
      {
        SafeStaysOut(items, i, l, r);
      }
    } else {
      var r := UnsafeComesBack(items, i);
      assert {} <= r;
    }
  }

  /** Every branch of the section is safe. */
  ghost predicate AllSafe(items: seq<Item>) {
    forall i: nat | i < |items| && items[i].ItemBrel? :: Safe(items, i)
  }

  /** Symbols stand where they are written, and an addend never points back across its own branch; in
      particular every addend may be zero. */
  ghost predicate Outward(items: seq<Item>) {
    (forall p: nat | p < |items| && items[p].ItemSym? :: items[p].offset.None?)
    && forall i: nat | i < |items| && items[i].ItemBrel? :: OutwardBranch(items, i)
  }

  predicate OutwardBranch(items: seq<Item>, i: nat)
    requires i < |items| && items[i].ItemBrel?
  {
    var t := Target(items, items[i].src, items[i].sym);
    t.Some? ==> if t.value < i then items[i].addend <= 0 else items[i].addend >= 0
  }

  lemma OutwardIsSafe(items: seq<Item>)
    requires Outward(items)
    ensures AllSafe(items)
  {
    hide Target, Between, OffsetAt;
    forall i: nat | i < |items| && items[i].ItemBrel?
      ensures Safe(items, i)
    {
      assert OutwardBranch(items, i);
      match Target(items, items[i].src, items[i].sym)
      case None =>
      case Some(p) => if p < i { DistanceGrows({}, {}, items, p, i); } else { DistanceGrows({}, {}, items, i, p); }
    }
  }

  // ---- leastness ------------------------------------------------------------------

  /** `r` is a self-consistent choice for the section. */
  ghost predicate SelfConsistent(m: Merged, bases: Bases, r: set<nat>) {
    Settled([m], bases, map[m.name := r])
  }

  lemma OneSectionDefs(m: Merged, bases: Bases, relaxed: Relaxed)
    ensures Defs([m], bases, relaxed)
            == SectionDefs(SectionBase(bases, m.name), RelOf(relaxed, m.name), m.items, |m.items|)
  {
    assert [m][..0] == [];
    assert Defs([], bases, relaxed) == [];
  }

  /** Wherever the environment builds, the linker's offset is the distance. */
  lemma OffsetIsDistance(base: nat, rel: set<nat>, items: seq<Item>, i: nat)
    requires i < |items| && items[i].ItemBrel?
    requires BuildEnv(SectionDefs(base, rel, items, |items|)).Ok?
    ensures var env := BuildEnv(SectionDefs(base, rel, items, |items|)).value;
            match Distance(rel, items, i)
            case None => BrelOffset(env, base, rel, items, i).Err?
            case Some(d) => BrelOffset(env, base, rel, items, i) == Ok(d)
  {
    ResolveTarget(base, rel, items, items[i].src, items[i].sym);
    hide SectionDefs, BuildEnv, Resolve, OffsetAt, Target;
  }

  /** A branch that cannot reach under a small choice cannot reach under a larger one. */
  lemma StillTooFar(base: nat, l: set<nat>, r: set<nat>, items: seq<Item>, i: nat)
    requires i < |items| && items[i].ItemBrel? && l <= r && i !in r && Safe(items, i)
    requires BuildEnv(SectionDefs(base, l, items, |items|)).Ok?
    requires BuildEnv(SectionDefs(base, r, items, |items|)).Ok?
    ensures var ol := BrelOffset(BuildEnv(SectionDefs(base, l, items, |items|)).value, base, l, items, i);
            var or := BrelOffset(BuildEnv(SectionDefs(base, r, items, |items|)).value, base, r, items, i);
            ol.Ok? && !InRange(ol.value) ==> or.Ok? && !InRange(or.value)
  {
    hide SectionDefs, BuildEnv, BrelOffset, Distance, Safe;
    OffsetIsDistance(base, l, items, i);
    OffsetIsDistance(base, r, items, i);
    if OutOfReach(l, items, i) { SafeStaysOut(items, i, l, r); }
  }

  lemma RoundWithin(m: Merged, bases: Bases, relaxed: Relaxed, r: set<nat>)
    requires AllSafe(m.items) && SelfConsistent(m, bases, r)
    requires RelOf(relaxed, m.name) <= r && Round([m], bases, relaxed).Ok?
    ensures RelOf(Round([m], bases, relaxed).value, m.name) <= r
  {
    RoundSpec([m], bases, relaxed);
    OneSectionDefs(m, bases, relaxed);
    OneSectionDefs(m, bases, map[m.name := r]);
    var base, l := SectionBase(bases, m.name), RelOf(relaxed, m.name);
    var envL := BuildEnv(SectionDefs(base, l, m.items, |m.items|)).value;
    var envR := BuildEnv(SectionDefs(base, r, m.items, |m.items|)).value;
    hide Defs, SectionDefs, BuildEnv, Scan, Round, BrelOffset, AllSafe, Safe;
    var l' := RelOf(Round([m], bases, relaxed).value, m.name);
    assert ScanOf([m][0], bases, envL, relaxed) == Ok(l');
    ScanSpec(envL, base, l, m.items, |m.items|);
    assert SectionSettled([m][0], bases, envR, map[m.name := r]);
    forall i | i in l' && i !in l
      ensures i in r
    {
      if i !in r {
        assert Reaches(m, bases, envR, map[m.name := r], i);
        BranchSafe(m.items, i);
        StillTooFar(base, l, r, m.items, i);
        assert false;
      }
    }
  }

  lemma BranchSafe(items: seq<Item>, i: nat)
    requires AllSafe(items) && i < |items| && items[i].ItemBrel?
    ensures Safe(items, i)
  {
  }

  lemma {:induction false} LoopWithin(m: Merged, bases: Bases, relaxed: Relaxed, budget: nat, r: set<nat>)
    requires AllSafe(m.items) && SelfConsistent(m, bases, r)
    requires RelOf(relaxed, m.name) <= r && RelaxLoop([m], bases, relaxed, budget).Ok?
    ensures RelOf(RelaxLoop([m], bases, relaxed, budget).value, m.name) <= r
    decreases budget
  {
    hide AllSafe, SelfConsistent, Round;
    RoundWithin(m, bases, relaxed, r);
    var r' := Round([m], bases, relaxed).value;
    if !Unchanged([m], relaxed, r') { LoopWithin(m, bases, r', budget - 1, r); }
  }

  /** When every branch is safe, the relaxed set is self-consistent and contained in every
      self-consistent set; the section it leads to is therefore the shortest consistent one. */
  lemma RelaxationIsLeast(m: Merged, bases: Bases, budget: nat, r: set<nat>)
    requires AllSafe(m.items) && RelaxLoop([m], bases, map[], budget).Ok?
    ensures var l := RelOf(RelaxLoop([m], bases, map[], budget).value, m.name);
            SelfConsistent(m, bases, l)
            && (SelfConsistent(m, bases, r) ==>
                  l <= r && OffsetAt(l, m.items, |m.items|) <= OffsetAt(r, m.items, |m.items|))
  {
    var out := RelaxLoop([m], bases, map[], budget).value;
    var l := RelOf(out, m.name);
    RelaxLoopSettles([m], bases, map[], budget);
    assert Unchanged([m], out, map[m.name := l]);
    DefsUnchanged([m], bases, out, map[m.name := l]);
    assert Settled([m], bases, map[m.name := l]) by {
      hide Defs, BuildEnv, BrelOffset, RelaxLoop;
      var env := BuildEnv(Defs([m], bases, out)).value;
      assert SectionSettled([m][0], bases, env, out);
      assert SectionSettled(m, bases, env, map[m.name := l]);
    }
    if SelfConsistent(m, bases, r) {
      hide SelfConsistent, RelaxLoop, AllSafe;
      LoopWithin(m, bases, map[], budget, r);
      DistanceGrows(l, r, m.items, 0, |m.items|);
    }
  }

  /** So with addends that point outward, all zero for instance, relaxation is always least. */
  lemma LeastWithOutwardAddends(m: Merged, bases: Bases, budget: nat, r: set<nat>)
    requires Outward(m.items) && RelaxLoop([m], bases, map[], budget).Ok? && SelfConsistent(m, bases, r)
    ensures RelOf(RelaxLoop([m], bases, map[], budget).value, m.name) <= r
  {
    hide *;
    OutwardIsSafe(m.items);
    RelaxationIsLeast(m, bases, budget, r);
  }

  // ---- where leastness ends: an unsafe branch --------------------------------------

  function InwardItems(): seq<Item> {
    [ItemSym("f", "s", Local, None), ItemBrel("f", BT, "s", 1000), ItemWord(0), ItemWord(0), ItemWord(0),
     ItemBrel("f", BT, "s", 70)]
  }

  lemma InwardOffsets(rel: set<nat>)
    ensures var items := InwardItems();
            OffsetAt(rel, items, 1) == 0
            && OffsetAt(rel, items, 5) == if 1 in rel then 7 else 4
  {
    var items := InwardItems();
    assert OffsetAt(rel, items, 0) == 0;
    assert OffsetAt(rel, items, 1) == 0;
    assert OffsetAt(rel, items, 2) == if 1 in rel then 4 else 1;
    assert OffsetAt(rel, items, 3) == OffsetAt(rel, items, 2) + 1;
    assert OffsetAt(rel, items, 4) == OffsetAt(rel, items, 3) + 1;
    assert OffsetAt(rel, items, 5) == OffsetAt(rel, items, 4) + 1;
  }

  lemma InwardDefs(rel: set<nat>)
    ensures SectionDefs(0, rel, InwardItems(), 6) == [Def("f", "s", Local, 0)]
  {
    var items := InwardItems();
    hide OffsetAt;
    OffsetZero(rel, items);
    assert SectionDefs(0, rel, items, 0) == [];
    assert SectionDefs(0, rel, items, 1) == [] + [Def("f", "s", Local, 0)];
    assert SectionDefs(0, rel, items, 2) == SectionDefs(0, rel, items, 1);
    assert SectionDefs(0, rel, items, 3) == SectionDefs(0, rel, items, 2);
    assert SectionDefs(0, rel, items, 4) == SectionDefs(0, rel, items, 3);
    assert SectionDefs(0, rel, items, 5) == SectionDefs(0, rel, items, 4);
  }

  lemma OffsetZero(rel: set<nat>, items: seq<Item>)
    ensures OffsetAt(rel, items, 0) == 0
  {
  }

  function InwardEnv(): SymEnv { SymEnv(map[], map[("f", "s") := 0], map["s" := 0]) }

  lemma InwardEnvBuilt()
    ensures BuildEnv([Def("f", "s", Local, 0)]) == Ok(InwardEnv())
  {
    var ds := [Def("f", "s", Local, 0)];
    assert GlobalMap(ds, 0) == Ok(map[]);
    assert UniqueMap(ds, 0) == Ok(map[]);
    assert LocalMap(ds, 0) == map[];
    assert FirstOther(ds, "s", 0, 1) == None;
  }

  /** The two branches: the first never reaches, the second only once the first has grown. */
  lemma InwardReach(rel: set<nat>)
    ensures BrelOffset(InwardEnv(), 0, rel, InwardItems(), 1) == Ok(1000)
    ensures BrelOffset(InwardEnv(), 0, rel, InwardItems(), 5) == Ok(if 1 in rel then 63 else 66)
  {
    InwardOffsets(rel);
    hide OffsetAt;
  }

  lemma InwardScan(rel: set<nat>)
    ensures Scan(InwardEnv(), 0, rel, InwardItems(), 6)
            == Ok(rel + {1} + if 1 in rel then {} else {5})
  {
    InwardReach(rel);
    var env, items := InwardEnv(), InwardItems();
    assert items[0].ItemSym? && items[1].ItemBrel? && items[2].ItemWord? && items[3].ItemWord?
           && items[4].ItemWord? && items[5].ItemBrel?;
    assert 1 in rel ==> rel + {1} == rel;
    assert 1 in rel ==> rel + {1} + {} == rel + {1};
    assert 5 in rel ==> rel + {1} + {5} == rel + {1};
    hide BrelOffset, InwardItems;
    assert Scan(env, 0, rel, items, 0) == Ok(rel);
    assert Scan(env, 0, rel, items, 1) == Ok(rel);
    assert Scan(env, 0, rel, items, 2) == Ok(rel + {1});
    assert Scan(env, 0, rel, items, 3) == Ok(rel + {1});
    assert Scan(env, 0, rel, items, 4) == Ok(rel + {1});
    assert Scan(env, 0, rel, items, 5) == Ok(rel + {1});
  }

  lemma InwardRound(relaxed: Relaxed, after: set<nat>)
    requires relaxed.Keys <= {"text"}
    requires after == RelOf(relaxed, "text") + {1} + if 1 in RelOf(relaxed, "text") then {} else {5}
    ensures Round([Merged("text", InwardItems())], [], relaxed) == Ok(map["text" := after])
  {
    var m := Merged("text", InwardItems());
    OneSectionDefs(m, [], relaxed);
    InwardDefs(RelOf(relaxed, "text"));
    InwardEnvBuilt();
    InwardScan(RelOf(relaxed, "text"));
    assert |m.items| == 6 && SectionBase([], "text") == 0;
    hide BuildEnv, Scan, SectionDefs, InwardItems;
    assert ScanAll([m], [], InwardEnv(), relaxed, 0) == Ok(relaxed);
    assert relaxed["text" := after] == map["text" := after];
  }

  /** With an inward addend leastness fails: the loop relaxes both branches of this section,
      although relaxing the first alone is self-consistent. */
  lemma InwardAddendNotLeast()
    ensures var m := Merged("text", InwardItems());
            RelaxLoop([m], [], map[], 3) == Ok(map["text" := {1, 5}]) && SelfConsistent(m, [], {1})
  {
    var m := Merged("text", InwardItems());
    InwardRound(map[], {1, 5});
    InwardRound(map["text" := {1, 5}], {1, 5});
    InwardRound(map["text" := {1}], {1});
    hide Round, InwardItems;
    InwardOnlyBranches();
    QuietRoundSettled([m], [], map["text" := {1}]);
    TwoRounds([m], [], map[], map["text" := {1, 5}]);
  }

  /** Its second branch is the unsafe one. */
  lemma InwardUnsafe()
    ensures !Safe(InwardItems(), 5) && Safe(InwardItems(), 1)
  {
    var items := InwardItems();
    InwardOffsets({});
    TargetOfS();
    hide OffsetAt, Target, Between;
    OffsetZero({}, items);
    BranchesBetween();
  }

  lemma TargetOfS()
    ensures Target(InwardItems(), "f", "s") == Some(0)
  {
    hide OffsetAt;
    var items := InwardItems();
    assert DefPositions(items, 0) == [];
    assert DefPositions(items, 1) == [0];
    forall n: nat | 1 <= n < 6 ensures DefPositions(items, n + 1) == DefPositions(items, n) {}
    assert DefPositions(items, 6) == [0];
  }

  lemma BranchesBetween()
    ensures Between(InwardItems(), 0, 1) == 0 && Between(InwardItems(), 0, 5) == 1
  {
    var items := InwardItems();
    assert Between(items, 0, 0) == 0;
    assert Between(items, 0, 1) == 0;
    assert Between(items, 0, 2) == 1;
    assert Between(items, 0, 3) == 1;
    assert Between(items, 0, 4) == 1;
  }

  lemma TwoRounds(merged: seq<Merged>, bases: Bases, r0: Relaxed, r1: Relaxed)
    requires Round(merged, bases, r0) == Ok(r1) && Round(merged, bases, r1) == Ok(r1)
    ensures RelaxLoop(merged, bases, r0, 3) == Ok(r1)
  {
    hide Round;
    assert RelaxLoop(merged, bases, r1, 2) == Ok(r1);
  }

  lemma InwardOnlyBranches()
    ensures OnlyBranches([Merged("text", InwardItems())], map["text" := {1}])
  {
  }
}
