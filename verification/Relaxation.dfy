/** What branch relaxation guarantees: a successful run is a sound fixpoint, it stops within
    one round more than there are branches, and it never relaxes more than it must. */
module Relaxation {
  import opened ObjFile
  import opened Linker

  // ---- what one round does --------------------------------------------------------

  ghost predicate Distinct(merged: seq<Merged>) {
    forall i, j | 0 <= i < j < |merged| :: merged[i].name != merged[j].name
  }

  lemma {:induction false} ScanSpec(env: SymEnv, base: nat, rel: set<nat>, items: seq<Item>, n: nat)
    requires n <= |items| && Scan(env, base, rel, items, n).Ok?
    ensures var s := Scan(env, base, rel, items, n).value;
            rel <= s
            && (forall i | i in s :: i in rel || (i < n && OpenBranch(rel, items, i)))
            && (forall i: nat | i < n && OpenBranch(rel, items, i) ::
                  var o := BrelOffset(env, base, rel, items, i);
                  o.Ok? && (i in s <==> !InRange(o.value)))
  {
    hide BrelOffset;
    if n > 0 { ScanSpec(env, base, rel, items, n - 1); }
  }

  lemma {:induction false} ScanAllSpec(merged: seq<Merged>, bases: Bases, env: SymEnv, relaxed: Relaxed, n: nat)
    requires n <= |merged| && Distinct(merged)
    requires ScanAll(merged, bases, env, relaxed, n).Ok?
    ensures var acc := ScanAll(merged, bases, env, relaxed, n).value;
            (forall j | 0 <= j < n :: ScanOf(merged[j], bases, env, relaxed) == Ok(RelOf(acc, merged[j].name)))
            && (forall j | n <= j < |merged| :: RelOf(acc, merged[j].name) == RelOf(relaxed, merged[j].name))
  {
    hide Scan, SectionBase;
    if n > 0 {
      ScanAllSpec(merged, bases, env, relaxed, n - 1);
      var m := merged[n - 1];
      var acc := ScanAll(merged, bases, env, relaxed, n - 1).value;
      var s := ScanOf(m, bases, env, relaxed).value;
      assert ScanAll(merged, bases, env, relaxed, n) == Ok(acc[m.name := s]);
      assert forall j | 0 <= j < n - 1 :: merged[j].name != m.name;
      assert forall j | n <= j < |merged| :: merged[j].name != m.name;
    }
  }

  function ScanOf(m: Merged, bases: Bases, env: SymEnv, relaxed: Relaxed): Result<set<nat>, LinkError> {
    Scan(env, SectionBase(bases, m.name), RelOf(relaxed, m.name), m.items, |m.items|)
  }

  /** Two tables that give every section the same set also give the same definitions. */
  lemma {:induction false} DefsUnchanged(merged: seq<Merged>, bases: Bases, r: Relaxed, r': Relaxed)
    requires Unchanged(merged, r, r')
    ensures Defs(merged, bases, r) == Defs(merged, bases, r')
  {
    hide SectionDefs;
    if merged != [] {
      var init := merged[..|merged| - 1];
      assert forall j | 0 <= j < |init| :: init[j] == merged[j];
      DefsUnchanged(init, bases, r, r');
      assert RelOf(r, merged[|merged| - 1].name) == RelOf(r', merged[|merged| - 1].name);
    }
  }

  // ---- soundness ------------------------------------------------------------------

  /** Branch `i` of section `m` reaches its target, or is relaxed. */
  ghost predicate Reaches(m: Merged, bases: Bases, env: SymEnv, relaxed: Relaxed, i: nat)
    requires i < |m.items| && m.items[i].ItemBrel?
  {
    var rel := RelOf(relaxed, m.name);
    i in rel ||
    var o := BrelOffset(env, SectionBase(bases, m.name), rel, m.items, i);
    o.Ok? && InRange(o.value)
  }

  ghost predicate SectionSettled(m: Merged, bases: Bases, env: SymEnv, relaxed: Relaxed) {
    (forall i: nat | i < |m.items| && m.items[i].ItemBrel? :: Reaches(m, bases, env, relaxed, i))
    && (forall i | i in RelOf(relaxed, m.name) :: i < |m.items| && m.items[i].ItemBrel?)
  }

  /** A self-consistent choice of relaxed branches: under the layout and the symbol table it
      leads to, every other branch is in range. */
  ghost predicate Settled(merged: seq<Merged>, bases: Bases, relaxed: Relaxed) {
    var env := BuildEnv(Defs(merged, bases, relaxed));
    env.Ok? && forall j | 0 <= j < |merged| :: SectionSettled(merged[j], bases, env.value, relaxed)
  }

  /** Only branch items are ever in the table. */
  ghost predicate OnlyBranches(merged: seq<Merged>, relaxed: Relaxed) {
    forall j, i | 0 <= j < |merged| && i in RelOf(relaxed, merged[j].name) ::
      i < |merged[j].items| && merged[j].items[i].ItemBrel?
  }

  lemma RoundSpec(merged: seq<Merged>, bases: Bases, relaxed: Relaxed)
    requires Distinct(merged) && Round(merged, bases, relaxed).Ok?
    ensures var env := BuildEnv(Defs(merged, bases, relaxed));
            var r' := Round(merged, bases, relaxed).value;
            env.Ok? && forall j | 0 <= j < |merged| ::
              ScanOf(merged[j], bases, env.value, relaxed) == Ok(RelOf(r', merged[j].name))
  {
    hide BuildEnv, Defs, Scan;
    var env := BuildEnv(Defs(merged, bases, relaxed));
    ScanAllSpec(merged, bases, env.value, relaxed, |merged|);
  }

  lemma RoundKeepsBranches(merged: seq<Merged>, bases: Bases, relaxed: Relaxed)
    requires Distinct(merged) && OnlyBranches(merged, relaxed) && Round(merged, bases, relaxed).Ok?
    ensures OnlyBranches(merged, Round(merged, bases, relaxed).value)
  {
    RoundSpec(merged, bases, relaxed);
    hide BuildEnv, Defs, Scan, Round, BrelOffset;
    var env := BuildEnv(Defs(merged, bases, relaxed)).value;
    var r' := Round(merged, bases, relaxed).value;
    forall j, i | 0 <= j < |merged| && i in RelOf(r', merged[j].name)
      ensures i < |merged[j].items| && merged[j].items[i].ItemBrel?
    {
      var m := merged[j];
      assert ScanOf(m, bases, env, relaxed) == Ok(RelOf(r', m.name));
      ScanSpec(env, SectionBase(bases, m.name), RelOf(relaxed, m.name), m.items, |m.items|);
    }
  }

  /** A round that changes nothing has found a self-consistent choice. */
  lemma QuietRoundSettled(merged: seq<Merged>, bases: Bases, relaxed: Relaxed)
    requires Distinct(merged) && OnlyBranches(merged, relaxed) && Round(merged, bases, relaxed).Ok?
    requires Unchanged(merged, relaxed, Round(merged, bases, relaxed).value)
    ensures Settled(merged, bases, Round(merged, bases, relaxed).value)
  {
    RoundSpec(merged, bases, relaxed);
    var r' := Round(merged, bases, relaxed).value;
    DefsUnchanged(merged, bases, relaxed, r');
    var env := BuildEnv(Defs(merged, bases, relaxed)).value;
    hide BuildEnv, Defs, Scan, Round, BrelOffset;
    forall j | 0 <= j < |merged|
      ensures SectionSettled(merged[j], bases, env, r')
    {
      var m := merged[j];
      assert ScanOf(m, bases, env, relaxed) == Ok(RelOf(r', m.name));
      assert RelOf(relaxed, m.name) == RelOf(r', m.name);
      ScanSpec(env, SectionBase(bases, m.name), RelOf(relaxed, m.name), m.items, |m.items|);
    }
  }

  /** Soundness of the fixpoint: whatever `relax_loop` returns is self-consistent, so every
      branch left short is within -64..63 in the final layout and symbol table. */
  lemma {:induction false} RelaxLoopSettles(merged: seq<Merged>, bases: Bases, relaxed: Relaxed, budget: nat)
    requires Distinct(merged) && OnlyBranches(merged, relaxed)
    requires RelaxLoop(merged, bases, relaxed, budget).Ok?
    ensures Settled(merged, bases, RelaxLoop(merged, bases, relaxed, budget).value)
    ensures OnlyBranches(merged, RelaxLoop(merged, bases, relaxed, budget).value)
    decreases budget
  {
    hide Round, Settled, OnlyBranches, Unchanged;
    RoundKeepsBranches(merged, bases, relaxed);
    var r' := Round(merged, bases, relaxed).value;
    if Unchanged(merged, relaxed, r') {
      QuietRoundSettled(merged, bases, relaxed);
    } else {
      RelaxLoopSettles(merged, bases, r', budget - 1);
    }
  }

  // ---- termination ----------------------------------------------------------------

  /** The branches of a section that are still short. */
  function OpenSet(rel: set<nat>, items: seq<Item>): set<nat> {
    set i: nat | i < |items| && OpenBranch(rel, items, i)
  }

  function OpenCount(merged: seq<Merged>, relaxed: Relaxed): nat {
    if merged == [] then 0
    else
      var m := merged[|merged| - 1];
      OpenCount(merged[..|merged| - 1], relaxed) + |OpenSet(RelOf(relaxed, m.name), m.items)|
  }

  /** The number of branch items, relaxed or not. */
  function BranchCount(merged: seq<Merged>): nat { OpenCount(merged, map[]) }

  lemma SubsetSize(a: set<nat>, b: set<nat>)
    requires a <= b
    ensures |a| <= |b|
    ensures a != b ==> |a| < |b|
  {
    assert b == a + (b - a);
    if a != b { assert b - a != {}; }
  }

  /** `r'` extends `r` by branches only, section by section. */
  ghost predicate Extends(merged: seq<Merged>, r: Relaxed, r': Relaxed) {
    forall j | 0 <= j < |merged| ::
      RelOf(r, merged[j].name) <= RelOf(r', merged[j].name)
      && RelOf(r', merged[j].name) <= RelOf(r, merged[j].name) + OpenSet(RelOf(r, merged[j].name), merged[j].items)
  }

  lemma OpenShrinks(rel: set<nat>, rel': set<nat>, items: seq<Item>)
    requires rel <= rel' <= rel + OpenSet(rel, items)
    ensures |OpenSet(rel', items)| <= |OpenSet(rel, items)|
    ensures rel != rel' ==> |OpenSet(rel', items)| < |OpenSet(rel, items)|
  {
    SubsetSize(OpenSet(rel', items), OpenSet(rel, items));
    if rel != rel' {
      var i :| i in rel' && i !in rel;
      assert i in OpenSet(rel, items) && i !in OpenSet(rel', items);
    }
  }

  lemma ExtendsInit(merged: seq<Merged>, r: Relaxed, r': Relaxed)
    requires merged != [] && Extends(merged, r, r')
    ensures Extends(merged[..|merged| - 1], r, r')
    ensures var m := merged[|merged| - 1];
            RelOf(r, m.name) <= RelOf(r', m.name)
            && RelOf(r', m.name) <= RelOf(r, m.name) + OpenSet(RelOf(r, m.name), m.items)
    ensures var m := merged[|merged| - 1];
            Unchanged(merged[..|merged| - 1], r, r') && RelOf(r, m.name) == RelOf(r', m.name)
            ==> Unchanged(merged, r, r')
  {
    hide OpenSet, RelOf;
    var init := merged[..|merged| - 1];
    assert forall j | 0 <= j < |init| :: init[j] == merged[j];
  }

  lemma {:induction false} OpenCountShrinks(merged: seq<Merged>, r: Relaxed, r': Relaxed)
    requires Extends(merged, r, r')
    ensures OpenCount(merged, r') <= OpenCount(merged, r)
    ensures !Unchanged(merged, r, r') ==> OpenCount(merged, r') < OpenCount(merged, r)
  {
    hide Extends, OpenSet, RelOf;
    if merged != [] {
      ExtendsInit(merged, r, r');
      hide Unchanged;
      OpenCountShrinks(merged[..|merged| - 1], r, r');
      var m := merged[|merged| - 1];
      OpenShrinks(RelOf(r, m.name), RelOf(r', m.name), m.items);
    }
  }

  lemma RoundExtends(merged: seq<Merged>, bases: Bases, relaxed: Relaxed)
    requires Distinct(merged) && Round(merged, bases, relaxed).Ok?
    ensures Extends(merged, relaxed, Round(merged, bases, relaxed).value)
  {
    RoundSpec(merged, bases, relaxed);
    hide BuildEnv, Defs, Scan, Round, BrelOffset;
    var env := BuildEnv(Defs(merged, bases, relaxed)).value;
    var r' := Round(merged, bases, relaxed).value;
    forall j | 0 <= j < |merged|
      ensures RelOf(relaxed, merged[j].name) <= RelOf(r', merged[j].name)
      ensures RelOf(r', merged[j].name)
              <= RelOf(relaxed, merged[j].name) + OpenSet(RelOf(relaxed, merged[j].name), merged[j].items)
    {
      var m := merged[j];
      assert ScanOf(m, bases, env, relaxed) == Ok(RelOf(r', m.name));
      ScanSpec(env, SectionBase(bases, m.name), RelOf(relaxed, m.name), m.items, |m.items|);
    }
  }

  /** The real measure: every round that changes something relaxes at least one more branch, so
      a budget above the number of short branches can never run out. */
  lemma {:induction false} BudgetSuffices(merged: seq<Merged>, bases: Bases, relaxed: Relaxed, budget: nat)
    requires Distinct(merged) && budget > OpenCount(merged, relaxed)
    ensures RelaxLoop(merged, bases, relaxed, budget) != Err(BudgetExhausted)
    decreases budget
  {
    hide OpenCount, Unchanged, Extends;
    if Round(merged, bases, relaxed).Ok? {
      var r' := Round(merged, bases, relaxed).value;
      if !Unchanged(merged, relaxed, r') {
        RoundExtends(merged, bases, relaxed);
        OpenCountShrinks(merged, relaxed, r');
        hide Round;
        BudgetSuffices(merged, bases, r', budget - 1);
      }
    } else {
      RoundNeverExhausts(merged, bases, relaxed);
    }
  }

  lemma RoundNeverExhausts(merged: seq<Merged>, bases: Bases, relaxed: Relaxed)
    ensures Round(merged, bases, relaxed) != Err(BudgetExhausted)
  {
    var defs := Defs(merged, bases, relaxed);
    GlobalNeverExhausts(defs, |defs|);
    UniqueNeverExhausts(defs, |defs|);
    if BuildEnv(defs).Ok? { ScanAllNeverExhausts(merged, bases, BuildEnv(defs).value, relaxed, |merged|); }
  }

  lemma GlobalNeverExhausts(defs: seq<Def>, n: nat)
    requires n <= |defs|
    ensures GlobalMap(defs, n) != Err(BudgetExhausted)
  {
  }

  lemma UniqueNeverExhausts(defs: seq<Def>, n: nat)
    requires n <= |defs|
    ensures UniqueMap(defs, n) != Err(BudgetExhausted)
  {
    hide FirstOther;
  }

  lemma ScanNeverExhausts(env: SymEnv, base: nat, rel: set<nat>, items: seq<Item>, n: nat)
    requires n <= |items|
    ensures Scan(env, base, rel, items, n) != Err(BudgetExhausted)
  {
  }

  lemma ScanAllNeverExhausts(merged: seq<Merged>, bases: Bases, env: SymEnv, relaxed: Relaxed, n: nat)
    requires n <= |merged|
    ensures ScanAll(merged, bases, env, relaxed, n) != Err(BudgetExhausted)
  {
    hide Scan;
    if n > 0 {
      ScanAllNeverExhausts(merged, bases, env, relaxed, n - 1);
      var m := merged[n - 1];
      ScanNeverExhausts(env, SectionBase(bases, m.name), RelOf(relaxed, m.name), m.items, |m.items|);
    }
  }
}
