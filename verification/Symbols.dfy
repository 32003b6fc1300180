/** Symbol resolution by position: which definition a reference means depends on the names,
    files and linkage only, never on the addresses of the current layout. */
module Symbols {
  import opened ObjFile
  import opened Linker

  /** The last local definition of `name` in `src` among the first `n`. */
  function FindLocal(defs: seq<Def>, src: string, name: string, n: nat): Option<nat>
    requires n <= |defs|
  {
    if n == 0 then None
    else
      var d := defs[n - 1];
      if d.linkage == Local && d.src == src && d.name == name then Some(n - 1)
      else FindLocal(defs, src, name, n - 1)
  }

  /** Seen from other files: neither local to its own nor only asked for. */
  predicate Exports(d: Def) { d.linkage != Local && d.linkage != Extern }

  /** The last global or weak definition. */
  function FindGlobal(defs: seq<Def>, name: string, n: nat): Option<nat>
    requires n <= |defs|
  {
    if n == 0 then None
    else if Exports(defs[n - 1]) && defs[n - 1].name == name then Some(n - 1)
    else FindGlobal(defs, name, n - 1)
  }

  /** The first local definition in any file. */
  function FindAny(defs: seq<Def>, name: string, n: nat): Option<nat>
    requires n <= |defs|
  {
    if n == 0 then None
    else if FindAny(defs, name, n - 1).Some? then FindAny(defs, name, n - 1)
    else if defs[n - 1].linkage == Local && defs[n - 1].name == name then Some(n - 1)
    else None
  }

  function FindDef(defs: seq<Def>, src: string, name: string): Option<nat> {
    var n := |defs|;
    if FindLocal(defs, src, name, n).Some? then FindLocal(defs, src, name, n)
    else if FindGlobal(defs, name, n).Some? then FindGlobal(defs, name, n)
    else FindAny(defs, name, n)
  }

  lemma {:induction false} LocalMapFinds(defs: seq<Def>, src: string, name: string, n: nat)
    requires n <= |defs|
    ensures var f := FindLocal(defs, src, name, n);
            match f
            case None => (src, name) !in LocalMap(defs, n)
            case Some(i) => i < n && (src, name) in LocalMap(defs, n)
                            && LocalMap(defs, n)[(src, name)] == defs[i].addr
  {
    if n > 0 { LocalMapFinds(defs, src, name, n - 1); }
  }

  lemma {:induction false} GlobalMapFinds(defs: seq<Def>, name: string, n: nat)
    requires n <= |defs| && GlobalMap(defs, n).Ok?
    ensures var m := GlobalMap(defs, n).value;
            match FindGlobal(defs, name, n)
            case None => name !in m
            case Some(i) => i < n && name in m && m[name] == defs[i].addr
  {
    if n > 0 { GlobalMapFinds(defs, name, n - 1); }
  }

  lemma {:induction false} UniqueMapFinds(defs: seq<Def>, name: string, n: nat)
    requires n <= |defs| && UniqueMap(defs, n).Ok?
    ensures var m := UniqueMap(defs, n).value;
            match FindAny(defs, name, n)
            case None => name !in m
            case Some(i) => i < n && name in m && m[name] == defs[i].addr
  {
    hide FirstOther;
    if n > 0 { UniqueMapFinds(defs, name, n - 1); }
  }

  /** Definitions `i` and `j` of one name, both global or both local, at different addresses. */
  ghost predicate Clash(defs: seq<Def>, i: nat, j: nat) {
    i < j < |defs| && defs[i].name == defs[j].name && defs[i].addr != defs[j].addr
    && ((Exports(defs[i]) && Exports(defs[j])) || (defs[i].linkage == Local && defs[j].linkage == Local))
  }

  lemma {:induction false} NoneFound(defs: seq<Def>, name: string, n: nat)
    requires n <= |defs|
    ensures FindGlobal(defs, name, n).None? ==> forall i | 0 <= i < n :: !(Exports(defs[i]) && defs[i].name == name)
    ensures FindGlobal(defs, name, n).Some? ==>
              var i := FindGlobal(defs, name, n).value; i < n && Exports(defs[i]) && defs[i].name == name
    ensures FindAny(defs, name, n).None? ==> forall i | 0 <= i < n :: !(defs[i].linkage == Local && defs[i].name == name)
    ensures FindAny(defs, name, n).Some? ==>
              var i := FindAny(defs, name, n).value; i < n && defs[i].linkage == Local && defs[i].name == name
  {
    if n > 0 { NoneFound(defs, name, n - 1); }
  }

  /** The global table of the first `n` definitions is refused exactly for a clash among them. */
  lemma {:induction false} GlobalMapIff(defs: seq<Def>, n: nat)
    requires n <= |defs|
    ensures GlobalMap(defs, n).Ok? <==> forall i, j | 0 <= i < j < n && Exports(defs[i]) :: !Clash(defs, i, j)
  {
    if n > 0 {
      var d := defs[n - 1];
      GlobalMapIff(defs, n - 1);
      NoneFound(defs, d.name, n - 1);
      if GlobalMap(defs, n - 1).Ok? {
        GlobalMapFinds(defs, d.name, n - 1);
        hide FindGlobal, FindAny;
        if Exports(d) && d.name in GlobalMap(defs, n - 1).value {
          var k := FindGlobal(defs, d.name, n - 1).value;
          forall i: nat | i < n - 1 && Exports(defs[i]) && Clash(defs, i, n - 1)
            ensures Clash(defs, k, n - 1)
          {
            if i < k { assert !Clash(defs, i, k); } else if k < i { assert !Clash(defs, k, i); }
          }
        }
      }
    }
  }

  lemma {:induction false} OtherIff(defs: seq<Def>, name: string, addr: int, i: nat)
    ensures FirstOther(defs, name, addr, i).None?
       <==> forall j | i <= j < |defs| && defs[j].linkage == Local && defs[j].name == name :: defs[j].addr == addr
    decreases |defs| - i
  {
    if i < |defs| { OtherIff(defs, name, addr, i + 1); }
  }

  /** The table of local names likewise, for a clash with a later definition. */
  lemma {:induction false} UniqueMapIff(defs: seq<Def>, n: nat)
    requires n <= |defs|
    ensures UniqueMap(defs, n).Ok? <==> forall i, j | 0 <= i < n && i < j < |defs| && defs[i].linkage == Local :: !Clash(defs, i, j)
  {
    if n > 0 {
      var d := defs[n - 1];
      UniqueMapIff(defs, n - 1);
      if UniqueMap(defs, n - 1).Ok? && d.linkage == Local {
        NoneFound(defs, d.name, n - 1);
        UniqueMapFinds(defs, d.name, n - 1);
        OtherIff(defs, d.name, d.addr, n);
        hide FindGlobal, FindAny, FirstOther;
        if d.name in UniqueMap(defs, n - 1).value {
          var k, m: nat := FindAny(defs, d.name, n - 1).value, n - 1;
          forall j: nat | m < j < |defs| ensures !Clash(defs, m, j) { assert !Clash(defs, k, m) && !Clash(defs, k, j); }
        } else if FirstOther(defs, d.name, d.addr, n).Some? {
          var j :| n <= j < |defs| && defs[j].linkage == Local && defs[j].name == d.name && defs[j].addr != d.addr;
          assert Clash(defs, n - 1, j);
        }
      }
    }
  }

  /** The error that names a clash: its name, the earlier address and the later one. */
  ghost predicate Reports(defs: seq<Def>, e: LinkError) {
    exists i: nat, j: nat :: Clash(defs, i, j) && e == Duplicate(defs[i].name, defs[i].addr, defs[j].addr)
  }

  lemma {:induction false} GlobalError(defs: seq<Def>, n: nat)
    requires n <= |defs| && GlobalMap(defs, n).Err?
    ensures Reports(defs, GlobalMap(defs, n).error)
  {
    hide Reports;
    if n > 0 {
      var d := defs[n - 1];
      if GlobalMap(defs, n - 1).Err? {
        GlobalError(defs, n - 1);
      } else {
        NoneFound(defs, d.name, n - 1);
        GlobalMapFinds(defs, d.name, n - 1);
        hide FindGlobal;
        Reported(defs, FindGlobal(defs, d.name, n - 1).value, n - 1);
      }
    }
  }

  lemma Reported(defs: seq<Def>, i: nat, j: nat)
    requires Clash(defs, i, j)
    ensures Reports(defs, Duplicate(defs[i].name, defs[i].addr, defs[j].addr))
  {
  }

  lemma {:induction false} OtherIs(defs: seq<Def>, name: string, addr: int, i: nat)
    requires FirstOther(defs, name, addr, i).Some?
    ensures exists j: nat :: i <= j < |defs| && defs[j].linkage == Local && defs[j].name == name
              && defs[j].addr == FirstOther(defs, name, addr, i).value != addr
    decreases |defs| - i
  {
    if !(defs[i].linkage == Local && defs[i].name == name && defs[i].addr != addr) { OtherIs(defs, name, addr, i + 1); }
  }

  lemma {:induction false} UniqueError(defs: seq<Def>, n: nat)
    requires n <= |defs| && UniqueMap(defs, n).Err?
    ensures Reports(defs, UniqueMap(defs, n).error)
  {
    hide Reports, FirstOther;
    if n > 0 {
      var d := defs[n - 1];
      if UniqueMap(defs, n - 1).Err? {
        UniqueError(defs, n - 1);
      } else {
        OtherIs(defs, d.name, d.addr, n);
        var j: nat :| n <= j < |defs| && defs[j].linkage == Local && defs[j].name == d.name
                      && defs[j].addr == FirstOther(defs, d.name, d.addr, n).value != d.addr;
        Reported(defs, n - 1, j);
      }
    }
  }

  /** The environment builds exactly when no name has two addresses among its global or among its local
      definitions, whatever their files; otherwise the error names one that has, with both addresses. */
  lemma BuildsIff(defs: seq<Def>)
    ensures BuildEnv(defs).Ok? <==> forall i, j :: !Clash(defs, i, j)
    ensures BuildEnv(defs).Err? ==> Reports(defs, BuildEnv(defs).error)
  {
    if GlobalMap(defs, |defs|).Err? {
      GlobalError(defs, |defs|);
    } else if UniqueMap(defs, |defs|).Err? {
      UniqueError(defs, |defs|);
    }
    GlobalMapIff(defs, |defs|);
    UniqueMapIff(defs, |defs|);
    hide GlobalMap, UniqueMap, LocalMap, Reports;
    forall i: nat, j: nat | Clash(defs, i, j)
      ensures i < j < |defs| && (Exports(defs[i]) || defs[i].linkage == Local)
    {
    }
  }

  /** `resolve_sym` finds the address of exactly the definition `FindDef` names. */
  lemma ResolveFinds(defs: seq<Def>, src: string, name: string)
    requires BuildEnv(defs).Ok?
    ensures match FindDef(defs, src, name)
            case None => Resolve(src, name, BuildEnv(defs).value) == Err(Undefined(name))
            case Some(i) => i < |defs| && Resolve(src, name, BuildEnv(defs).value) == Ok(defs[i].addr)
  {
    LocalMapFinds(defs, src, name, |defs|);
    GlobalMapFinds(defs, name, |defs|);
    UniqueMapFinds(defs, name, |defs|);
    hide LocalMap, GlobalMap, UniqueMap, FindLocal, FindGlobal, FindAny;
  }

  /** Equal up to addresses. */
  ghost predicate SameShape(ds: seq<Def>, ds': seq<Def>) {
    |ds| == |ds'| && forall i | 0 <= i < |ds| ::
      ds[i].src == ds'[i].src && ds[i].name == ds'[i].name && ds[i].linkage == ds'[i].linkage
  }

  lemma {:induction false} FindsSame(ds: seq<Def>, ds': seq<Def>, src: string, name: string, n: nat)
    requires SameShape(ds, ds') && n <= |ds|
    ensures FindLocal(ds, src, name, n) == FindLocal(ds', src, name, n)
    ensures FindGlobal(ds, name, n) == FindGlobal(ds', name, n)
    ensures FindAny(ds, name, n) == FindAny(ds', name, n)
  {
    if n > 0 { FindsSame(ds, ds', src, name, n - 1); }
  }

  lemma FindDefSame(ds: seq<Def>, ds': seq<Def>, src: string, name: string)
    requires SameShape(ds, ds')
    ensures FindDef(ds, src, name) == FindDef(ds', src, name)
  {
    FindsSame(ds, ds', src, name, |ds|);
  }

  /** The item positions behind `SectionDefs`. */
  function DefPositions(items: seq<Item>, n: nat): seq<nat>
    requires n <= |items|
  {
    if n == 0 then []
    else
      DefPositions(items, n - 1)
      + if items[n - 1].ItemSym? && items[n - 1].linkage != Extern then [n - 1] else []
  }

  /** Every definition of a section stands at its symbol item, whatever has been relaxed. */
  lemma {:induction false} DefsStand(base: nat, rel: set<nat>, items: seq<Item>, n: nat)
    requires n <= |items|
    ensures var ds, ps := SectionDefs(base, rel, items, n), DefPositions(items, n);
            |ds| == |ps| && forall k | 0 <= k < |ps| ::
              ps[k] < n && items[ps[k]].ItemSym?
              && ds[k] == DefAt(base, rel, items, ps[k])
  {
    hide OffsetAt;
    if n > 0 { DefsStand(base, rel, items, n - 1); }
  }

  function DefAt(base: nat, rel: set<nat>, items: seq<Item>, p: nat): Def
    requires p < |items| && items[p].ItemSym?
  {
    var it := items[p];
    Def(it.src, it.name, it.linkage,
        base + if it.offset.Some? then it.offset.value else OffsetAt(rel, items, p))
  }

  /** The item that defines what `name` means to `src`, in a program of one section. */
  function Target(items: seq<Item>, src: string, name: string): (r: Option<nat>)
    ensures r.Some? ==> r.value < |items| && items[r.value].ItemSym?
  {
    var ds := SectionDefs(0, {}, items, |items|);
    match FindDef(ds, src, name)
    case None => None
    case Some(k) =>
      DefsStand(0, {}, items, |items|);
      FindDefBounded(ds, src, name);
      Some(DefPositions(items, |items|)[k])
  }

  lemma FindDefBounded(ds: seq<Def>, src: string, name: string)
    ensures FindDef(ds, src, name).Some? ==> FindDef(ds, src, name).value < |ds|
  {
    FindsBounded(ds, src, name, |ds|);
  }

  lemma {:induction false} FindsBounded(ds: seq<Def>, src: string, name: string, n: nat)
    requires n <= |ds|
    ensures FindLocal(ds, src, name, n).Some? ==> FindLocal(ds, src, name, n).value < n
    ensures FindGlobal(ds, name, n).Some? ==> FindGlobal(ds, name, n).value < n
    ensures FindAny(ds, name, n).Some? ==> FindAny(ds, name, n).value < n
  {
    if n > 0 { FindsBounded(ds, src, name, n - 1); }
  }

  /** In a program of one section a reference resolves to the address of its `Target`. */
  lemma ResolveTarget(base: nat, rel: set<nat>, items: seq<Item>, src: string, name: string)
    requires BuildEnv(SectionDefs(base, rel, items, |items|)).Ok?
    ensures var env := BuildEnv(SectionDefs(base, rel, items, |items|)).value;
            match Target(items, src, name)
            case None => Resolve(src, name, env) == Err(Undefined(name))
            case Some(p) => Resolve(src, name, env) == Ok(DefAt(base, rel, items, p).addr)
  {
    var ds := SectionDefs(base, rel, items, |items|);
    var ds0 := SectionDefs(0, {}, items, |items|);
    DefsStand(base, rel, items, |items|);
    DefsStand(0, {}, items, |items|);
    hide SectionDefs, DefPositions, BuildEnv, FindDef, Resolve, OffsetAt;
    assert SameShape(ds, ds0);
    FindDefSame(ds, ds0, src, name);
    ResolveFinds(ds, src, name);
  }
}
