/** The linker's loops as the source runs them: dictionaries and index sets that grow, lists that are
    extended, each proved to compute the function of `Linker` that the theorems are about. */
module LinkMethods {
  import opened Isa
  import opened ObjFile
  import opened Linker
  import R = Relaxation

  // ---- symbols --------------------------------------------------------------------

  /** `collect_placed_symbols`. */
  method CollectSymbols(merged: seq<Merged>, bases: Bases, relaxed: Relaxed) returns (out: seq<Def>)
    ensures out == Defs(merged, bases, relaxed)
  {
    out := [];
    for s := 0 to |merged|
      invariant out == Defs(merged[..s], bases, relaxed)
    {
      var m := merged[s];
      var base, rel := SectionBase(bases, m.name), RelOf(relaxed, m.name);
      var offsets, _ := LayoutSection(rel, m.items);
      ghost var before := out;
      for i := 0 to |m.items|
        invariant out == before + SectionDefs(base, rel, m.items, i)
      {
        var it := m.items[i];
        if it.ItemSym? && it.linkage != Extern {
          var addr := base + if it.offset.Some? then it.offset.value else offsets[i];
          out := out + [Def(it.src, it.name, it.linkage, addr)];
        }
      }
      assert merged[..s + 1][..s] == merged[..s];
    }
    assert merged[..|merged|] == merged;
  }

  /** The addresses of the local definitions of `name` among the first `n`. */
  function Addresses(defs: seq<Def>, name: string, n: nat): seq<int>
    requires n <= |defs|
  {
    if n == 0 then []
    else
      Addresses(defs, name, n - 1)
      + if defs[n - 1].linkage == Local && defs[n - 1].name == name then [defs[n - 1].addr] else []
  }

  /** The first address that is not the first one. */
  function SecondAddress(xs: seq<int>): Option<int> {
    if xs == [] then None else FirstUnlike(xs[0], xs, 1)
  }

  function FirstUnlike(a: int, xs: seq<int>, i: nat): Option<int>
    decreases |xs| - i
  {
    if i >= |xs| then None else if xs[i] != a then Some(xs[i]) else FirstUnlike(a, xs, i + 1)
  }

  lemma {:induction false} AddressesPrefix(defs: seq<Def>, name: string, n: nat, n': nat)
    requires n <= n' <= |defs|
    ensures Addresses(defs, name, n) <= Addresses(defs, name, n')
    decreases n'
  {
    if n < n' { AddressesPrefix(defs, name, n, n' - 1); }
  }

  /** Looking on from definition `n` is looking on from the addresses before it. */
  lemma {:induction false} LookOn(defs: seq<Def>, name: string, a: int, n: nat)
    requires n <= |defs|
    ensures FirstOther(defs, name, a, n)
         == FirstUnlike(a, Addresses(defs, name, |defs|), |Addresses(defs, name, n)|)
    decreases |defs| - n
  {
    if n < |defs| {
      LookOn(defs, name, a, n + 1);
      AddressesPrefix(defs, name, n + 1, |defs|);
      var all := Addresses(defs, name, |defs|);
      if defs[n].linkage == Local && defs[n].name == name {
        assert all[|Addresses(defs, name, n)|] == defs[n].addr;
      }
    }
  }

  /** The local names among the first `n` definitions, by first appearance: what the dictionary of
      address lists iterates over. */
  function LocalNames(defs: seq<Def>, n: nat): seq<string>
    requires n <= |defs|
  {
    if n == 0 then []
    else
      var names := LocalNames(defs, n - 1);
      if defs[n - 1].linkage == Local && defs[n - 1].name !in names then names + [defs[n - 1].name] else names
  }

  /** The loop over the names: each must have one address. */
  function UniqueNames(defs: seq<Def>, names: seq<string>, k: nat): Result<map<string, int>, LinkError>
    requires k <= |names|
  {
    if k == 0 then Ok(map[])
    else
      match UniqueNames(defs, names, k - 1)
      case Err(e) => Err(e)
      case Ok(m) =>
        var xs := Addresses(defs, names[k - 1], |defs|);
        match SecondAddress(xs)
        case Some(a) => Err(Duplicate(names[k - 1], xs[0], a))
        case None => if xs == [] then Ok(m) else Ok(m[names[k - 1] := xs[0]])
  }

  lemma {:induction false} NamesPrefix(defs: seq<Def>, names: seq<string>, more: seq<string>, k: nat)
    requires k <= |names|
    ensures UniqueNames(defs, names, k) == UniqueNames(defs, names + more, k)
    decreases k
  {
    if k > 0 { NamesPrefix(defs, names, more, k - 1); }
  }

  lemma {:induction false} FirstAddress(defs: seq<Def>, n: nat)
    requires n <= |defs|
    ensures forall name :: name in LocalNames(defs, n) <==> Addresses(defs, name, n) != []
    decreases n
  {
    if n > 0 { FirstAddress(defs, n - 1); }
  }

  /** The pass over the names in order is the pass over the definitions. */
  lemma {:induction false} NamesAreDefs(defs: seq<Def>, n: nat)
    requires n <= |defs|
    ensures var names := LocalNames(defs, n);
            UniqueNames(defs, names, |names|) == UniqueMap(defs, n)
            && (UniqueMap(defs, n).Ok? ==> forall name :: name in UniqueMap(defs, n).value <==> name in names)
    decreases n
  {
    hide Addresses, FirstOther, SecondAddress, UniqueNames;
    if n > 0 {
      NamesAreDefs(defs, n - 1);
      var d, before := defs[n - 1], LocalNames(defs, n - 1);
      if d.linkage == Local && d.name !in before { NewName(defs, n); }
    } else {
      NoNames(defs);
    }
  }

  lemma NoNames(defs: seq<Def>)
    ensures UniqueNames(defs, [], 0) == Ok(map[])
  {
  }

  /** One more local name. */
  lemma NewName(defs: seq<Def>, n: nat)
    requires 0 < n <= |defs| && defs[n - 1].linkage == Local && defs[n - 1].name !in LocalNames(defs, n - 1)
    ensures UniqueNames(defs, LocalNames(defs, n - 1) + [defs[n - 1].name], |LocalNames(defs, n - 1)| + 1)
         == match UniqueNames(defs, LocalNames(defs, n - 1), |LocalNames(defs, n - 1)|)
            case Err(e) => Err(e)
            case Ok(m) =>
              match FirstOther(defs, defs[n - 1].name, defs[n - 1].addr, n)
              case Some(a) => Err(Duplicate(defs[n - 1].name, defs[n - 1].addr, a))
              case None => Ok(m[defs[n - 1].name := defs[n - 1].addr])
  {
    hide LocalNames, FirstOther;
    var d, before := defs[n - 1], LocalNames(defs, n - 1);
    FirstAddress(defs, n - 1);
    NamesPrefix(defs, before, [d.name], |before|);
    AddressesPrefix(defs, d.name, n, |defs|);
    LookOn(defs, d.name, d.addr, n);
    assert Addresses(defs, d.name, n) == [d.addr];
    hide Addresses;
    assert (before + [d.name])[|before|] == d.name;
  }

  /** `build_symbol_env` on the placed symbols. */
  method BuildSymbolEnv(defs: seq<Def>) returns (r: Result<SymEnv, LinkError>)
    ensures r == BuildEnv(defs)
  {
    var local: map<(string, string), int>, global: map<string, int> := map[], map[];
    for i := 0 to |defs|
      invariant local == LocalMap(defs, i) && GlobalMap(defs, i) == Ok(global)
    {
      var d := defs[i];
      if d.linkage == Local {
        local := local[(d.src, d.name) := d.addr];
      } else if IsGlobal(d) {
        if d.name in global && global[d.name] != d.addr {
          GlobalFails(defs, i + 1, Duplicate(d.name, global[d.name], d.addr));
          return Err(Duplicate(d.name, global[d.name], d.addr));
        }
        global := global[d.name := d.addr];
      }
    }
    var byName: map<string, seq<int>>, order: seq<string> := map[], [];
    for i := 0 to |defs|
      invariant order == LocalNames(defs, i)
      invariant forall name :: name in byName <==> name in order
      invariant forall name | name in byName :: byName[name] == Addresses(defs, name, i)
    {
      FirstAddress(defs, i);
      var d := defs[i];
      if d.linkage == Local {
        if d.name in byName {
          byName := byName[d.name := byName[d.name] + [d.addr]];
        } else {
          byName := byName[d.name := [d.addr]];
          order := order + [d.name];
        }
      }
    }
    var unique: map<string, int> := map[];
    NamesAreDefs(defs, |defs|);
    FirstAddress(defs, |defs|);
    for k := 0 to |order|
      invariant UniqueNames(defs, order, k) == Ok(unique)
    {
      var xs := byName[order[k]];
      var second := SecondAddress(xs);
      if second.Some? {
        UniqueFails(defs, order, k + 1, Duplicate(order[k], xs[0], second.value));
        return Err(Duplicate(order[k], xs[0], second.value));
      }
      unique := unique[order[k] := xs[0]];
    }
    return Ok(SymEnv(global, local, unique));
  }

  lemma {:induction false} GlobalFails(defs: seq<Def>, n: nat, e: LinkError)
    requires n <= |defs| && GlobalMap(defs, n) == Err(e)
    ensures GlobalMap(defs, |defs|) == Err(e)
    decreases |defs| - n
  {
    if n < |defs| { GlobalFails(defs, n + 1, e); }
  }

  lemma {:induction false} UniqueFails(defs: seq<Def>, names: seq<string>, k: nat, e: LinkError)
    requires k <= |names| && UniqueNames(defs, names, k) == Err(e)
    ensures UniqueNames(defs, names, |names|) == Err(e)
    decreases |names| - k
  {
    if k < |names| { UniqueFails(defs, names, k + 1, e); }
  }

  // ---- relaxation -----------------------------------------------------------------

  /** One section's pass of a round: the index set grows while the layout stays that of the start. */
  method GrowSection(env: SymEnv, base: nat, rel: set<nat>, items: seq<Item>)
    returns (r: Result<set<nat>, LinkError>, changed: bool)
    ensures r == Scan(env, base, rel, items, |items|)
    ensures r.Ok? ==> (changed <==> r.value != rel)
  {
    var offsets, _ := LayoutSection(rel, items);
    var secRel := rel;
    changed := false;
    for i := 0 to |items|
      invariant Scan(env, base, rel, items, i) == Ok(secRel)
      invariant rel <= secRel && (forall j | j in secRel && j !in rel :: j < i)
      invariant changed <==> secRel != rel
    {
      if items[i].ItemBrel? && i !in secRel {
        var target := Resolve(items[i].src, items[i].sym, env);
        if target.Err? {
          ScanFails(env, base, rel, items, i + 1, target.error);
          return Err(target.error), false;
        }
        var offset := target.value + items[i].addend - (base + offsets[i]);
        if offset < -64 || offset > 63 {
          secRel := secRel + {i};
          changed := true;
        }
      }
    }
    return Ok(secRel), changed;
  }

  lemma {:induction false} ScanFails(env: SymEnv, base: nat, rel: set<nat>, items: seq<Item>, n: nat, e: LinkError)
    requires n <= |items| && Scan(env, base, rel, items, n) == Err(e)
    ensures Scan(env, base, rel, items, |items|) == Err(e)
    decreases |items| - n
  {
    if n < |items| { ScanFails(env, base, rel, items, n + 1, e); }
  }

  lemma {:induction false} ScanAllFails(merged: seq<Merged>, bases: Bases, env: SymEnv, relaxed: Relaxed, n: nat, e: LinkError)
    requires n <= |merged| && ScanAll(merged, bases, env, relaxed, n) == Err(e)
    ensures ScanAll(merged, bases, env, relaxed, |merged|) == Err(e)
    decreases |merged| - n
  {
    if n < |merged| { ScanAllFails(merged, bases, env, relaxed, n + 1, e); }
  }

  /** An entry for one section leaves those of the others. */
  lemma OthersKeep(merged: seq<Merged>, relaxed: Relaxed, s: nat, grown: set<nat>)
    requires R.Distinct(merged) && s < |merged|
    ensures var r := relaxed[merged[s].name := grown];
            RelOf(r, merged[s].name) == grown
            && forall j | 0 <= j < |merged| && j != s :: RelOf(r, merged[j].name) == RelOf(relaxed, merged[j].name)
  {
  }

  /** The pass of a round over all sections. */
  method GrowAll(merged: seq<Merged>, bases: Bases, env: SymEnv, relaxed: Relaxed)
    returns (r: Result<Relaxed, LinkError>, changed: bool)
    requires R.Distinct(merged)
    ensures r == ScanAll(merged, bases, env, relaxed, |merged|)
    ensures r.Ok? ==> (changed <==> !Unchanged(merged, relaxed, r.value))
  {
    hide Scan, R.Distinct;
    var relaxedNew := relaxed;
    changed := false;
    for s := 0 to |merged|
      invariant ScanAll(merged, bases, env, relaxed, s) == Ok(relaxedNew)
      invariant forall j | s <= j < |merged| :: RelOf(relaxedNew, merged[j].name) == RelOf(relaxed, merged[j].name)
      invariant changed <==> exists j | 0 <= j < s :: RelOf(relaxed, merged[j].name) != RelOf(relaxedNew, merged[j].name)
    {
      var m := merged[s];
      var grown, more := GrowSection(env, SectionBase(bases, m.name), RelOf(relaxedNew, m.name), m.items);
      if grown.Err? {
        ScanAllFails(merged, bases, env, relaxed, s + 1, grown.error);
        return Err(grown.error), false;
      }
      ghost var before := relaxedNew;
      relaxedNew := relaxedNew[m.name := grown.value];
      changed := changed || more;
      OthersKeep(merged, before, s, grown.value);
    }
    return Ok(relaxedNew), changed;
  }

  /** `relax_loop`. */
  method Relax(merged: seq<Merged>, bases: Bases, relaxed: Relaxed, budget: nat) returns (r: Result<Relaxed, LinkError>)
    requires R.Distinct(merged)
    ensures r == RelaxLoop(merged, bases, relaxed, budget)
    decreases budget
  {
    hide Defs, BuildEnv, ScanAll, Unchanged, R.Distinct;
    if budget == 0 { return Err(BudgetExhausted); }
    var defs := CollectSymbols(merged, bases, relaxed);
    var env := BuildSymbolEnv(defs);
    if env.Err? { return Err(env.error); }
    var relaxedNew, changed := GrowAll(merged, bases, env.value, relaxed);
    if relaxedNew.Err? || !changed { return relaxedNew; }
    r := Relax(merged, bases, relaxedNew.value, budget - 1);
  }

  // ---- emission -------------------------------------------------------------------

  /** `emit_section`. */
  method EmitOne(base: nat, rel: set<nat>, env: SymEnv, items: seq<Item>)
    returns (r: Result<seq<(nat, Word)>, LinkError>)
    ensures r == EmitSection(base, rel, env, items, |items|)
  {
    hide ItemWords;
    var offsets, _ := LayoutSection(rel, items);
    var out: seq<(nat, Word)> := [];
    for i := 0 to |items|
      invariant EmitSection(base, rel, env, items, i) == Ok(out)
    {
      var words := ItemWords(base, rel, env, i, items[i], offsets[i]);
      if words.Err? {
        EmitFails(base, rel, env, items, i + 1, words.error);
        return Err(words.error);
      }
      out := out + Place(base + offsets[i], words.value);
    }
    return Ok(out);
  }

  lemma {:induction false} EmitFails(base: nat, rel: set<nat>, env: SymEnv, items: seq<Item>, n: nat, e: LinkError)
    requires n <= |items| && EmitSection(base, rel, env, items, n) == Err(e)
    ensures EmitSection(base, rel, env, items, |items|) == Err(e)
    decreases |items| - n
  {
    if n < |items| { EmitFails(base, rel, env, items, n + 1, e); }
  }

  lemma {:induction false} EmitAllFails(merged: seq<Merged>, bases: Bases, relaxed: Relaxed, env: SymEnv, n: nat, e: LinkError)
    requires n <= |merged| && EmitAll(merged, bases, relaxed, env, n) == Err(e)
    ensures EmitAll(merged, bases, relaxed, env, |merged|) == Err(e)
    decreases |merged| - n
  {
    if n < |merged| { EmitAllFails(merged, bases, relaxed, env, n + 1, e); }
  }

  method EmitSections(merged: seq<Merged>, bases: Bases, relaxed: Relaxed, env: SymEnv)
    returns (r: Result<seq<(nat, Word)>, LinkError>)
    ensures r == EmitAll(merged, bases, relaxed, env, |merged|)
  {
    hide EmitSection;
    var emitted: seq<(nat, Word)> := [];
    for s := 0 to |merged|
      invariant EmitAll(merged, bases, relaxed, env, s) == Ok(emitted)
    {
      var m := merged[s];
      var words := EmitOne(SectionBase(bases, m.name), RelOf(relaxed, m.name), env, m.items);
      if words.Err? {
        EmitAllFails(merged, bases, relaxed, env, s + 1, words.error);
        return Err(words.error);
      }
      emitted := emitted + words.value;
    }
    return Ok(emitted);
  }

  // ---- the whole link -------------------------------------------------------------

  /** The pieces of all inputs. */
  method CollectPieces(inputs: seq<(string, ObjectFile)>) returns (r: Result<seq<Piece>, LinkError>)
    ensures r == AllPieces(inputs, |inputs|)
  {
    var pieces: seq<Piece> := [];
    for f := 0 to |inputs|
      invariant AllPieces(inputs, f) == Ok(pieces)
    {
      var (fp, obj) := inputs[f];
      ghost var before := pieces;
      for s := 0 to |obj.sections|
        invariant exists qs :: ObjectPieces(fp, obj.sections, s) == Ok(qs) && pieces == before + qs
      {
        var items := RecordsToItems(fp, obj.sections[s].records);
        if items.Err? {
          PiecesFail(fp, obj.sections, s + 1, items.error);
          AllPiecesFail(inputs, f + 1, items.error);
          return Err(items.error);
        }
        pieces := pieces + [Piece(fp, obj.sections[s].name, items.value)];
      }
    }
    return Ok(pieces);
  }

  lemma {:induction false} PiecesFail(fp: string, sections: seq<Section>, n: nat, e: LinkError)
    requires n <= |sections| && ObjectPieces(fp, sections, n) == Err(e)
    ensures ObjectPieces(fp, sections, |sections|) == Err(e)
    decreases |sections| - n
  {
    if n < |sections| { PiecesFail(fp, sections, n + 1, e); }
  }

  lemma {:induction false} AllPiecesFail(inputs: seq<(string, ObjectFile)>, n: nat, e: LinkError)
    requires n <= |inputs| && AllPieces(inputs, n) == Err(e)
    ensures AllPieces(inputs, |inputs|) == Err(e)
    decreases |inputs| - n
  {
    if n < |inputs| { AllPiecesFail(inputs, n + 1, e); }
  }

  /** `link_object_files`. */
  method Link(opts: Bases, inputs: seq<(string, ObjectFile)>) returns (r: Result<LinkResult, LinkError>)
    ensures r == LinkObjectFiles(opts, inputs)
  {
    hide Defs, BuildEnv, EmitAll, MakeImage, AllPieces, RelaxLoop, MergePieces, SectionOrder, AssignBases;
    var pieces := CollectPieces(inputs);
    if pieces.Err? { return Err(pieces.error); }
    var merged := MergePieces(pieces.value);
    var bases := AssignBases(opts, SectionOrder(pieces.value));
    var relaxed := Relax(merged, bases, map[], |pieces.value| * 4 + 16);
    if relaxed.Err? { return Err(relaxed.error); }
    var symbols := CollectSymbols(merged, bases, relaxed.value);
    var env := BuildSymbolEnv(symbols);
    if env.Err? { return Err(env.error); }
    var emitted := EmitSections(merged, bases, relaxed.value, env.value);
    if emitted.Err? { return Err(emitted.error); }
    var words := FillImage(emitted.value);
    if words.Err? { return Err(words.error); }
    var sections := PlacedSections(merged, bases, relaxed.value);
    var long := FirstLongSection(sections, 0);
    if long.Some? { return Err(SectionEnd(long.value.0, long.value.1)); }
    return Ok(LinkResult(words.value, symbols, sections));
  }
}
