/** `OptimizersContainer`: one flat dict for all optimizers, loaded into each of them. */
module OptimizersContainers {
  import opened DottedNames
  import opened FlatOptimizerDicts
  import opened FlatOptimizerLoading
  import opened FlatOptimizers
  import opened FlatSections
  import opened Wrappers

  ghost function OwnWorld<V>(o: Optim<V>): World<V> {
    WorldOf(Roster(o.groups), o.state)
  }

  ghost function Worlds<V>(optims: seq<Optim<V>>): (r: seq<World<V>>)
    ensures |r| == |optims| && forall i | 0 <= i < |optims| :: r[i] == OwnWorld(optims[i])
  {
    seq(|optims|, i requires 0 <= i < |optims| => OwnWorld(optims[i]))
  }

  function Merge<V>(ws: seq<World<V>>): World<V> {
    if ws == [] then map[] else Merge(ws[..|ws| - 1]) + ws[|ws| - 1]
  }

  /** Everything several optimizers hold. */
  ghost function AllWorlds<V>(optims: seq<Optim<V>>): World<V> {
    Merge(Worlds(optims))
  }

  ghost predicate Disjoint<V>(ws: seq<World<V>>) {
    forall i, j | 0 <= i < j < |ws| :: ws[i].Keys !! ws[j].Keys
  }

  /** No two parameters of any optimizers share a name. */
  ghost predicate Separate<V>(optims: seq<Optim<V>>) {
    (forall i | 0 <= i < |optims| :: Distinct(Roster(optims[i].groups))) && Disjoint(Worlds(optims))
  }

  lemma {:induction false} HolderOf<V>(ws: seq<World<V>>, n: nat, f: string) returns (i: nat)
    requires n <= |ws| && f in Merge(ws[..n])
    ensures i < n && f in ws[i] && ws[i][f] == Merge(ws[..n])[f]
    decreases n
  {
    assert n > 0 ==> ws[..n][..n - 1] == ws[..n - 1];
    if f in ws[n - 1] {
      i := n - 1;
    } else {
      i := HolderOf(ws, n - 1, f);
    }
  }

  lemma {:induction false} InMerge<V>(ws: seq<World<V>>, n: nat, i: nat, f: string)
    requires Disjoint(ws) && i < n <= |ws| && f in ws[i]
    ensures f in Merge(ws[..n]) && Merge(ws[..n])[f] == ws[i][f]
    decreases n
  {
    assert ws[..n][..n - 1] == ws[..n - 1];
    if i < n - 1 {
      InMerge(ws, n - 1, i, f);
      assert f !in ws[n - 1];
    }
  }

  function AllSections<V>(w: World<V>): Sections<V> {
    SectionsOf(w, w.Keys)
  }

  lemma UnionAt<V>(a: World<V>, b: World<V>, p: string, f: string)
    requires a.Keys !! b.Keys && (p == Under("state", f) || p == Under("param_groups", f))
    ensures p in AllSections(a + b) <==> p in AllSections(a) || p in AllSections(b)
    ensures !(p in AllSections(a) && p in AllSections(b))
    ensures p in AllSections(a) ==> AllSections(a + b)[p] == AllSections(a)[p]
    ensures p in AllSections(b) ==> AllSections(a + b)[p] == AllSections(b)[p]
  {
    SectionNames(a + b, (a + b).Keys, f);
    SectionNames(a, a.Keys, f);
    SectionNames(b, b.Keys, f);
  }

  lemma SomeName<V>(a: World<V>, b: World<V>, p: string) returns (f: string)
    requires p in AllSections(a + b) || p in AllSections(a) || p in AllSections(b)
    ensures p == Under("state", f) || p == Under("param_groups", f)
  {
    if p in AllSections(a + b) {
      f := NameOf(a + b, (a + b).Keys, p);
    } else if p in AllSections(a) {
      f := NameOf(a, a.Keys, p);
    } else {
      f := NameOf(b, b.Keys, p);
    }
  }

  lemma MapsAgree<V>(u: Sections<V>, s: Sections<V>, t: Sections<V>)
    requires forall p :: p in u <==> p in s || p in t
    requires forall p | p in s && p !in t :: u[p] == s[p]
    requires forall p | p in t :: u[p] == t[p]
    ensures u == s + t
  {
  }

  lemma SectionsUnion<V>(a: World<V>, b: World<V>)
    requires a.Keys !! b.Keys
    ensures AllSections(a + b) == AllSections(a) + AllSections(b)
    ensures AllSections(a).Keys !! AllSections(b).Keys
  {
    var u, s, t := AllSections(a + b), AllSections(a), AllSections(b);
    forall p | p in u || p in s || p in t
      ensures (p in u <==> p in s || p in t) && !(p in s && p in t)
      ensures (p in s ==> u[p] == s[p]) && (p in t ==> u[p] == t[p])
    {
      var f := SomeName(a, b, p);
      UnionAt(a, b, p, f);
    }
    MapsAgree(u, s, t);
  }

  lemma FillsBoth<V>(a: map<string, V>, v: World<V>, b: map<string, V>, w: World<V>)
    requires Fills(a, AllSections(v)) && Fills(b, AllSections(w)) && v.Keys !! w.Keys
    ensures Fills(a + b, AllSections(v + w))
  {
    SectionsUnion(v, w);
    MergeSections(a, AllSections(v), b, AllSections(w));
  }

  lemma OneOfMerge<V>(ws: seq<World<V>>, i: nat)
    requires i < |ws| && Disjoint(ws) && Plain(Merge(ws))
    ensures Plain(ws[i])
  {
    assert ws[..|ws|] == ws;
    forall f | f in ws[i]
      ensures f in Merge(ws) && Merge(ws)[f] == ws[i][f]
    {
      InMerge(ws, |ws|, i, f);
    }
  }

  lemma StepDisjoint<V>(ws: seq<World<V>>, i: nat)
    requires i < |ws| && Disjoint(ws)
    ensures Merge(ws[..i]).Keys !! ws[i].Keys
  {
    forall f | f in Merge(ws[..i])
      ensures f !in ws[i]
    {
      var k := HolderOf(ws, i, f);
    }
  }

  /** The first i optimizers are merged. */
  ghost predicate Merged<V>(ws: seq<World<V>>, i: nat, result: map<string, V>)
    requires i <= |ws|
  {
    Fills(result, AllSections(Merge(ws[..i])))
  }

  lemma UpdateFills<V>(ws: seq<World<V>>, i: nat, result: map<string, V>, flat: map<string, V>)
    requires i < |ws| && Merge(ws[..i]).Keys !! ws[i].Keys && Merged(ws, i, result) && FilledWith(flat, ws[i])
    ensures Merged(ws, i + 1, result + flat)
  {
    assert ws[..i + 1][..i] == ws[..i];
    FillsBoth(result, Merge(ws[..i]), flat, ws[i]);
  }

  lemma NothingMerged<V>(ws: seq<World<V>>, result: map<string, V>)
    requires result == map[]
    ensures Merged(ws, 0, result)
  {
  }

  /** Parameters whose names are apart can always be held together. */
  lemma AllMerged<V>(ws: seq<World<V>>, result: map<string, V>)
    requires Merged(ws, |ws|, result)
    ensures FilledWith(result, Merge(ws))
    ensures Good(Merge(ws)) ==> Holds(result, Merge(ws))
  {
    assert ws[..|ws|] == ws;
    FilledWorld(result, Merge(ws));
    if Good(Merge(ws)) {
      SectionsApart(Merge(ws), Merge(ws).Keys);
      ApartAgree(AllSections(Merge(ws)));
    }
  }

  /** Optimizer i can be added to those before it. */
  ghost predicate Adds<V>(ws: seq<World<V>>, optims: seq<Optim<V>>, i: nat) {
    && i < |ws| == |optims| && ws[i] == OwnWorld(optims[i])
    && Distinct(Roster(optims[i].groups)) && Plain(ws[i]) && Merge(ws[..i]).Keys !! ws[i].Keys
  }

  lemma AllAdd<V>(optims: seq<Optim<V>>, i: nat)
    requires Separate(optims) && Plain(AllWorlds(optims)) && i < |optims|
    ensures Adds(Worlds(optims), optims, i)
  {
    OneOfMerge(Worlds(optims), i);
    StepDisjoint(Worlds(optims), i);
  }

  method MergeOne<V>(ghost ws: seq<World<V>>, optims: seq<Optim<V>>, i: nat, was: map<string, V>)
    returns (r: Result<map<string, V>, Error>)
    requires Adds(ws, optims, i) && Merged(ws, i, was)
    ensures r.Ok? <==> Convertible(optims[i])
    ensures r.Ok? ==> Merged(ws, i + 1, r.value)
  {
    var flat := GetFlat(optims[i]);
    if flat.Err? {
      return Err(flat.error);
    }
    UpdateFills(ws, i, was, flat.value);
    return Ok(was + flat.value);
  }

  method MergeAll<V>(ghost ws: seq<World<V>>, optims: seq<Optim<V>>) returns (r: Result<map<string, V>, Error>)
    requires |ws| == |optims| && forall i | 0 <= i < |optims| :: Adds(ws, optims, i)
    ensures r.Ok? <==> forall i | 0 <= i < |optims| :: Convertible(optims[i])
    ensures r.Ok? ==> Merged(ws, |ws|, r.value)
  {
    var result: map<string, V> := map[];
    NothingMerged(ws, result);
    for i := 0 to |optims|
      invariant Merged(ws, i, result)
      invariant forall k | 0 <= k < i :: Convertible(optims[k])
    {
      var more := MergeOne(ws, optims, i, result);
      if more.Err? {
        return more;
      }
      result := more.value;
    }
    return Ok(result);
  }

  /** `state_dict`: the union of all optimizers' flat dicts; it fails exactly when some
      optimizer cannot be converted. It holds every parameter's sections exactly when no two
      store different values at one key, as under names that are apart. */
  method StateDict<V>(optims: seq<Optim<V>>) returns (r: Result<map<string, V>, Error>)
    requires Separate(optims) && Plain(AllWorlds(optims))
    ensures r.Ok? <==> forall i | 0 <= i < |optims| :: Convertible(optims[i])
    ensures r.Ok? ==> FilledWith(r.value, AllWorlds(optims))
    ensures r.Ok? && Good(AllWorlds(optims)) ==> Holds(r.value, AllWorlds(optims))
  {
    forall i | 0 <= i < |optims|
      ensures Adds(Worlds(optims), optims, i)
    {
      AllAdd(optims, i);
    }
    r := MergeAll(Worlds(optims), optims);
    if r.Ok? {
      AllMerged(Worlds(optims), r.value);
    }
  }

  /** `load_state_dict`: the same flat dict goes to every optimizer. */
  method LoadStateDict<V>(optims: seq<Optim<V>>, flat: map<string, V>, ghost w: World<V>)
    returns (r: Result<seq<Optim<V>>, Error>)
    requires Holds(flat, w) && forall i | 0 <= i < |optims| :: Fits(w, optims[i])
    ensures r.Ok? ==> |r.value| == |optims| && forall i | 0 <= i < |optims| :: Loaded(w, optims[i], r.value[i])
    ensures r.Err? ==> exists i, g ::
      0 <= i < |optims| && 0 <= g < |optims[i].groups| && KeyMissing(w, optims[i].groups[g])
  {
    var loaded: seq<Optim<V>> := [];
    for i := 0 to |optims|
      invariant |loaded| == i && forall k | 0 <= k < i :: Loaded(w, optims[k], loaded[k])
    {
      var o := LoadFlat(optims[i], flat, w);
      if o.Err? {
        return Err(o.error);
      }
      loaded := loaded + [o.value];
    }
    return Ok(loaded);
  }

  /** Saved from one set of optimizers, loaded into another over the same parameters: every
      parameter of every live optimizer has its own saved state and hyperparameters. */
  lemma ContainerRoundTrip<V>(saved: seq<Optim<V>>, live: seq<Optim<V>>, loaded: seq<Optim<V>>)
    requires |loaded| == |live|
    requires forall i | 0 <= i < |live| ::
      Loaded(AllWorlds(saved), live[i], loaded[i]) && Matches(AllWorlds(saved), live[i])
    ensures forall i | 0 <= i < |live| ::
      IsWorld(Part(AllWorlds(saved), Names(Roster(live[i].groups))), Roster(loaded[i].groups), loaded[i].state)
  {
    forall i | 0 <= i < |live|
      ensures IsWorld(Part(AllWorlds(saved), Names(Roster(live[i].groups))), Roster(loaded[i].groups), loaded[i].state)
    {
      RoundTrip(AllWorlds(saved), live[i], loaded[i]);
    }
  }
}
