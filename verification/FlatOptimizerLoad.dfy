/** Rebuilding an optimizer's state dict from a flat one, and what comes back. */
module FlatOptimizerLoading {
  import opened DottedNames
  import opened FlatOptimizerDicts
  import opened FlatOptimizers
  import opened FlatSections
  import opened StateTrees
  import opened Wrappers

  /** The flat dict of a good world. */
  ghost predicate Holds<V>(flat: map<string, V>, w: World<V>) {
    Good(w) && IsFlat(flat, SectionsOf(w, w.Keys))
  }

  /** The world with more names in it, of which nothing was saved. */
  function Padded<V>(w: World<V>, names: set<string>): World<V> {
    map f | f in w.Keys + names :: if f in w then w[f] else Param(map[], map[])
  }

  lemma NothingBelow<V>(f: string, key: string)
    ensures At<V>(map[], f, key) == None && At<V>(Leaves(map[]), f, key) == None
  {
  }

  lemma PaddedSection<V>(w: World<V>, names: set<string>, q: string, key: string)
    ensures In(SectionsOf(w, w.Keys), q, key) <==> In(SectionsOf(Padded(w, names), Padded(w, names).Keys), q, key)
    ensures In(SectionsOf(w, w.Keys), q, key) ==>
      SectionsOf(Padded(w, names), Padded(w, names).Keys)[q] == SectionsOf(w, w.Keys)[q]
  {
    var p := Padded(w, names);
    var s, t := SectionsOf(w, w.Keys), SectionsOf(p, p.Keys);
    if q in t {
      var f := NameOf(p, p.Keys, q);
      SectionNames(w, w.Keys, f);
      SectionNames(p, p.Keys, f);
      NothingBelow<V>(q, key);
    } else if q in s {
      var f := NameOf(w, w.Keys, q);
      SectionNames(w, w.Keys, f);
      SectionNames(p, p.Keys, f);
    }
  }

  /** A flat dict that says nothing of some parameters holds them as having nothing, so the
      contracts below cover live parameters that were not saved: they get no state, and a
      group whose first one it is fails if it expects a key. */
  lemma AbsentAreEmpty<V>(flat: map<string, V>, w: World<V>, names: set<string>)
    requires Holds(flat, w) && Good(Padded(w, names))
    ensures Holds(flat, Padded(w, names))
    ensures forall f | f in names && f !in w :: f in Padded(w, names) && Padded(w, names)[f] == Param(map[], map[])
    ensures forall f | f in w :: f in Padded(w, names) && Padded(w, names)[f] == w[f]
  {
    var p := Padded(w, names);
    forall key | key in flat
      ensures exists q :: In(SectionsOf(p, p.Keys), q, key)
    {
      var q :| In(SectionsOf(w, w.Keys), q, key);
      PaddedSection(w, names, q, key);
    }
    forall q, key | In(SectionsOf(p, p.Keys), q, key)
      ensures Get(flat, key) == At(SectionsOf(p, p.Keys)[q], q, key)
    {
      PaddedSection(w, names, q, key);
    }
  }

  /** Group keys and state names as PyTorch gives them. */
  predicate PlainKeys<V>(optim: Optim<V>) {
    && (forall g | 0 <= g < |optim.groups| :: forall k | k in optim.groups[g].hyper :: DotFree(k))
    && forall id | id in optim.state :: forall k | k in optim.state[id] :: DotFree(k)
  }

  lemma StateName<V>(flat: map<string, V>, w: World<V>, fqn: string, name: string)
    requires Holds(flat, w) && fqn in w && DotFree(name)
    ensures Get(flat, Under(Under("state", fqn), name)) ==
      if name in w[fqn].state then Lookup(w[fqn].state[name], []) else None
    ensures PrefixFree(flat, Under(Under("state", fqn), name))
  {
    SectionsApart(w, w.Keys);
    SectionNames(w, w.Keys, fqn);
    EntryLeaf(flat, SectionsOf(w, w.Keys), Under("state", fqn), name);
    EntryPrefixFree(flat, SectionsOf(w, w.Keys), Under("state", fqn), name);
  }

  lemma NestedName<V>(flat: map<string, V>, w: World<V>, fqn: string, name: string, r: State<V>)
    requires Holds(flat, w) && fqn in w && DotFree(name)
    requires Rebuilt(flat, flat.Keys, Under(Under("state", fqn), name), r)
    ensures name in w[fqn].state && w[fqn].state[name].Dict? ==> Dict(r) == w[fqn].state[name] && r != map[]
    ensures name !in w[fqn].state ==> r == map[]
  {
    SectionsApart(w, w.Keys);
    SectionNames(w, w.Keys, fqn);
    RebuiltEntry(flat, SectionsOf(w, w.Keys), Under("state", fqn), name, r);
    if name in w[fqn].state && w[fqn].state[name].Dict? {
      assert Tidy(w[fqn].state[name]);
    }
  }

  /** One state name: its tensor, or its nested dict if that is not empty. */
  method LoadName<V>(name: string, fqn: string, flat: map<string, V>, ghost w: World<V>) returns (t: Option<Tree<V>>)
    requires Holds(flat, w) && fqn in w && DotFree(name)
    ensures t == if name in w[fqn].state then Some(w[fqn].state[name]) else None
  {
    var flatKey := Under(Under("state", fqn), name);
    StateName(flat, w, fqn, name);
    if flatKey in flat {
      return Some(Leaf(flat[flatKey]));
    }
    var nested := ReconstructNested(flat, flatKey);
    NestedName(flat, w, fqn, name, nested);
    return if nested != map[] then Some(Dict(nested)) else None;
  }

  lemma RestrictMore<V>(m: State<V>, ks: set<string>, k: string)
    ensures Restrict(m, ks + {k}) == if k in m then Restrict(m, ks)[k := m[k]] else Restrict(m, ks)
  {
  }

  /** One parameter: the saved state under the names the live one has. */
  method LoadParamState<V>(live: State<V>, fqn: string, flat: map<string, V>, ghost w: World<V>) returns (s: State<V>)
    requires Holds(flat, w) && fqn in w && forall k | k in live :: DotFree(k)
    ensures s == Restrict(w[fqn].state, live.Keys)
  {
    s := map[];
    var todo := live.Keys;
    while todo != {}
      invariant todo <= live.Keys && s == Restrict(w[fqn].state, live.Keys - todo)
      decreases |todo|
    {
      var name :| name in todo;
      var t := LoadName(name, fqn, flat, w);
      RestrictMore(w[fqn].state, live.Keys - todo, name);
      if t.Some? {
        s := s[name := t.value];
      }
      assert live.Keys - (todo - {name}) == live.Keys - todo + {name};
      todo := todo - {name};
    }
    assert live.Keys - todo == live.Keys;
  }

  /** What parameter number `id`, named f, gets. */
  function Expected<V>(live: map<nat, State<V>>, w: World<V>, id: nat, f: string): State<V>
    requires f in w
  {
    if id in live then Restrict(w[f].state, live[id].Keys) else map[]
  }

  /** The first n parameters of the group are loaded, and earlier groups are untouched. */
  ghost predicate GroupSoFar<V>(names: seq<string>, first: nat, live: map<nat, State<V>>, w: World<V>,
                                state: map<nat, State<V>>, r: map<nat, State<V>>, n: nat)
    requires n <= |names| && forall j | 0 <= j < |names| :: names[j] in w
  {
    && (forall id | id in r :: id < first + n)
    && (forall id: nat | id < first :: StateAt(r, id) == StateAt(state, id))
    && forall k: nat | k < n :: StateAt(r, first + k) == Expected(live, w, first + k, names[k])
  }

  lemma GroupMore<V>(names: seq<string>, first: nat, live: map<nat, State<V>>, w: World<V>,
                     state: map<nat, State<V>>, r: map<nat, State<V>>, t: map<nat, State<V>>, n: nat)
    requires n < |names|
    requires (forall j | 0 <= j < |names| :: names[j] in w) && GroupSoFar(names, first, live, w, state, r, n)
    requires StateAt(t, first + n) == Expected(live, w, first + n, names[n])
    requires t.Keys <= r.Keys + {first + n} && forall id: nat | id != first + n :: StateAt(t, id) == StateAt(r, id)
    ensures GroupSoFar(names, first, live, w, state, t, n + 1)
  {
  }

  /** The states of one group, numbered from `first` on. */
  method LoadGroupStates<V>(names: seq<string>, first: nat, live: map<nat, State<V>>, flat: map<string, V>,
                            state: map<nat, State<V>>, ghost w: World<V>) returns (r: map<nat, State<V>>)
    requires Holds(flat, w) && (forall j | 0 <= j < |names| :: names[j] in w)
    requires forall id | id in live :: forall k | k in live[id] :: DotFree(k)
    requires forall id | id in state :: id < first
    ensures forall id | id in r :: id < first + |names|
    ensures forall id: nat | id < first :: StateAt(r, id) == StateAt(state, id)
    ensures forall j: nat | j < |names| :: StateAt(r, first + j) == Expected(live, w, first + j, names[j])
  {
    r := state;
    for j := 0 to |names|
      invariant GroupSoFar(names, first, live, w, state, r, j)
    {
      ghost var was := r;
      if first + j in live {
        var s := LoadParamState(live[first + j], names[j], flat, w);
        if s != map[] {
          r := r[first + j := s];
        }
      }
      GroupMore(names, first, live, w, state, was, r, j);
    }
  }

  lemma HyperName<V>(flat: map<string, V>, w: World<V>, fqn: string, key: string)
    requires Holds(flat, w) && fqn in w && DotFree(key)
    ensures Get(flat, Under(Under("param_groups", fqn), key)) ==
      if key in w[fqn].hyper then Some(w[fqn].hyper[key]) else None
  {
    SectionsApart(w, w.Keys);
    SectionNames(w, w.Keys, fqn);
    EntryLeaf(flat, SectionsOf(w, w.Keys), Under("param_groups", fqn), key);
  }

  function Only<V>(m: map<string, V>, ks: set<string>): map<string, V> {
    map k | k in m && k in ks :: m[k]
  }

  lemma OnlyMore<V>(m: map<string, V>, ks: set<string>, k: string)
    requires k in m
    ensures Only(m, ks + {k}) == Only(m, ks)[k := m[k]]
  {
  }

  lemma KeysMore<V>(m: map<string, V>, ks: set<string>, todo: set<string>, k: string)
    requires k in todo && todo <= ks && k in m && ks - todo <= m.Keys
    ensures Only(m, ks - (todo - {k})) == Only(m, ks - todo)[k := m[k]] && ks - (todo - {k}) <= m.Keys
  {
    OnlyMore(m, ks - todo, k);
    assert ks - (todo - {k}) == ks - todo + {k};
  }

  method LoadKey<V>(key: string, first: string, flat: map<string, V>, ghost w: World<V>) returns (r: Option<V>)
    requires Holds(flat, w) && first in w && DotFree(key)
    ensures r == if key in w[first].hyper then Some(w[first].hyper[key]) else None
  {
    HyperName(flat, w, first, key);
    var flatKey := Under(Under("param_groups", first), key);
    return if flatKey in flat then Some(flat[flatKey]) else None;
  }

  /** A group's keys, looked up through its first parameter. */
  method LoadGroupKeys<V>(hyper: map<string, V>, first: string, flat: map<string, V>, ghost w: World<V>)
    returns (r: Result<map<string, V>, Error>)
    requires Holds(flat, w) && first in w && forall k | k in hyper :: DotFree(k)
    ensures r.Ok? <==> hyper.Keys <= w[first].hyper.Keys
    ensures r.Ok? ==> r.value == Only(w[first].hyper, hyper.Keys)
    ensures r.Err? ==> exists k :: k in hyper && k !in w[first].hyper && r.error == MissingGroupKey(k, first)
  {
    var group: map<string, V> := map[];
    var todo := hyper.Keys;
    while todo != {}
      invariant todo <= hyper.Keys && hyper.Keys - todo <= w[first].hyper.Keys
      invariant group == Only(w[first].hyper, hyper.Keys - todo)
      decreases |todo|
    {
      var key :| key in todo;
      var v := LoadKey(key, first, flat, w);
      if v.None? {
        return Err(MissingGroupKey(key, first));
      }
      KeysMore(w[first].hyper, hyper.Keys, todo, key);
      group := group[key := v.value];
      todo := todo - {key};
    }
    assert hyper.Keys - todo == hyper.Keys;
    return Ok(group);
  }

  /** A loaded group: same parameters, the saved values of the first one for its own keys. */
  ghost predicate GroupLoaded<V>(w: World<V>, live: Group<V>, loaded: Group<V>) {
    && live.names.Some? && loaded.names == live.names && loaded.params == live.params
    && (live.names.value == [] ==> loaded.hyper == map[])
    && (live.names.value != [] ==> KeysLoaded(w, live.names.value[0], live.hyper, loaded.hyper))
  }

  ghost predicate KeysLoaded<V>(w: World<V>, first: string, live: map<string, V>, loaded: map<string, V>) {
    first in w && live.Keys <= w[first].hyper.Keys && loaded == Only(w[first].hyper, live.Keys)
  }

  ghost predicate Loaded<V>(w: World<V>, live: Optim<V>, loaded: Optim<V>) {
    && |loaded.groups| == |live.groups|
    && (forall g | 0 <= g < |live.groups| :: GroupLoaded(w, live.groups[g], loaded.groups[g]))
    && StatesLoaded(w, Roster(live.groups), live.state, loaded.state)
  }

  ghost predicate StatesLoaded<V>(w: World<V>, roster: seq<Entry<V>>, live: map<nat, State<V>>, loaded: map<nat,
                                  State<V>>) {
    forall id: nat | id < |roster| :: StateLoaded(w, roster[id].name, id, live, loaded)
  }

  ghost predicate StateLoaded<V>(w: World<V>, f: string, id: nat, live: map<nat, State<V>>, loaded: map<nat,
                                 State<V>>) {
    f in w && StateAt(loaded, id) == Expected(live, w, id, f)
  }

  ghost predicate Fits<V>(w: World<V>, optim: Optim<V>) {
    && Named(optim.groups) && PlainKeys(optim)
    && forall g | 0 <= g < |optim.groups| :: forall f | f in optim.groups[g].names.value :: f in w
  }

  lemma RosterSnoc<V>(groups: seq<Group<V>>, g: nat)
    requires g < |groups|
    ensures Roster(groups[..g + 1]) == Roster(groups[..g]) + GroupRoster(groups[g])
  {
    assert groups[..g + 1][..g] == groups[..g];
  }

  lemma GroupStates<V>(w: World<V>, groups: seq<Group<V>>, g: nat, live: map<nat, State<V>>,
                       was: map<nat, State<V>>, now: map<nat, State<V>>)
    requires g < |groups| && groups[g].names.Some? && StatesLoaded(w, Roster(groups[..g]), live, was)
    requires forall f | f in groups[g].names.value :: f in w
    requires forall id: nat | id < |Roster(groups[..g])| :: StateAt(now, id) == StateAt(was, id)
    requires var names, first := groups[g].names.value, |Roster(groups[..g])|;
      forall j: nat | j < |names| :: StateAt(now, first + j) == Expected(live, w, first + j, names[j])
    ensures StatesLoaded(w, Roster(groups[..g + 1]), live, now)
  {
    RosterSnoc(groups, g);
    var names, first := groups[g].names.value, |Roster(groups[..g])|;
    var roster := Roster(groups[..g + 1]);
    forall id: nat | id < |roster|
      ensures StateLoaded(w, roster[id].name, id, live, now)
    {
      if id < first {
        assert StateLoaded(w, Roster(groups[..g])[id].name, id, live, was);
      } else {
        var j: nat := id - first;
        assert StateAt(now, first + j) == Expected(live, w, first + j, names[j]);
      }
    }
  }

  /** One group of the result; an empty one keeps no keys. */
  method LoadGroup<V>(live: Group<V>, flat: map<string, V>, ghost w: World<V>) returns (r: Result<Group<V>, Error>)
    requires Holds(flat, w) && live.names.Some? && |live.names.value| == live.params
    requires (forall k | k in live.hyper :: DotFree(k)) && forall f | f in live.names.value :: f in w
    ensures r.Ok? ==> GroupLoaded(w, live, r.value)
    ensures r.Err? <==> KeyMissing(w, live)
  {
    var fqns := live.names.value;
    if fqns == [] {
      return Ok(Group(0, live.names, map[]));
    }
    var keys := LoadGroupKeys(live.hyper, fqns[0], flat, w);
    if keys.Err? {
      return Err(keys.error);
    }
    return Ok(Group(|fqns|, live.names, keys.value));
  }

  /** The states of all groups, with a running parameter number. */
  method LoadStates<V>(live: Optim<V>, flat: map<string, V>, ghost w: World<V>) returns (state: map<nat, State<V>>)
    requires Holds(flat, w) && Fits(w, live)
    ensures StatesLoaded(w, Roster(live.groups), live.state, state)
  {
    state := map[];
    var paramId := 0;
    for g := 0 to |live.groups|
      invariant paramId == |Roster(live.groups[..g])|
      invariant forall id | id in state :: id < paramId
      invariant StatesLoaded(w, Roster(live.groups[..g]), live.state, state)
    {
      ghost var was := state;
      state := LoadGroupStates(live.groups[g].names.value, paramId, live.state, flat, state, w);
      GroupStates(w, live.groups, g, live.state, was, state);
      RosterSnoc(live.groups, g);
      paramId := paramId + |live.groups[g].names.value|;
    }
    assert live.groups[..|live.groups|] == live.groups;
  }

  /** `_unflatten_optim_state_dict`: fails exactly when some non-empty group has a key that
      was not saved. */
  method LoadFlat<V>(live: Optim<V>, flat: map<string, V>, ghost w: World<V>) returns (r: Result<Optim<V>, Error>)
    requires Holds(flat, w) && Fits(w, live)
    ensures r.Ok? ==> Loaded(w, live, r.value)
    ensures r.Err? <==> exists g :: 0 <= g < |live.groups| && KeyMissing(w, live.groups[g])
  {
    var state := LoadStates(live, flat, w);
    var groups: seq<Group<V>> := [];
    for g := 0 to |live.groups|
      invariant |groups| == g
      invariant forall k | 0 <= k < g :: GroupLoaded(w, live.groups[k], groups[k]) && !KeyMissing(w, live.groups[k])
    {
      var group := LoadGroup(live.groups[g], flat, w);
      if group.Err? {
        return Err(group.error);
      }
      groups := groups + [group.value];
    }
    return Ok(Optim(state, groups));
  }

  ghost predicate KeyMissing<V>(w: World<V>, g: Group<V>) {
    g.names.Some? && g.names.value != [] && g.names.value[0] in w && !(g.hyper.Keys <= w[g.names.value[0]].hyper.Keys)
  }

  // ----- what comes back -----

  /** The live optimizer expects what was saved: the same state names and group keys, and the
      members of a group agree on them. */
  ghost predicate Matches<V>(w: World<V>, live: Optim<V>) {
    && (forall id: nat | id < |Roster(live.groups)| ::
          StateMatches(w, Roster(live.groups)[id].name, StateAt(live.state, id)))
    && forall g | 0 <= g < |live.groups| :: GroupMatches(w, live.groups[g])
  }

  ghost predicate StateMatches<V>(w: World<V>, f: string, s: State<V>) {
    f in w && s.Keys == w[f].state.Keys
  }

  ghost predicate GroupMatches<V>(w: World<V>, g: Group<V>) {
    && g.names.Some?
    && (forall f | f in g.names.value :: f in w && w[f].hyper.Keys == g.hyper.Keys)
    && forall f, h | f in g.names.value && h in g.names.value :: w[f].hyper == w[h].hyper
  }

  lemma LoadedState<V>(w: World<V>, live: Optim<V>, loaded: Optim<V>, id: nat)
    requires Loaded(w, live, loaded) && Matches(w, live) && id < |Roster(live.groups)|
    ensures Roster(live.groups)[id].name in w && StateAt(loaded.state, id) == w[Roster(live.groups)[id].name].state
  {
    var f := Roster(live.groups)[id].name;
    assert StateMatches(w, f, StateAt(live.state, id));
    assert StateLoaded(w, f, id, live.state, loaded.state);
  }

  lemma {:induction false} LoadedRoster<V>(w: World<V>, live: seq<Group<V>>, loaded: seq<Group<V>>)
    requires |live| == |loaded|
    requires forall g | 0 <= g < |live| :: GroupLoaded(w, live[g], loaded[g]) && GroupMatches(w, live[g])
    ensures |Roster(loaded)| == |Roster(live)|
    ensures forall i | 0 <= i < |Roster(live)| ::
      Roster(live)[i].name in w && Roster(loaded)[i] == Entry(Roster(live)[i].name, w[Roster(live)[i].name].hyper)
  {
    if live != [] {
      var n := |live| - 1;
      LoadedRoster(w, live[..n], loaded[..n]);
      LoadedGroup(w, live[n], loaded[n]);
    }
  }

  lemma LoadedGroup<V>(w: World<V>, live: Group<V>, loaded: Group<V>)
    requires GroupLoaded(w, live, loaded) && GroupMatches(w, live)
    ensures |GroupRoster(loaded)| == |GroupRoster(live)|
    ensures forall i | 0 <= i < |GroupRoster(live)| ::
      GroupRoster(live)[i].name in w &&
      GroupRoster(loaded)[i] == Entry(GroupRoster(live)[i].name, w[GroupRoster(live)[i].name].hyper)
  {
    if live.names.value != [] {
      assert live.names.value[0] in live.names.value;
      assert Only(w[live.names.value[0]].hyper, live.hyper.Keys) == w[live.names.value[0]].hyper;
    }
  }

  function Part<V>(w: World<V>, names: set<string>): World<V> {
    map f | f in w && f in names :: w[f]
  }

  /** Loading into any regrouping restores, for every parameter of the live optimizer, its
      own saved state, nested state included, and its own hyperparameters. */
  lemma RoundTrip<V>(w: World<V>, live: Optim<V>, loaded: Optim<V>)
    requires Loaded(w, live, loaded) && Matches(w, live)
    ensures IsWorld(Part(w, Names(Roster(live.groups))), Roster(loaded.groups), loaded.state)
    ensures |Roster(loaded.groups)| == |Roster(live.groups)|
    ensures forall i | 0 <= i < |Roster(live.groups)| :: Roster(loaded.groups)[i].name == Roster(live.groups)[i].name
  {
    LoadedRoster(w, live.groups, loaded.groups);
    var p := Part(w, Names(Roster(live.groups)));
    forall i: nat | i < |Roster(loaded.groups)|
      ensures HasParam(p, Roster(loaded.groups)[i], StateAt(loaded.state, i))
    {
      LoadedState(w, live, loaded, i);
      assert Roster(live.groups)[i].name in Names(Roster(live.groups));
    }
    forall f | f in p
      ensures exists i :: 0 <= i < |Roster(loaded.groups)| && Roster(loaded.groups)[i].name == f
    {
      var i :| 0 <= i < |Roster(live.groups)| && Roster(live.groups)[i].name == f;
      assert Roster(loaded.groups)[i].name == f;
    }
  }
}
