/** `get_flat_optim_state_dict` and `load_flat_optim_state_dict`: whatever the grouping on
    either side, every parameter gets its own state and hyperparameters back. */
module FlatOptimizerDicts {
  import opened DottedNames
  import opened FlatOptimizers
  import opened FlatSections
  import opened StateTrees
  import opened Wrappers

  // ----- the world of a state dict -----

  function Names<V>(roster: seq<Entry<V>>): (r: set<string>)
    ensures forall f :: f in r <==> exists i :: 0 <= i < |roster| && roster[i].name == f
  {
    set i | 0 <= i < |roster| :: roster[i].name
  }

  ghost function IndexOf<V>(roster: seq<Entry<V>>, f: string): (i: nat)
    requires f in Names(roster)
    ensures i < |roster| && roster[i].name == f
  {
    var i: nat :| i < |roster| && roster[i].name == f;
    i
  }

  ghost function WorldOf<V>(roster: seq<Entry<V>>, state: map<nat, State<V>>): World<V> {
    map f | f in Names(roster) :: Param(StateAt(state, IndexOf(roster, f)), roster[IndexOf(roster, f)].hyper)
  }

  lemma WorldOfIs<V>(roster: seq<Entry<V>>, state: map<nat, State<V>>)
    requires Distinct(roster)
    ensures IsWorld(WorldOf(roster, state), roster, state)
  {
    forall i: nat | i < |roster|
      ensures HasParam(WorldOf(roster, state), roster[i], StateAt(state, i))
    {
      assert IndexOf(roster, roster[i].name) == i;
    }
  }

  // ----- saving -----

  lemma GrowState<V>(w: World<V>, done: set<string>, f: string)
    requires done <= w.Keys && f in w && f !in done
    ensures Under("state", f) !in StateSections(w, done)
    ensures StateSections(w, done + {f}) == StateSections(w, done)[Under("state", f) := w[f].state]
  {
    UnderRest("state", f);
    forall g | g in done
      ensures Under("state", g) != Under("state", f)
    {
      UnderRest("state", g);
    }
    assert Prefixes("state", done + {f}) == Prefixes("state", done) + {Under("state", f)};
  }

  lemma AddState<V>(w: World<V>, done: set<string>, f: string, was: map<string, V>, out: map<string, V>)
    requires done <= w.Keys && f in w && f !in done
    requires Fills(was, StateSections(w, done)) && Written(w[f].state, Under("state", f), was, out)
    ensures Fills(out, StateSections(w, done + {f}))
  {
    GrowState(w, done, f);
    AddSection(was, StateSections(w, done), Under("state", f), w[f].state, out);
  }

  lemma GrowHyperPart<V>(w: World<V>, done: set<string>, f: string)
    requires done <= w.Keys && f in w
    ensures HyperSections(w, done + {f}) == HyperSections(w, done)[Under("param_groups", f) := Leaves(w[f].hyper)]
  {
    UnderRest("param_groups", f);
    assert Prefixes("param_groups", done + {f}) == Prefixes("param_groups", done) + {Under("param_groups", f)};
  }

  lemma UnionUpdate<V>(a: Sections<V>, b: Sections<V>, p: string, m: State<V>)
    ensures a + b[p := m] == (a + b)[p := m]
  {
  }

  lemma GrowHyper<V>(w: World<V>, done: set<string>, f: string)
    requires done <= w.Keys && f in w && f !in done
    ensures Under("param_groups", f) !in SectionsOf(w, done)
    ensures SectionsOf(w, done + {f}) == SectionsOf(w, done)[Under("param_groups", f) := Leaves(w[f].hyper)]
  {
    SectionNames(w, done, f);
    GrowHyperPart(w, done, f);
    UnionUpdate(StateSections(w, w.Keys), HyperSections(w, done), Under("param_groups", f), Leaves(w[f].hyper));
  }

  lemma AddHyper<V>(w: World<V>, done: set<string>, f: string, was: map<string, V>, out: map<string, V>)
    requires done <= w.Keys && f in w && f !in done
    requires Fills(was, SectionsOf(w, done)) && Written(Leaves(w[f].hyper), Under("param_groups", f), was, out)
    ensures Fills(out, SectionsOf(w, done + {f}))
  {
    GrowHyper(w, done, f);
    AddSection(was, SectionsOf(w, done), Under("param_groups", f), Leaves(w[f].hyper), out);
  }

  lemma NothingYet<V>(w: World<V>, done: set<string>)
    requires done <= w.Keys && forall f | f in done :: w[f].state == map[]
    ensures Fills(map[], StateSections(w, done))
  {
    forall p, key
      ensures !In(StateSections(w, done), p, key)
    {
      if p in StateSections(w, done) {
        var f :| f in done && Under("state", f) == p;
        UnderRest("state", f);
      }
    }
  }

  /** The first loop of `_optim_state_dict_to_fqn_keys`: the names by parameter number. */
  method CollectNames<V>(groups: seq<Group<V>>) returns (r: Result<seq<Entry<V>>, Error>)
    ensures r == Err(NoParamNames) <==> exists g :: 0 <= g < |groups| && groups[g].names.None?
    ensures r.Err? ==> r.error == NoParamNames
    ensures r.Ok? ==> r.value == Roster(groups)
  {
    var roster: seq<Entry<V>> := [];
    for g := 0 to |groups|
      invariant roster == Roster(groups[..g])
      invariant forall k | 0 <= k < g :: groups[k].names.Some?
    {
      if groups[g].names.None? {
        return Err(NoParamNames);
      }
      assert groups[..g + 1][..g] == groups[..g];
      roster := roster + GroupRoster(groups[g]);
    }
    assert groups[..|groups|] == groups;
    return Ok(roster);
  }

  function Without<V>(state: map<nat, State<V>>, todo: set<nat>): map<nat, State<V>> {
    map id | id in state && id !in todo :: state[id]
  }

  lemma RekeyOne<V>(roster: seq<Entry<V>>, native: map<nat, State<V>>, todo: set<nat>, id: nat, was: map<string,
                    State<V>>)
    requires Distinct(roster) && id in todo && id in native && id < |roster|
    requires forall i: nat | i < |roster| :: Rekeyed(Without(native, todo), was, i, roster[i].name)
    ensures forall i: nat | i < |roster| ::
      Rekeyed(Without(native, todo - {id}), was[roster[id].name := native[id]], i, roster[i].name)
  {
  }

  /** The second loop: states under names. */
  method RekeyState<V>(native: map<nat, State<V>>, roster: seq<Entry<V>>)
    returns (r: Result<map<string, State<V>>, Error>)
    ensures r.Ok? <==> forall id | id in native :: id < |roster|
    ensures r.Err? ==> exists id :: id in native && id >= |roster| && r.error == UnknownParamId(id)
    ensures r.Ok? ==> r.value.Keys <= Names(roster)
    ensures r.Ok? && Distinct(roster) ==> forall i: nat | i < |roster| :: Rekeyed(native, r.value, i, roster[i].name)
  {
    var state: map<string, State<V>> := map[];
    var todo := native.Keys;
    while todo != {}
      invariant todo <= native.Keys && state.Keys <= Names(roster)
      invariant forall id | id in native && id !in todo :: id < |roster|
      invariant Distinct(roster) ==> forall i: nat | i < |roster| ::
        Rekeyed(Without(native, todo), state, i, roster[i].name)
      decreases |todo|
    {
      var id :| id in todo;
      if id >= |roster| {
        return Err(UnknownParamId(id));
      }
      if Distinct(roster) {
        RekeyOne(roster, native, todo, id, state);
      }
      state := state[roster[id].name := native[id]];
      todo := todo - {id};
    }
    assert Without(native, todo) == native;
    return Ok(state);
  }

  ghost predicate Rekeyed<V>(from: map<nat, State<V>>, to: map<string, State<V>>, i: nat, name: string) {
    if i in from then name in to && to[name] == from[i] else name !in to
  }

  /** The inner loop over one parameter's group keys. */
  method WriteHyper<V>(hyper: map<string, V>, prefix: string, out: map<string, V>) returns (flat: map<string, V>)
    requires forall k | k in hyper :: DotFree(k)
    ensures Written(Leaves(hyper), prefix, out, flat)
  {
    flat := out;
    var todo: set<string> := hyper.Keys;
    while todo != {}
      invariant todo <= hyper.Keys
      invariant WrittenPart(Leaves(hyper), hyper.Keys - todo, prefix, out, flat)
      decreases |todo|
    {
      var key :| key in todo;
      ghost var done, mid := hyper.Keys - todo, flat;
      flat := flat[Under(prefix, key) := hyper[key]];
      WriteEntry(Leaves(hyper), done, key, prefix, out, mid, flat);
      assert hyper.Keys - (todo - {key}) == done + {key};
      todo := todo - {key};
    }
    assert Restrict(Leaves(hyper), hyper.Keys - todo) == Leaves(hyper);
  }

  /** All parameters' names are there, and no state belongs to an unknown number. */
  ghost predicate Convertible<V>(optim: Optim<V>) {
    && (forall g | 0 <= g < |optim.groups| :: optim.groups[g].names.Some?)
    && forall id | id in optim.state :: id < |Roster(optim.groups)|
  }

  /** What two loops write for named parameters with known states. */
  method WriteFlat<V>(state: map<string, State<V>>, roster: seq<Entry<V>>, ghost native: map<nat, State<V>>)
    returns (flat: map<string, V>)
    requires Distinct(roster) && Plain(WorldOf(roster, native)) && state.Keys <= Names(roster)
    requires forall i: nat | i < |roster| :: Rekeyed(native, state, i, roster[i].name)
    ensures var w := WorldOf(roster, native); Fills(flat, SectionsOf(w, w.Keys))
  {
    flat := WriteStates(state, roster, native);
    forall i: nat | i < |roster|
      ensures roster[i].name in WorldOf(roster, native)
      ensures WorldOf(roster, native)[roster[i].name].hyper == roster[i].hyper
    {
      WorldHyper(roster, native, i);
    }
    flat := WriteHypers(roster, WorldOf(roster, native), flat);
  }

  /** `get_flat_optim_state_dict`: the flat dict holds exactly the sections of all parameters
      whenever a dict can, that is, when no two of them store different values at one key. */
  method GetFlat<V>(optim: Optim<V>) returns (r: Result<map<string, V>, Error>)
    requires Distinct(Roster(optim.groups)) && Plain(WorldOf(Roster(optim.groups), optim.state))
    ensures r.Ok? <==> Convertible(optim)
    ensures r.Ok? ==> FilledWith(r.value, WorldOf(Roster(optim.groups), optim.state))
  {
    var names := CollectNames(optim.groups);
    if names.Err? {
      return Err(names.error);
    }
    var keyed := RekeyState(optim.state, names.value);
    if keyed.Err? {
      return Err(keyed.error);
    }
    var flat := WriteFlat(keyed.value, names.value, optim.state);
    FilledWorld(flat, WorldOf(names.value, optim.state));
    return Ok(flat);
  }

  /** The flat dict is the world's if any dict is: exactly when its sections agree. */
  ghost predicate FilledWith<V>(flat: map<string, V>, w: World<V>) {
    && Fills(flat, SectionsOf(w, w.Keys))
    && (IsFlat(flat, SectionsOf(w, w.Keys)) <==> Agree(SectionsOf(w, w.Keys)))
  }

  lemma FilledWorld<V>(flat: map<string, V>, w: World<V>)
    requires Fills(flat, SectionsOf(w, w.Keys))
    ensures FilledWith(flat, w)
  {
    FilledIff(flat, SectionsOf(w, w.Keys));
  }

  lemma KeyedStates<V>(state: map<string, State<V>>, roster: seq<Entry<V>>, native: map<nat, State<V>>)
    requires Distinct(roster) && state.Keys <= Names(roster)
    requires forall i: nat | i < |roster| :: Rekeyed(native, state, i, roster[i].name)
    ensures state.Keys <= WorldOf(roster, native).Keys
    ensures var w := WorldOf(roster, native); forall f | f in w :: w[f].state == if f in state then state[f] else map[]
  {
    var w := WorldOf(roster, native);
    forall f | f in w
      ensures w[f].state == if f in state then state[f] else map[]
    {
      assert Rekeyed(native, state, IndexOf(roster, f), roster[IndexOf(roster, f)].name);
    }
  }

  /** The states of the names in `done` are written. */
  ghost predicate StatesDone<V>(w: World<V>, done: set<string>, flat: map<string, V>) {
    done <= w.Keys && Fills(flat, StateSections(w, done))
  }

  method WriteState<V>(state: State<V>, fqn: string, out: map<string, V>, ghost w: World<V>, ghost done: set<string>)
    returns (flat: map<string, V>)
    requires TidyEntries(state) && fqn in w && w[fqn].state == state && fqn !in done && StatesDone(w, done, out)
    ensures StatesDone(w, done + {fqn}, flat)
  {
    flat := FlattenStateNested(state, Under("state", fqn), out);
    AddState(w, done, fqn, out, flat);
  }

  lemma OneDone(all: set<string>, todo: set<string>, f: string)
    requires f in todo && todo <= all
    ensures all - (todo - {f}) == all - todo + {f}
  {
  }

  method WriteStates<V>(state: map<string, State<V>>, roster: seq<Entry<V>>, ghost native: map<nat, State<V>>)
    returns (flat: map<string, V>)
    requires Distinct(roster) && Plain(WorldOf(roster, native)) && state.Keys <= Names(roster)
    requires forall i: nat | i < |roster| :: Rekeyed(native, state, i, roster[i].name)
    ensures StatesDone(WorldOf(roster, native), WorldOf(roster, native).Keys, flat)
  {
    ghost var w := WorldOf(roster, native);
    KeyedStates(state, roster, native);
    flat := map[];
    var todo := state.Keys;
    NothingYet(w, w.Keys - todo);
    while todo != {}
      invariant todo <= state.Keys && StatesDone(w, w.Keys - todo, flat)
      decreases |todo|
    {
      var fqn :| fqn in todo;
      flat := WriteState(state[fqn], fqn, flat, w, w.Keys - todo);
      OneDone(w.Keys, todo, fqn);
      todo := todo - {fqn};
    }
    assert w.Keys - todo == w.Keys;
  }

  lemma NamesSnoc<V>(roster: seq<Entry<V>>, i: nat)
    requires Distinct(roster) && i < |roster|
    ensures Names(roster[..i + 1]) == Names(roster[..i]) + {roster[i].name} && roster[i].name !in Names(roster[..i])
    ensures Names(roster[..i]) <= Names(roster)
  {
    assert roster[..i + 1] == roster[..i] + [roster[i]];
  }

  /** All state sections and the group sections of the first i parameters. */
  ghost predicate HypersDone<V>(w: World<V>, roster: seq<Entry<V>>, i: nat, flat: map<string, V>)
    requires i <= |roster|
  {
    Names(roster[..i]) <= w.Keys && Fills(flat, SectionsOf(w, Names(roster[..i])))
  }

  lemma HyperStep<V>(w: World<V>, roster: seq<Entry<V>>, i: nat, was: map<string, V>, out: map<string, V>)
    requires Distinct(roster) && i < |roster| && Names(roster) <= w.Keys && w[roster[i].name].hyper == roster[i].hyper
    requires HypersDone(w, roster, i, was)
    requires Written(Leaves(roster[i].hyper), Under("param_groups", roster[i].name), was, out)
    ensures HypersDone(w, roster, i + 1, out)
  {
    NamesSnoc(roster, i);
    AddHyper(w, Names(roster[..i]), roster[i].name, was, out);
  }

  lemma WorldHyper<V>(roster: seq<Entry<V>>, native: map<nat, State<V>>, i: nat)
    requires Distinct(roster) && i < |roster|
    ensures roster[i].name in WorldOf(roster, native)
    ensures WorldOf(roster, native)[roster[i].name].hyper == roster[i].hyper
  {
    assert IndexOf(roster, roster[i].name) == i;
  }

  lemma HypersStart<V>(w: World<V>, roster: seq<Entry<V>>, flat: map<string, V>)
    requires StatesDone(w, w.Keys, flat)
    ensures HypersDone(w, roster, 0, flat)
  {
    assert SectionsOf(w, {}) == StateSections(w, w.Keys);
  }

  lemma HypersEnd<V>(w: World<V>, roster: seq<Entry<V>>, flat: map<string, V>)
    requires HypersDone(w, roster, |roster|, flat) && Names(roster) == w.Keys
    ensures Fills(flat, SectionsOf(w, w.Keys))
  {
    assert roster[..|roster|] == roster;
  }

  method WriteHypers<V>(roster: seq<Entry<V>>, ghost w: World<V>, out: map<string, V>) returns (flat: map<string, V>)
    requires Distinct(roster) && Plain(w) && Names(roster) == w.Keys
    requires forall i | 0 <= i < |roster| :: w[roster[i].name].hyper == roster[i].hyper
    requires StatesDone(w, w.Keys, out)
    ensures Fills(flat, SectionsOf(w, w.Keys))
  {
    flat := out;
    HypersStart(w, roster, flat);
    for i := 0 to |roster|
      invariant HypersDone(w, roster, i, flat)
    {
      ghost var was := flat;
      assert roster[i].name in w;
      flat := WriteHyper(roster[i].hyper, Under("param_groups", roster[i].name), flat);
      HyperStep(w, roster, i, was, flat);
    }
    HypersEnd(w, roster, flat);
  }
}
