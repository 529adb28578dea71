/** `OptimizersContainer.__init__`: which optimizer and group each parameter goes to. */
module ParamGroups {
  import opened DottedNames
  import opened Wrappers

  /** A named parameter of a model part; `id` is the tensor's identity. */
  datatype Param = Param(name: string, id: nat, trainable: bool)

  datatype GroupConfig = GroupConfig(matches: string -> bool, optimizer: string)

  /** `params` and, aligned with it, `param_names`. */
  datatype Group = Group(params: seq<Param>, names: seq<string>)

  /** The dict from optimizer names to their groups, in insertion order. */
  datatype Slot = Slot(optimizer: string, groups: seq<Group>)
  type Table = seq<Slot>

  datatype Error = MatchedNothing(k: nat) | ParameterMismatch

  // ----- which group a parameter belongs to -----

  /** The first pattern that matches the name, or the number of patterns. */
  function First(configs: seq<GroupConfig>, name: string): nat {
    if configs == [] || configs[0].matches(name) then 0 else 1 + First(configs[1..], name)
  }

  lemma {:induction false} FirstMatches(configs: seq<GroupConfig>, name: string)
    ensures var k := First(configs, name);
      && k <= |configs| && (k < |configs| ==> configs[k].matches(name))
      && forall j | 0 <= j < k :: !configs[j].matches(name)
  {
    if configs != [] && !configs[0].matches(name) {
      FirstMatches(configs[1..], name);
      var k := First(configs, name);
      assert k < |configs| ==> configs[1..][k - 1] == configs[k];
      forall j | 0 <= j < k
        ensures !configs[j].matches(name)
      {
        assert j > 0 ==> configs[1..][j - 1] == configs[j];
      }
    }
  }

  predicate GoesTo(p: Param, configs: seq<GroupConfig>, k: nat) {
    p.trainable && First(configs, p.name) == k
  }

  predicate GoesBefore(p: Param, configs: seq<GroupConfig>, k: nat) {
    p.trainable && First(configs, p.name) < k
  }

  /** The trainable parameters whose first match is k, in model order. */
  function Members(model: seq<Param>, configs: seq<GroupConfig>, k: nat): seq<Param> {
    if model == [] then []
    else (if GoesTo(model[0], configs, k) then [model[0]] else []) + Members(model[1..], configs, k)
  }

  /** Those whose first match is before k. */
  function MembersBefore(model: seq<Param>, configs: seq<GroupConfig>, k: nat): seq<Param> {
    if model == [] then []
    else (if GoesBefore(model[0], configs, k) then [model[0]] else []) + MembersBefore(model[1..], configs, k)
  }

  lemma {:induction false} OneMoreGroup(model: seq<Param>, configs: seq<GroupConfig>, k: nat)
    ensures multiset(MembersBefore(model, configs, k + 1)) ==
      multiset(MembersBefore(model, configs, k)) + multiset(Members(model, configs, k))
  {
    if model != [] {
      OneMoreGroup(model[1..], configs, k);
    }
  }

  ghost predicate DistinctNames(model: seq<Param>) {
    forall i, j | 0 <= i < j < |model| :: model[i].name != model[j].name
  }

  function Names(params: seq<Param>, drop: set<string>): (r: seq<string>)
    ensures |r| == |params| && forall i | 0 <= i < |params| :: r[i] == CanonicalFqn(params[i].name, drop)
  {
    seq(|params|, i requires 0 <= i < |params| => CanonicalFqn(params[i].name, drop))
  }

  // ----- the dict of groups -----

  function AddTo(t: Table, optimizer: string, g: Group): Table {
    if t == [] then [Slot(optimizer, [g])]
    else if t[0].optimizer == optimizer then [Slot(optimizer, t[0].groups + [g])] + t[1..]
    else [t[0]] + AddTo(t[1..], optimizer, g)
  }

  function GroupParams(gs: seq<Group>): seq<Param> {
    if gs == [] then [] else gs[0].params + GroupParams(gs[1..])
  }

  function TableParams(t: Table): seq<Param> {
    if t == [] then [] else GroupParams(t[0].groups) + TableParams(t[1..])
  }

  lemma {:induction false} GroupParamsSnoc(gs: seq<Group>, g: Group)
    ensures GroupParams(gs + [g]) == GroupParams(gs) + g.params
  {
    if gs == [] {
      assert gs + [g] == [g];
    } else {
      GroupParamsSnoc(gs[1..], g);
      assert (gs + [g])[1..] == gs[1..] + [g];
    }
  }

  lemma {:induction false} AddedParams(t: Table, optimizer: string, g: Group)
    ensures multiset(TableParams(AddTo(t, optimizer, g))) == multiset(TableParams(t)) + multiset(g.params)
  {
    if t == [] {
      assert GroupParams([g]) == g.params by { GroupParamsSnoc([], g); }
    } else if t[0].optimizer == optimizer {
      GroupParamsSnoc(t[0].groups, g);
    } else {
      AddedParams(t[1..], optimizer, g);
    }
  }

  /** The groups of the first k patterns. */
  function TableOf(model: seq<Param>, configs: seq<GroupConfig>, drop: set<string>, k: nat): Table
    requires k <= |configs|
  {
    if k == 0 then []
    else
      var params := Members(model, configs, k - 1);
      AddTo(TableOf(model, configs, drop, k - 1), configs[k - 1].optimizer, Group(params, Names(params, drop)))
  }

  /** What an optimizer of this name is built with. */
  function GroupsUnder(t: Table, optimizer: string): seq<Group> {
    if t == [] then []
    else (if t[0].optimizer == optimizer then t[0].groups else []) + GroupsUnder(t[1..], optimizer)
  }

  ghost predicate OneSlotEach(t: Table) {
    forall i, j | 0 <= i < j < |t| :: t[i].optimizer != t[j].optimizer
  }

  lemma {:induction false} AddedUnder(t: Table, optimizer: string, g: Group, o: string)
    requires OneSlotEach(t)
    ensures GroupsUnder(AddTo(t, optimizer, g), o) == GroupsUnder(t, o) + if o == optimizer then [g] else []
    ensures OneSlotEach(AddTo(t, optimizer, g))
    ensures forall s | s in AddTo(t, optimizer, g) ::
      s.optimizer == optimizer || exists u | u in t :: u.optimizer == s.optimizer
  {
    if t == [] {
      assert [Slot(optimizer, [g])][1..] == [];
    } else if t[0].optimizer == optimizer {
      NoneUnder(t[1..], optimizer);
      assert AddTo(t, optimizer, g)[1..] == t[1..];
    } else {
      var rest := AddTo(t[1..], optimizer, g);
      AddedUnder(t[1..], optimizer, g, o);
      assert AddTo(t, optimizer, g)[1..] == rest;
      forall j | 0 <= j < |rest|
        ensures rest[j].optimizer != t[0].optimizer
      {
        assert rest[j] in rest;
      }
    }
  }

  lemma {:induction false} NoneUnder(t: Table, optimizer: string)
    requires forall i | 0 <= i < |t| :: t[i].optimizer != optimizer
    ensures GroupsUnder(t, optimizer) == []
  {
    if t != [] {
      NoneUnder(t[1..], optimizer);
    }
  }

  /** Each optimizer gets the groups of just the patterns that name it, in their order, every
      group with its parameters and their canonical names side by side. */
  lemma {:induction false} GroupsGoHome(model: seq<Param>, configs: seq<GroupConfig>, drop: set<string>, k: nat,
                                        o: string)
    requires k < |configs|
    ensures OneSlotEach(TableOf(model, configs, drop, k + 1)) && TableOf(model, configs, drop, 0) == []
    ensures var params := Members(model, configs, k);
      GroupsUnder(TableOf(model, configs, drop, k + 1), o) == GroupsUnder(TableOf(model, configs, drop, k), o) +
        if configs[k].optimizer == o then [Group(params, Names(params, drop))] else []
    decreases k
  {
    if k > 0 {
      GroupsGoHome(model, configs, drop, k - 1, o);
    }
    var params := Members(model, configs, k);
    AddedUnder(TableOf(model, configs, drop, k), configs[k].optimizer, Group(params, Names(params, drop)), o);
  }

  ghost predicate Partitions(t: Table, ps: seq<Param>) {
    multiset(TableParams(t)) == multiset(ps)
  }

  lemma GroupStep(model: seq<Param>, configs: seq<GroupConfig>, drop: set<string>, k: nat)
    requires k < |configs| && Partitions(TableOf(model, configs, drop, k), MembersBefore(model, configs, k))
    ensures Partitions(TableOf(model, configs, drop, k + 1), MembersBefore(model, configs, k + 1))
  {
    var params := Members(model, configs, k);
    AddedParams(TableOf(model, configs, drop, k), configs[k].optimizer, Group(params, Names(params, drop)));
    OneMoreGroup(model, configs, k);
  }

  /** Each parameter with a match is in exactly one group, once. */
  lemma TablePartitions(model: seq<Param>, configs: seq<GroupConfig>, drop: set<string>)
    ensures Partitions(TableOf(model, configs, drop, |configs|), MembersBefore(model, configs, |configs|))
  {
    NoneBefore(model, configs);
    for k := 0 to |configs|
      invariant Partitions(TableOf(model, configs, drop, k), MembersBefore(model, configs, k))
    {
      GroupStep(model, configs, drop, k);
    }
  }

  lemma {:induction false} NoneBefore(model: seq<Param>, configs: seq<GroupConfig>)
    ensures MembersBefore(model, configs, 0) == []
  {
    if model != [] {
      NoneBefore(model[1..], configs);
    }
  }

  // ----- building -----

  /** What `claimed` holds when pattern k has looked at the first n parameters. */
  ghost predicate Claims(claimed: set<string>, model: seq<Param>, configs: seq<GroupConfig>, k: nat, n: nat)
    requires n <= |model|
  {
    forall i | 0 <= i < |model| && model[i].trainable ::
      model[i].name in claimed <==> GoesBefore(model[i], configs, if i < n then k + 1 else k)
  }

  /** The test in the inner loop. */
  lemma TakesIt(claimed: set<string>, model: seq<Param>, configs: seq<GroupConfig>, k: nat, n: nat)
    requires n < |model| && k < |configs| && Claims(claimed, model, configs, k, n)
    ensures GoesTo(model[n], configs, k)
      <==> model[n].trainable && model[n].name !in claimed && configs[k].matches(model[n].name)
  {
    FirstMatches(configs, model[n].name);
  }

  lemma ClaimsOne(claimed: set<string>, model: seq<Param>, configs: seq<GroupConfig>, k: nat, n: nat)
    requires DistinctNames(model) && n < |model| && Claims(claimed, model, configs, k, n)
    ensures Claims(if GoesTo(model[n], configs, k) then claimed + {model[n].name} else claimed,
                   model, configs, k, n + 1)
  {
  }

  lemma NextPattern(claimed: set<string>, model: seq<Param>, configs: seq<GroupConfig>, k: nat)
    requires Claims(claimed, model, configs, k, |model|)
    ensures Claims(claimed, model, configs, k + 1, 0)
  {
  }

  lemma {:induction false} MembersSnoc(a: seq<Param>, p: Param, configs: seq<GroupConfig>, k: nat)
    ensures Members(a + [p], configs, k)
      == Members(a, configs, k) + if GoesTo(p, configs, k) then [p] else []
  {
    if a == [] {
      assert a + [p] == [p];
    } else {
      assert (a + [p])[0] == a[0] && (a + [p])[1..] == a[1..] + [p];
      MembersSnoc(a[1..], p, configs, k);
      var first, rest, one := if GoesTo(a[0], configs, k) then [a[0]] else [], Members(a[1..], configs, k),
        if GoesTo(p, configs, k) then [p] else [];
      assert Members(a + [p], configs, k) == first + (rest + one);
      assert Members(a, configs, k) == first + rest;
    }
  }

  /** The inner loop of `_build_param_groups`: one pattern over all parameters. */
  method CollectGroup(model: seq<Param>, configs: seq<GroupConfig>, k: nat, drop: set<string>, already: set<string>)
    returns (g: Group, claimed: set<string>)
    requires DistinctNames(model) && k < |configs| && Claims(already, model, configs, k, 0)
    ensures g == Group(Members(model, configs, k), Names(Members(model, configs, k), drop))
    ensures Claims(claimed, model, configs, k + 1, 0)
  {
    var params: seq<Param>, names: seq<string>;
    params, names, claimed := [], [], already;
    for n := 0 to |model|
      invariant params == Members(model[..n], configs, k) && names == Names(params, drop)
      invariant Claims(claimed, model, configs, k, n)
    {
      var p := model[n];
      TakesIt(claimed, model, configs, k, n);
      ClaimsOne(claimed, model, configs, k, n);
      MembersSnoc(model[..n], p, configs, k);
      assert model[..n + 1] == model[..n] + [p];
      if p.trainable && p.name !in claimed && configs[k].matches(p.name) {
        params := params + [p];
        names := names + [CanonicalFqn(p.name, drop)];
        claimed := claimed + {p.name};
      }
    }
    assert model[..|model|] == model;
    NextPattern(claimed, model, configs, k);
    g := Group(params, names);
  }

  ghost predicate EveryPatternMatches(model: seq<Param>, configs: seq<GroupConfig>) {
    forall k | 0 <= k < |configs| :: Members(model, configs, k) != []
  }

  /** `_build_param_groups`: first match wins; a pattern left without parameters is an error. */
  method BuildParamGroups(model: seq<Param>, configs: seq<GroupConfig>, drop: set<string>)
    returns (r: Result<Table, Error>)
    requires DistinctNames(model)
    ensures r.Ok? <==> EveryPatternMatches(model, configs)
    ensures r.Ok? ==> r.value == TableOf(model, configs, drop, |configs|)
    ensures r.Err? ==> r.error.MatchedNothing? && r.error.k < |configs| && Members(model, configs, r.error.k) == []
  {
    var groups: Table := [];
    var claimed: set<string> := {};
    for k := 0 to |configs|
      invariant groups == TableOf(model, configs, drop, k) && Claims(claimed, model, configs, k, 0)
      invariant forall j | 0 <= j < k :: Members(model, configs, j) != []
    {
      var g;
      g, claimed := CollectGroup(model, configs, k, drop, claimed);
      if g.params == [] {
        return Err(MatchedNothing(k));
      }
      groups := AddTo(groups, configs[k].optimizer, g);
    }
    return Ok(groups);
  }

  // ----- all model parts -----

  /** The trainable parameters that some pattern matches, part by part. */
  function Assigned(parts: seq<seq<Param>>, configs: seq<GroupConfig>): seq<Param> {
    if parts == [] then []
    else Assigned(parts[..|parts| - 1], configs) + MembersBefore(parts[|parts| - 1], configs, |configs|)
  }

  function TrainableOf(model: seq<Param>): seq<Param> {
    if model == [] then [] else (if model[0].trainable then [model[0]] else []) + TrainableOf(model[1..])
  }

  function Trainable(parts: seq<seq<Param>>): seq<Param> {
    if parts == [] then [] else Trainable(parts[..|parts| - 1]) + TrainableOf(parts[|parts| - 1])
  }

  function Ids(ps: seq<Param>): set<nat> {
    if ps == [] then {} else {ps[0].id} + Ids(ps[1..])
  }

  /** How often a tensor occurs. */
  function Count(ps: seq<Param>, id: nat): nat {
    if ps == [] then 0 else (if ps[0].id == id then 1 else 0) + Count(ps[1..], id)
  }

  lemma {:induction false} InIds(ps: seq<Param>, id: nat)
    ensures id in Ids(ps) <==> Count(ps, id) > 0
  {
    if ps != [] {
      InIds(ps[1..], id);
    }
  }

  lemma {:induction false} CountAt(ps: seq<Param>, i: nat)
    requires i < |ps|
    ensures Count(ps, ps[i].id) > 0
  {
    if i > 0 {
      CountAt(ps[1..], i - 1);
    }
  }

  lemma {:induction false} CountFinds(ps: seq<Param>, id: nat) returns (i: nat)
    requires Count(ps, id) > 0
    ensures i < |ps| && ps[i].id == id
  {
    if ps[0].id == id {
      i := 0;
    } else {
      i := CountFinds(ps[1..], id);
      i := i + 1;
    }
  }

  /** The ids depend on the members only. */
  lemma IdsOfBag(a: seq<Param>, b: seq<Param>)
    requires multiset(a) == multiset(b)
    ensures Ids(a) <= Ids(b)
  {
    forall id | id in Ids(a)
      ensures id in Ids(b)
    {
      InIds(a, id);
      var i := CountFinds(a, id);
      assert a[i] in multiset(b);
      var j :| 0 <= j < |b| && b[j] == a[i];
      CountAt(b, j);
      InIds(b, id);
    }
  }

  lemma {:induction false} CountJoin(a: seq<Param>, b: seq<Param>, id: nat)
    ensures Count(a + b, id) == Count(a, id) + Count(b, id)
  {
    if a == [] {
      assert a + b == b;
    } else {
      assert (a + b)[1..] == a[1..] + b;
      CountJoin(a[1..], b, id);
    }
  }

  lemma {:induction false} FewerBefore(model: seq<Param>, configs: seq<GroupConfig>, k: nat, id: nat)
    ensures Count(MembersBefore(model, configs, k), id) <= Count(TrainableOf(model), id)
  {
    if model != [] {
      FewerBefore(model[1..], configs, k, id);
      CountJoin(if GoesBefore(model[0], configs, k) then [model[0]] else [], MembersBefore(model[1..], configs, k), id);
      CountJoin(if model[0].trainable then [model[0]] else [], TrainableOf(model[1..]), id);
    }
  }

  lemma {:induction false} FewerAssigned(parts: seq<seq<Param>>, configs: seq<GroupConfig>, id: nat)
    ensures Count(Assigned(parts, configs), id) <= Count(Trainable(parts), id)
  {
    if parts != [] {
      var n := |parts| - 1;
      FewerAssigned(parts[..n], configs, id);
      FewerBefore(parts[n], configs, |configs|, id);
      CountJoin(Assigned(parts[..n], configs), MembersBefore(parts[n], configs, |configs|), id);
      CountJoin(Trainable(parts[..n]), TrainableOf(parts[n]), id);
    }
  }

  /** `_validate_params` compares two sets of tensor ids. */
  predicate Validated(parts: seq<seq<Param>>, allParams: seq<Param>) {
    Ids(Trainable(parts)) == Ids(allParams)
  }

  /** Every tensor that trains is matched by a pattern, under one of its names. */
  ghost predicate Covered(parts: seq<seq<Param>>, configs: seq<GroupConfig>) {
    forall id: nat | Count(Trainable(parts), id) > 0 :: Count(Assigned(parts, configs), id) > 0
  }

  // ----- the same in terms of the parameters -----

  ghost predicate Trains(parts: seq<seq<Param>>, id: nat) {
    exists i, j | 0 <= i < |parts| && 0 <= j < |parts[i]| :: parts[i][j].id == id && parts[i][j].trainable
  }

  ghost predicate MatchedBySome(configs: seq<GroupConfig>, p: Param) {
    exists k :: 0 <= k < |configs| && configs[k].matches(p.name)
  }

  ghost predicate Picked(parts: seq<seq<Param>>, configs: seq<GroupConfig>, id: nat) {
    exists i, j | 0 <= i < |parts| && 0 <= j < |parts[i]| ::
      parts[i][j].id == id && parts[i][j].trainable && MatchedBySome(configs, parts[i][j])
  }

  lemma MatchedIff(configs: seq<GroupConfig>, p: Param)
    ensures MatchedBySome(configs, p) <==> First(configs, p.name) < |configs|
  {
    FirstMatches(configs, p.name);
  }

  lemma {:induction false} CountTrainable(model: seq<Param>, configs: seq<GroupConfig>, id: nat)
    ensures Count(TrainableOf(model), id) > 0
      <==> exists j | 0 <= j < |model| :: model[j].id == id && model[j].trainable
    ensures Count(MembersBefore(model, configs, |configs|), id) > 0
      <==> exists j | 0 <= j < |model| :: model[j].id == id && model[j].trainable && MatchedBySome(configs, model[j])
  {
    if model != [] {
      var p, rest := model[0], model[1..];
      CountTrainable(rest, configs, id);
      MatchedIff(configs, p);
      CountJoin(if p.trainable then [p] else [], TrainableOf(rest), id);
      CountJoin(if GoesBefore(p, configs, |configs|) then [p] else [], MembersBefore(rest, configs, |configs|), id);
      assert forall j | 0 <= j < |rest| :: rest[j] == model[j + 1];
      assert forall j | 0 < j < |model| :: model[j] == rest[j - 1];
    }
  }

  lemma {:induction false} CountParts(parts: seq<seq<Param>>, configs: seq<GroupConfig>, id: nat)
    ensures Count(Trainable(parts), id) > 0 <==> Trains(parts, id)
    ensures Count(Assigned(parts, configs), id) > 0 <==> Picked(parts, configs, id)
  {
    if parts != [] {
      var n := |parts| - 1;
      CountParts(parts[..n], configs, id);
      CountTrainable(parts[n], configs, id);
      CountJoin(Trainable(parts[..n]), TrainableOf(parts[n]), id);
      CountJoin(Assigned(parts[..n], configs), MembersBefore(parts[n], configs, |configs|), id);
    }
  }

  /** Frozen parameters do not matter; every other one must be picked under one of its names. */
  lemma CoveredIff(parts: seq<seq<Param>>, configs: seq<GroupConfig>)
    ensures Covered(parts, configs) <==> forall id: nat | Trains(parts, id) :: Picked(parts, configs, id)
  {
    forall id: nat
      ensures Count(Trainable(parts), id) > 0 <==> Trains(parts, id)
      ensures Count(Assigned(parts, configs), id) > 0 <==> Picked(parts, configs, id)
    {
      CountParts(parts, configs, id);
    }
  }

  lemma ValidatedIff(parts: seq<seq<Param>>, configs: seq<GroupConfig>, allParams: seq<Param>)
    requires multiset(allParams) == multiset(Assigned(parts, configs))
    ensures Validated(parts, allParams) <==> Covered(parts, configs)
  {
    IdsOfBag(allParams, Assigned(parts, configs));
    IdsOfBag(Assigned(parts, configs), allParams);
    forall id: nat
      ensures id in Ids(allParams) <==> Count(Assigned(parts, configs), id) > 0
      ensures id in Ids(Trainable(parts)) <==> Count(Trainable(parts), id) > 0
      ensures Count(Assigned(parts, configs), id) > 0 ==> Count(Trainable(parts), id) > 0
    {
      InIds(Assigned(parts, configs), id);
      InIds(Trainable(parts), id);
      FewerAssigned(parts, configs, id);
    }
  }

  /** No two of the assigned parameters are one tensor. */
  ghost predicate Unshared(ps: seq<Param>) {
    forall i, j | 0 <= i < j < |ps| :: ps[i].id != ps[j].id
  }

  lemma {:induction false} UnsharedCounts(ps: seq<Param>)
    ensures Unshared(ps) <==> forall id: nat :: Count(ps, id) <= 1
  {
    if ps != [] {
      var rest, id := ps[1..], ps[0].id;
      UnsharedCounts(rest);
      if Unshared(ps) {
        assert forall i, j | 0 <= i < j < |rest| :: rest[i] == ps[i + 1] && rest[j] == ps[j + 1];
        assert Unshared(rest);
        assert forall i | 0 <= i < |rest| :: rest[i] == ps[i + 1] && rest[i].id != id;
        if Count(rest, id) > 0 {
          var i := CountFinds(rest, id);
          assert false;
        }
        forall x: nat
          ensures Count(ps, x) <= 1
        {
          assert Count(rest, x) <= 1;
        }
      } else {
        var i, j :| 0 <= i < j < |ps| && ps[i].id == ps[j].id;
        if i == 0 {
          CountAt(rest, j - 1);
          assert Count(ps, id) > 1;
        } else {
          assert rest[i - 1].id == rest[j - 1].id;
          var twice: nat :| Count(rest, twice) > 1;
          assert Count(ps, twice) > 1;
        }
      }
    }
  }

  /** What the check is there for, every trained tensor in exactly one optimizer, once: a
      configuration that passes has it if and only if no two parameters that patterns pick are
      one tensor. */
  lemma CheckedIsOnce(parts: seq<seq<Param>>, configs: seq<GroupConfig>)
    requires Covered(parts, configs)
    ensures (forall id: nat | Count(Trainable(parts), id) > 0 :: Count(Assigned(parts, configs), id) == 1)
      <==> Unshared(Assigned(parts, configs))
  {
    UnsharedCounts(Assigned(parts, configs));
    forall id: nat
      ensures Count(Assigned(parts, configs), id) <= Count(Trainable(parts), id)
    {
      FewerAssigned(parts, configs, id);
    }
  }

  /** No tensor trains in two places. */
  ghost predicate OnePlace(parts: seq<seq<Param>>) {
    forall id: nat :: Count(Trainable(parts), id) <= 1
  }

  /** Models without tied parameters are safe whatever the patterns. */
  lemma UntiedIsOnce(parts: seq<seq<Param>>, configs: seq<GroupConfig>, id: nat)
    requires Covered(parts, configs) && OnePlace(parts) && Count(Trainable(parts), id) > 0
    ensures Count(Assigned(parts, configs), id) == 1
  {
    FewerAssigned(parts, configs, id);
  }

  /** A tensor shared by two parts passes the set comparison, held by two optimizers. */
  lemma SharedTensorPasses(shared: Param, config: GroupConfig)
    requires shared.trainable && config.matches(shared.name)
    ensures Covered([[shared], [shared]], [config])
    ensures Count(Assigned([[shared], [shared]], [config]), shared.id) == 2
  {
    var parts, configs := [[shared], [shared]], [config];
    assert MembersBefore([shared], configs, 1) == [shared] by {
      assert GoesBefore(shared, configs, 1);
      assert [shared][1..] == [];
    }
    assert TrainableOf([shared]) == [shared];
    assert parts[..1] == [[shared]] && [[shared]][..0] == [];
    assert Assigned([[shared]], configs) == [shared];
    assert Assigned(parts, configs) == [shared, shared];
    assert Trainable([[shared]]) == [shared];
    assert Trainable(parts) == [shared, shared];
    assert [shared, shared][1..] == [shared];
    assert Count([shared], shared.id) == 1;
    assert Count([shared, shared], shared.id) == 2;
  }

  lemma PartAdds(parts: seq<seq<Param>>, n: nat, configs: seq<GroupConfig>, drop: set<string>, allParams: seq<Param>)
    requires n < |parts| && multiset(allParams) == multiset(Assigned(parts[..n], configs))
    ensures multiset(allParams + TableParams(TableOf(parts[n], configs, drop, |configs|)))
      == multiset(Assigned(parts[..n + 1], configs))
  {
    TablePartitions(parts[n], configs, drop);
    assert parts[..n + 1][..n] == parts[..n];
    assert Assigned(parts[..n + 1], configs)
      == Assigned(parts[..n], configs) + MembersBefore(parts[n], configs, |configs|);
  }

  /** Every part's groups, for the first parts. */
  ghost predicate Built(tables: seq<Table>, parts: seq<seq<Param>>, configs: seq<GroupConfig>, drop: set<string>) {
    && |tables| <= |parts|
    && forall i | 0 <= i < |tables| ::
      tables[i] == TableOf(parts[i], configs, drop, |configs|) && EveryPatternMatches(parts[i], configs)
  }

  /** The parameters handed to optimizers so far are those the first n parts assign. */
  ghost predicate Collected(allParams: seq<Param>, parts: seq<seq<Param>>, n: nat, configs: seq<GroupConfig>)
    requires n <= |parts|
  {
    multiset(allParams) == multiset(Assigned(parts[..n], configs))
  }

  /** One model part: its groups, and its parameters added to the others. */
  method AddPart(parts: seq<seq<Param>>, n: nat, configs: seq<GroupConfig>, drop: set<string>, before: seq<Param>)
    returns (r: Result<Table, Error>, allParams: seq<Param>)
    requires n < |parts| && DistinctNames(parts[n]) && Collected(before, parts, n, configs)
    ensures r.Ok? <==> EveryPatternMatches(parts[n], configs)
    ensures r.Ok? ==>
      r.value == TableOf(parts[n], configs, drop, |configs|) && Collected(allParams, parts, n + 1, configs)
  {
    allParams := before;
    r := BuildParamGroups(parts[n], configs, drop);
    if r.Ok? {
      PartAdds(parts, n, configs, drop, allParams);
      allParams := allParams + TableParams(r.value);
    }
  }

  lemma AllCollected(parts: seq<seq<Param>>, configs: seq<GroupConfig>, allParams: seq<Param>)
    requires Collected(allParams, parts, |parts|, configs)
    ensures Validated(parts, allParams) <==> Covered(parts, configs)
  {
    assert parts[..|parts|] == parts;
    ValidatedIff(parts, configs, allParams);
  }

  /** The constructor: it succeeds exactly when every pattern finds a parameter of its own in
      every part and every trained tensor is covered. */
  method Init(parts: seq<seq<Param>>, configs: seq<GroupConfig>, drop: set<string>)
    returns (r: Result<seq<Table>, Error>)
    requires forall i | 0 <= i < |parts| :: DistinctNames(parts[i])
    ensures r.Ok? <==> Covered(parts, configs) && forall i | 0 <= i < |parts| :: EveryPatternMatches(parts[i], configs)
    ensures r.Ok? ==> |r.value| == |parts| && Built(r.value, parts, configs, drop)
  {
    var tables: seq<Table> := [];
    var allParams: seq<Param> := [];
    for i := 0 to |parts|
      invariant |tables| == i && Built(tables, parts, configs, drop) && Collected(allParams, parts, i, configs)
    {
      var t;
      t, allParams := AddPart(parts, i, configs, drop, allParams);
      if t.Err? {
        return Err(t.error);
      }
      tables := tables + [t.value];
    }
    AllCollected(parts, configs, allParams);
    if !Validated(parts, allParams) {
      return Err(ParameterMismatch);
    }
    return Ok(tables);
  }
}
