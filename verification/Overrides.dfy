/** Applying config overrides: collect claims, refuse conflicts, replace nodes. */
module Overrides {
  import opened ConfigTraversal
  import opened ConfigTrees
  import opened DottedNames
  import opened Wrappers

  /** `selects` is the glob test of `matches`; `factory` builds the replacement. */
  datatype Override<!D> = Override(name: string, target: nat, exact: bool, selects: string -> bool,
                                   factory: Tree<D> -> Tree<D>)

  /** An override and the node it claims, as found in the original tree. */
  datatype Claim<!D> = Claim(ov: Override<D>, path: Path)

  datatype Error = SameNode(path: Path) | NestedNodes(outer: Path, inner: Path) | RootClaimed

  // ----- collecting -----

  ghost predicate Wanted<D>(isa: Isa, t: Tree<D>, ov: Override<D>, p: Path) {
    && t.Conf? && TopValue(isa, t, ov.target, p)
    && (ov.exact ==> Get(t, p).Some? && Get(t, p).value.Conf? && Get(t, p).value.cls == ov.target)
    && ov.selects(Fqn(p))
  }

  function ClaimsOn<D>(isa: Isa, t: Tree<D>, ov: Override<D>, ps: seq<Path>): seq<Claim<D>>
    requires forall p | p in ps :: Get(t, p).Some? && Get(t, p).value.Conf?
  {
    if ps == [] then []
    else
      assert ps[0] in ps;
      (if (ov.exact && Get(t, ps[0]).value.cls != ov.target) || !ov.selects(Fqn(ps[0])) then [] else [Claim(ov, ps[0])])
      + ClaimsOn(isa, t, ov, ps[1..])
  }

  lemma TraverseGets<D>(isa: Isa, t: Tree<D>, target: nat)
    requires PlainNames(t)
    ensures forall p | p in Traverse(isa, t, target) :: Get(t, p).Some? && Get(t, p).value.Conf?
  {
    forall p | p in Traverse(isa, t, target)
      ensures Get(t, p).Some? && Get(t, p).value.Conf?
    {
      TraverseIsTop(isa, t, target, p);
      TopGet(isa, t, target, p);
    }
  }

  function ClaimsOf<D>(isa: Isa, t: Tree<D>, ov: Override<D>): seq<Claim<D>>
    requires PlainNames(t)
  {
    TraverseGets(isa, t, ov.target);
    ClaimsOn(isa, t, ov, Traverse(isa, t, ov.target))
  }

  function Claims<D>(isa: Isa, t: Tree<D>, active: seq<Override<D>>): seq<Claim<D>>
    requires PlainNames(t)
  {
    if active == [] then [] else ClaimsOf(isa, t, active[0]) + Claims(isa, t, active[1..])
  }

  lemma {:induction false} ClaimsOnIs<D>(isa: Isa, t: Tree<D>, ov: Override<D>, ps: seq<Path>, p: Path)
    requires forall q | q in ps :: Get(t, q).Some? && Get(t, q).value.Conf?
    ensures Claim(ov, p) in ClaimsOn(isa, t, ov, ps) <==>
      p in ps && (ov.exact ==> Get(t, p).value.cls == ov.target) && ov.selects(Fqn(p))
    ensures forall c | c in ClaimsOn(isa, t, ov, ps) :: c.ov == ov
  {
    if ps != [] {
      assert ps[0] in ps;
      ClaimsOnIs(isa, t, ov, ps[1..], p);
    }
  }

  lemma ClaimsOfIs<D>(isa: Isa, t: Tree<D>, ov: Override<D>, p: Path)
    requires PlainNames(t)
    ensures Claim(ov, p) in ClaimsOf(isa, t, ov) <==> Wanted(isa, t, ov, p)
    ensures forall c | c in ClaimsOf(isa, t, ov) :: c.ov == ov
  {
    TraverseGets(isa, t, ov.target);
    ClaimsOnIs(isa, t, ov, Traverse(isa, t, ov.target), p);
    TraverseIsTop(isa, t, ov.target, p);
  }

  ghost predicate DistinctNames<D>(active: seq<Override<D>>) {
    forall i, j | 0 <= i < j < |active| :: active[i].name != active[j].name
  }

  /** Exactly what each override wants is claimed for it. */
  lemma {:induction false} ClaimedIsWanted<D>(isa: Isa, t: Tree<D>, active: seq<Override<D>>, k: nat, p: Path)
    requires PlainNames(t) && DistinctNames(active) && k < |active|
    ensures Claim(active[k], p) in Claims(isa, t, active) <==> Wanted(isa, t, active[k], p)
  {
    var rest := active[1..];
    assert forall i, j | 0 <= i < j < |rest| :: rest[i] == active[i + 1] && rest[j] == active[j + 1];
    ClaimsOfIs(isa, t, active[0], p);
    if k == 0 {
      ClaimedByActive(isa, t, rest);
      forall c | c in Claims(isa, t, rest)
        ensures c.ov.name != active[0].name
      {
        var j :| 0 <= j < |rest| && rest[j] == c.ov;
      }
    } else {
      assert active[0].name != active[k].name && rest[k - 1] == active[k];
      ClaimedIsWanted(isa, t, rest, k - 1, p);
    }
  }

  lemma {:induction false} ClaimedByActive<D>(isa: Isa, t: Tree<D>, active: seq<Override<D>>)
    requires PlainNames(t)
    ensures forall c | c in Claims(isa, t, active) :: exists j :: 0 <= j < |active| && active[j] == c.ov
  {
    if active != [] {
      var rest := active[1..];
      ClaimedByActive(isa, t, rest);
      ClaimsOfIs(isa, t, active[0], []);
      forall c | c in Claims(isa, t, active)
        ensures exists j :: 0 <= j < |active| && active[j] == c.ov
      {
        if c in ClaimsOf(isa, t, active[0]) {
          assert active[0] == c.ov;
        } else {
          var j :| 0 <= j < |rest| && rest[j] == c.ov;
          assert active[j + 1] == c.ov;
        }
      }
    }
  }

  /** The list holds for every override the nodes it wants, each once, and nothing else. */
  ghost predicate ExactlyWanted<D>(isa: Isa, t: Tree<D>, active: seq<Override<D>>, claims: seq<Claim<D>>) {
    && (forall k, p | 0 <= k < |active| :: Claim(active[k], p) in claims <==> Wanted(isa, t, active[k], p))
    && (forall c | c in claims :: exists k :: 0 <= k < |active| && active[k] == c.ov)
    && forall i, j | 0 <= i < j < |claims| :: claims[i] != claims[j]
  }

  lemma ClaimsAreWanted<D>(isa: Isa, t: Tree<D>, active: seq<Override<D>>)
    requires PlainNames(t) && DistinctNames(active)
    ensures ExactlyWanted(isa, t, active, Claims(isa, t, active))
  {
    forall k, p | 0 <= k < |active|
      ensures Claim(active[k], p) in Claims(isa, t, active) <==> Wanted(isa, t, active[k], p)
    {
      ClaimedIsWanted(isa, t, active, k, p);
    }
    ClaimedByActive(isa, t, active);
    CollectedValid(isa, t, active);
  }

  lemma ClaimsStep<D>(isa: Isa, t: Tree<D>, active: seq<Override<D>>, k: nat, was: seq<Claim<D>>)
    requires PlainNames(t) && k < |active|
    ensures was + Claims(isa, t, active[k..]) == (was + ClaimsOf(isa, t, active[k])) + Claims(isa, t, active[k + 1..])
  {
    assert active[k..][0] == active[k] && active[k..][1..] == active[k + 1..];
  }

  method GatherClaims<D>(isa: Isa, t: Tree<D>, active: seq<Override<D>>) returns (claims: seq<Claim<D>>)
    requires PlainNames(t)
    ensures claims == Claims(isa, t, active)
  {
    claims := [];
    for k := 0 to |active|
      invariant claims + Claims(isa, t, active[k..]) == Claims(isa, t, active)
    {
      ClaimsStep(isa, t, active, k, claims);
      claims := claims + ClaimsOf(isa, t, active[k]);
    }
  }

  /** `_collect_claims`: for every override the nodes it wants, each once. */
  method CollectClaims<D>(isa: Isa, t: Tree<D>, active: seq<Override<D>>) returns (claims: seq<Claim<D>>)
    requires PlainNames(t) && DistinctNames(active)
    ensures claims == Claims(isa, t, active) && ExactlyWanted(isa, t, active, claims)
  {
    claims := GatherClaims(isa, t, active);
    ClaimsAreWanted(isa, t, active);
  }

  lemma {:induction false} ClaimedPaths<D>(isa: Isa, t: Tree<D>, ov: Override<D>, ps: seq<Path>)
    requires forall p | p in ps :: Get(t, p).Some? && Get(t, p).value.Conf?
    requires NoRepeats(ps)
    ensures forall i | 0 <= i < |ClaimsOn(isa, t, ov, ps)| :: ClaimsOn(isa, t, ov, ps)[i].path in ps
    ensures forall i, j | 0 <= i < j < |ClaimsOn(isa, t, ov, ps)| ::
      ClaimsOn(isa, t, ov, ps)[i].path != ClaimsOn(isa, t, ov, ps)[j].path
    ensures forall i | 0 <= i < |ClaimsOn(isa, t, ov, ps)| :: ClaimsOn(isa, t, ov, ps)[i].ov == ov
  {
    if ps != [] {
      forall i, j | 0 <= i < j < |ps[1..]|
        ensures ps[1..][i] != ps[1..][j]
      {
        assert ps[i + 1] != ps[j + 1];
      }
      ClaimedPaths(isa, t, ov, ps[1..]);
    }
  }

  // ----- checking -----

  /** The two rules: different overrides neither claim one node nor nested ones. */
  ghost predicate NoConflict<D>(claims: seq<Claim<D>>) {
    forall i, j | 0 <= i < |claims| && 0 <= j < |claims| && claims[i].ov.name != claims[j].ov.name ::
      claims[i].path != claims[j].path && !IsUnder(Fqn(claims[i].path), Fqn(claims[j].path))
  }

  /** `_check_node_conflicts`: passes exactly when there is no conflict. */
  method CheckNodeConflicts<D>(claims: seq<Claim<D>>) returns (e: Option<Error>)
    ensures e == None <==> NoConflict(claims)
    ensures e != Some(RootClaimed)
  {
    e := CheckSameNode(claims);
    if e.None? {
      e := CheckNested(claims);
    }
  }

  /** The dict holds, for each node of the first k claims, the one override they name. */
  ghost predicate NamesByNode<D>(byNode: map<Path, string>, claims: seq<Claim<D>>, k: nat)
    requires k <= |claims|
  {
    && (forall i | 0 <= i < k :: claims[i].path in byNode && byNode[claims[i].path] == claims[i].ov.name)
    && forall p | p in byNode :: ClaimedAs(claims, k, p, byNode[p])
  }

  ghost predicate ClaimedAs<D>(claims: seq<Claim<D>>, k: nat, p: Path, name: string)
    requires k <= |claims|
  {
    exists i :: 0 <= i < k && claims[i].path == p && claims[i].ov.name == name
  }

  ghost predicate NodesApart<D>(claims: seq<Claim<D>>, k: nat)
    requires k <= |claims|
  {
    forall i, j | 0 <= i < j < k && claims[i].ov.name != claims[j].ov.name :: claims[i].path != claims[j].path
  }

  lemma NameNode<D>(byNode: map<Path, string>, claims: seq<Claim<D>>, k: nat)
    requires k < |claims| && NamesByNode(byNode, claims, k)
    requires claims[k].path !in byNode || byNode[claims[k].path] == claims[k].ov.name
    ensures NamesByNode(byNode[claims[k].path := claims[k].ov.name], claims, k + 1)
  {
    var c := claims[k];
    var next := byNode[c.path := c.ov.name];
    forall p | p in next
      ensures ClaimedAs(claims, k + 1, p, next[p])
    {
      if p == c.path {
        assert claims[k].path == p;
      } else {
        assert ClaimedAs(claims, k, p, byNode[p]);
      }
    }
  }

  lemma OneMoreApart<D>(byNode: map<Path, string>, claims: seq<Claim<D>>, k: nat)
    requires k < |claims| && NamesByNode(byNode, claims, k)
    ensures claims[k].path !in byNode || byNode[claims[k].path] == claims[k].ov.name ==>
      (NodesApart(claims, k) ==> NodesApart(claims, k + 1))
    ensures claims[k].path in byNode && byNode[claims[k].path] != claims[k].ov.name ==> !NodesApart(claims, |claims|)
  {
    var p := claims[k].path;
    if p in byNode && byNode[p] != claims[k].ov.name {
      assert ClaimedAs(claims, k, p, byNode[p]);
    }
  }

  /** The first rule, with a dict from nodes to the override that claimed them. */
  method CheckSameNode<D>(claims: seq<Claim<D>>) returns (e: Option<Error>)
    ensures e == None <==> NodesApart(claims, |claims|)
    ensures e != Some(RootClaimed)
  {
    var byNode: map<Path, string> := map[];
    for k := 0 to |claims|
      invariant NamesByNode(byNode, claims, k) && NodesApart(claims, k)
    {
      var c := claims[k];
      OneMoreApart(byNode, claims, k);
      if c.path in byNode && byNode[c.path] != c.ov.name {
        return Some(SameNode(c.path));
      }
      NameNode(byNode, claims, k);
      byNode := byNode[c.path := c.ov.name];
    }
    return None;
  }

  /** The second rule, over all ordered pairs. */
  method CheckNested<D>(claims: seq<Claim<D>>) returns (e: Option<Error>)
    ensures e == None <==> forall i, j | 0 <= i < |claims| && 0 <= j < |claims| &&
      claims[i].ov.name != claims[j].ov.name :: !IsUnder(Fqn(claims[i].path), Fqn(claims[j].path))
    ensures e != Some(RootClaimed)
  {
    for a := 0 to |claims|
      invariant forall i, j | 0 <= i < a && 0 <= j < |claims| && claims[i].ov.name != claims[j].ov.name ::
        !IsUnder(Fqn(claims[i].path), Fqn(claims[j].path))
    {
      for b := 0 to |claims|
        invariant forall j | 0 <= j < b && claims[a].ov.name != claims[j].ov.name ::
          !IsUnder(Fqn(claims[a].path), Fqn(claims[j].path))
      {
        if claims[a].ov.name != claims[b].ov.name && IsUnder(Fqn(claims[a].path), Fqn(claims[b].path)) {
          return Some(NestedNodes(claims[a].path, claims[b].path));
        }
      }
    }
    return None;
  }

  // ----- replacing -----

  datatype Rep<D> = Rep(path: Path, val: Tree<D>)

  ghost predicate Applicable<D>(t: Tree<D>, reps: seq<Rep<D>>) {
    && (forall i | 0 <= i < |reps| :: Get(t, reps[i].path).Some?)
    && forall i, j | 0 <= i < j < |reps| :: Incomparable(reps[i].path, reps[j].path)
  }

  lemma StillApplicable<D>(t: Tree<D>, reps: seq<Rep<D>>)
    requires Applicable(t, reps) && reps != []
    ensures Applicable(Put(t, reps[0].path, reps[0].val), reps[1..])
  {
    forall i | 0 <= i < |reps[1..]|
      ensures Get(Put(t, reps[0].path, reps[0].val), reps[1..][i].path).Some?
    {
      GetBeside(t, reps[0].path, reps[0].val, reps[i + 1].path);
    }
  }

  /** The tree after all replacements, one after the other. */
  ghost function ApplyReps<D>(t: Tree<D>, reps: seq<Rep<D>>): Tree<D>
    requires Applicable(t, reps)
    decreases |reps|
  {
    if reps == [] then t
    else
      StillApplicable(t, reps);
      ApplyReps(Put(t, reps[0].path, reps[0].val), reps[1..])
  }

  /** Beside all replaced nodes nothing changes. */
  lemma {:induction false} Unclaimed<D>(t: Tree<D>, reps: seq<Rep<D>>, q: Path)
    requires Applicable(t, reps) && forall i | 0 <= i < |reps| :: Incomparable(reps[i].path, q)
    ensures Get(ApplyReps(t, reps), q) == Get(t, q)
    decreases |reps|
  {
    if reps != [] {
      StillApplicable(t, reps);
      GetBeside(t, reps[0].path, reps[0].val, q);
      Unclaimed(Put(t, reps[0].path, reps[0].val), reps[1..], q);
    }
  }

  /** Every replaced node holds its replacement. */
  lemma {:induction false} Replaced<D>(t: Tree<D>, reps: seq<Rep<D>>, k: nat)
    requires Applicable(t, reps) && k < |reps|
    ensures Get(ApplyReps(t, reps), reps[k].path) == Some(reps[k].val)
    decreases |reps|
  {
    StillApplicable(t, reps);
    var u := Put(t, reps[0].path, reps[0].val);
    if k == 0 {
      GetPut(t, reps[0].path, reps[0].val);
      Unclaimed(u, reps[1..], reps[0].path);
    } else {
      Replaced(u, reps[1..], k - 1);
    }
  }

  function Front<T>(s: seq<T>, k: nat): seq<T>
    requires k < |s|
  {
    [s[k]] + s[..k] + s[k + 1..]
  }

  lemma FrontApplicable<D>(t: Tree<D>, reps: seq<Rep<D>>, k: nat)
    requires Applicable(t, reps) && k < |reps|
    ensures Applicable(t, Front(reps, k))
  {
    var f := Front(reps, k);
    forall i, j | 0 <= i < j < |f|
      ensures Incomparable(f[i].path, f[j].path)
    {
      var a, b := if i == 0 then k else if i <= k then i - 1 else i, if j <= k then j - 1 else j;
      assert f[i] == reps[a] && f[j] == reps[b] && a != b;
    }
  }

  /** A later replacement may as well come first. */
  lemma {:induction false} MoveToFront<D>(t: Tree<D>, reps: seq<Rep<D>>, k: nat)
    requires Applicable(t, reps) && k < |reps|
    ensures Applicable(t, Front(reps, k)) && ApplyReps(t, Front(reps, k)) == ApplyReps(t, reps)
    decreases k
  {
    FrontApplicable(t, reps, k);
    if k == 0 {
      assert Front(reps, 0) == reps;
    } else {
      var u := Put(t, reps[0].path, reps[0].val);
      StillApplicable(t, reps);
      MoveToFront(u, reps[1..], k - 1);
      SwapFirst(t, reps, k);
    }
  }

  lemma FrontShape<T>(s: seq<T>, k: nat)
    requires 0 < k < |s|
    ensures var f, g := Front(s, k), Front(s[1..], k - 1);
      f[0] == s[k] && f[1] == s[0] && g[0] == s[k] && f[1..][1..] == g[1..]
  {
    var f, g := Front(s, k), Front(s[1..], k - 1);
    assert f[1..] == s[..k] + s[k + 1..];
    assert f[1..][1..] == s[..k][1..] + s[k + 1..];
    assert s[..k][1..] == s[1..][..k - 1] && s[1..][k..] == s[k + 1..];
    assert g[1..] == s[1..][..k - 1] + s[1..][k..];
  }

  /** The first two replacements, k's and the old first one, commute. */
  lemma SwapFirst<D>(t: Tree<D>, reps: seq<Rep<D>>, k: nat)
    requires Applicable(t, reps) && 0 < k < |reps| && Applicable(t, Front(reps, k))
    requires Applicable(Put(t, reps[0].path, reps[0].val), Front(reps[1..], k - 1))
    ensures ApplyReps(t, Front(reps, k)) == ApplyReps(Put(t, reps[0].path, reps[0].val), Front(reps[1..], k - 1))
  {
    var f, g := Front(reps, k), Front(reps[1..], k - 1);
    var a, b := reps[0], reps[k];
    FrontShape(reps, k);
    var u, w := Put(t, a.path, a.val), Put(t, b.path, b.val);
    StillApplicable(t, f);
    StillApplicable(w, f[1..]);
    StillApplicable(u, g);
    assert Incomparable(a.path, b.path);
    PutsCommute(t, a.path, a.val, b.path, b.val);
    assert ApplyReps(t, f) == ApplyReps(w, f[1..]) == ApplyReps(Put(w, a.path, a.val), g[1..]);
  }

  lemma FrontBag<T>(s: seq<T>, k: nat)
    requires k < |s|
    ensures multiset(Front(s, k)) == multiset(s) && multiset(Front(s, k)[1..]) == multiset(s) - multiset{s[k]}
  {
    assert s == s[..k] + [s[k]] + s[k + 1..];
    assert Front(s, k)[1..] == s[..k] + s[k + 1..];
  }

  lemma TailBag<T>(s: seq<T>)
    requires s != []
    ensures multiset(s[1..]) == multiset(s) - multiset{s[0]}
  {
    assert s == [s[0]] + s[1..];
  }

  lemma FindIn<T>(s: seq<T>, t: seq<T>) returns (k: nat)
    requires multiset(s) == multiset(t) && t != []
    ensures k < |s| && s[k] == t[0]
    ensures multiset(Front(s, k)[1..]) == multiset(t[1..])
  {
    assert t[0] in multiset(s);
    k :| 0 <= k < |s| && s[k] == t[0];
    FrontBag(s, k);
    TailBag(t);
  }

  lemma Twice<T>(s: seq<T>, x: T) returns (i: nat, j: nat)
    requires multiset(s)[x] >= 2
    ensures i < j < |s| && s[i] == s[j] == x
  {
    assert x in s;
    var k :| 0 <= k < |s| && s[k] == x;
    FrontBag(s, k);
    var rest := Front(s, k)[1..];
    assert x in multiset(rest);
    var l :| 0 <= l < |rest| && rest[l] == x;
    assert rest == s[..k] + s[k + 1..];
    if l < k {
      i, j := l, k;
    } else {
      i, j := k, l + 1;
    }
  }

  lemma CountsTwice<T>(s: seq<T>, i: nat, j: nat)
    requires i < j < |s| && s[i] == s[j]
    ensures multiset(s)[s[i]] >= 2
  {
    assert s == s[..j] + [s[j]] + s[j + 1..];
    assert s[i] in s[..j];
  }

  /** Side by side in one order is side by side in any. */
  lemma OrderApplicable<D>(t: Tree<D>, reps: seq<Rep<D>>, order: seq<Rep<D>>)
    requires Applicable(t, reps) && multiset(order) == multiset(reps)
    ensures Applicable(t, order)
  {
    forall i | 0 <= i < |order|
      ensures order[i] in reps
    {
      assert order[i] in multiset(reps);
    }
    forall i, j | 0 <= i < j < |order|
      ensures Incomparable(order[i].path, order[j].path)
    {
      if order[i] == order[j] {
        CountsTwice(order, i, j);
        var k, l := Twice(reps, order[i]);
        assert Incomparable(reps[k].path, reps[l].path);
      } else {
        assert order[i] in reps && order[j] in reps;
      }
    }
  }

  /** Application order does not matter. */
  lemma {:induction false} AnyOrder<D>(t: Tree<D>, reps: seq<Rep<D>>, other: seq<Rep<D>>)
    requires Applicable(t, reps) && Applicable(t, other) && multiset(reps) == multiset(other)
    ensures ApplyReps(t, reps) == ApplyReps(t, other)
    decreases |other|
  {
    if other == [] {
      assert |multiset(reps)| == |reps|;
    } else {
      var k := FindIn(reps, other);
      MoveToFront(t, reps, k);
      StillApplicable(t, Front(reps, k));
      StillApplicable(t, other);
      AnyOrder(Put(t, other[0].path, other[0].val), Front(reps, k)[1..], other[1..]);
    }
  }

  // ----- the whole -----

  /** What each claim puts: its factory applied to the node of the original tree. */
  ghost function Replacements<D>(t: Tree<D>, claims: seq<Claim<D>>): (r: seq<Rep<D>>)
    requires forall i | 0 <= i < |claims| :: Get(t, claims[i].path).Some?
    ensures |r| == |claims| && forall i | 0 <= i < |claims| ::
      r[i] == Rep(claims[i].path, claims[i].ov.factory(Get(t, claims[i].path).value))
  {
    seq(|claims|, i requires 0 <= i < |claims| =>
      Rep(claims[i].path, claims[i].ov.factory(Get(t, claims[i].path).value)))
  }

  ghost predicate Valid<D>(t: Tree<D>, claims: seq<Claim<D>>) {
    && (forall i | 0 <= i < |claims| :: Get(t, claims[i].path).Some?)
    && forall i, j | 0 <= i < j < |claims| && claims[i].ov.name == claims[j].ov.name ::
      Incomparable(claims[i].path, claims[j].path)
  }

  /** A claimed root stands alone. */
  ghost predicate RootAlone<D>(claims: seq<Claim<D>>) {
    forall i | 0 <= i < |claims| && claims[i].path == [] :: |claims| == 1
  }

  /** Claims that pass the check lie side by side exactly when no claimed root stands beside
      another claim, which the check does not see. */
  lemma AcceptedAreApart<D>(t: Tree<D>, claims: seq<Claim<D>>)
    requires PlainNames(t) && Valid(t, claims) && NoConflict(claims)
    ensures Applicable(t, Replacements(t, claims)) <==> RootAlone(claims)
  {
    var reps := Replacements(t, claims);
    forall i, j | 0 <= i < j < |claims| && claims[i].path != [] && claims[j].path != []
      ensures Incomparable(claims[i].path, claims[j].path)
    {
      if claims[i].ov.name != claims[j].ov.name {
        NameIsAncestry(t, claims[i].path, claims[j].path);
        NameIsAncestry(t, claims[j].path, claims[i].path);
      }
    }
    if i :| 0 <= i < |claims| && claims[i].path == [] && |claims| != 1 {
      var j := if i == 0 then 1 else 0;
      assert !Incomparable(reps[i].path, reps[j].path) && !Incomparable(reps[j].path, reps[i].path);
    }
  }

  lemma ClaimsOfValid<D>(isa: Isa, t: Tree<D>, ov: Override<D>)
    requires PlainNames(t)
    ensures var cs := ClaimsOf(isa, t, ov);
      && (forall i | 0 <= i < |cs| :: cs[i].ov == ov && Get(t, cs[i].path).Some?)
      && forall i, j | 0 <= i < j < |cs| :: Incomparable(cs[i].path, cs[j].path)
  {
    var ps, cs := Traverse(isa, t, ov.target), ClaimsOf(isa, t, ov);
    TraverseGets(isa, t, ov.target);
    TraverseDistinct(isa, t, ov.target);
    ClaimedPaths(isa, t, ov, ps);
    forall i, j | 0 <= i < j < |cs|
      ensures Incomparable(cs[i].path, cs[j].path)
    {
      TwoTops(isa, t, ov.target, cs[i].path, cs[j].path);
    }
  }

  lemma TwoTops<D>(isa: Isa, t: Tree<D>, target: nat, p: Path, q: Path)
    requires PlainNames(t) && p in Traverse(isa, t, target) && q in Traverse(isa, t, target) && p != q
    ensures Incomparable(p, q)
  {
    TraverseIsTop(isa, t, target, p);
    TraverseIsTop(isa, t, target, q);
    if p <= q {
      TopsApart(isa, t, target, p, q);
    } else if q <= p {
      TopsApart(isa, t, target, q, p);
    }
  }

  /** Collected claims: real nodes, and one override's own claims never nest. */
  lemma {:induction false} CollectedValid<D>(isa: Isa, t: Tree<D>, active: seq<Override<D>>)
    requires PlainNames(t) && DistinctNames(active)
    ensures Valid(t, Claims(isa, t, active))
    ensures forall i | 0 <= i < |Claims(isa, t, active)| ::
      exists k :: 0 <= k < |active| && active[k] == Claims(isa, t, active)[i].ov
  {
    if active != [] {
      CollectedValid(isa, t, active[1..]);
      ClaimsOfValid(isa, t, active[0]);
      var a, b := ClaimsOf(isa, t, active[0]), Claims(isa, t, active[1..]);
      forall i | 0 <= i < |b|
        ensures b[i].ov.name != active[0].name && exists k :: 0 <= k < |active| && active[k] == b[i].ov
      {
        var k :| 0 <= k < |active[1..]| && active[1..][k] == b[i].ov;
        assert active[k + 1] == b[i].ov;
      }
    }
  }

  lemma {:induction false} ApplySnoc<D>(t: Tree<D>, reps: seq<Rep<D>>, r: Rep<D>)
    requires Applicable(t, reps + [r])
    ensures Applicable(t, reps) && Get(ApplyReps(t, reps), r.path).Some?
    ensures ApplyReps(t, reps + [r]) == Put(ApplyReps(t, reps), r.path, r.val)
    decreases |reps|
  {
    var all := reps + [r];
    forall i | 0 <= i < |reps|
      ensures all[i] == reps[i] && Incomparable(reps[i].path, r.path)
    {
      assert Incomparable(all[i].path, all[|reps|].path);
    }
    forall i, j | 0 <= i < j < |reps|
      ensures Incomparable(reps[i].path, reps[j].path)
    {
      assert Incomparable(all[i].path, all[j].path);
    }
    assert all[|reps|] == r;
    Unclaimed(t, reps, r.path);
    if reps == [] {
      assert all[1..] == [];
    } else {
      assert all[1..] == reps[1..] + [r];
      StillApplicable(t, all);
      ApplySnoc(Put(t, reps[0].path, reps[0].val), reps[1..], r);
    }
  }

  lemma PrefixApplicable<D>(t: Tree<D>, claims: seq<Claim<D>>, n: nat)
    requires PlainNames(t) && Valid(t, claims) && NoConflict(claims) && n <= |claims|
    requires forall i | 0 <= i < n :: claims[i].path != []
    ensures Applicable(t, Replacements(t, claims[..n]))
  {
    assert NoConflict(claims[..n]);
    AcceptedAreApart(t, claims[..n]);
  }

  /** The first n claims have been applied. */
  ghost predicate AppliedUpTo<D>(t: Tree<D>, claims: seq<Claim<D>>, n: nat, tree: Tree<D>)
    requires Valid(t, claims) && n <= |claims|
  {
    Applicable(t, Replacements(t, claims[..n])) && tree == ApplyReps(t, Replacements(t, claims[..n]))
  }

  lemma ApplyStep<D>(t: Tree<D>, claims: seq<Claim<D>>, k: nat, tree: Tree<D>)
    requires PlainNames(t) && Valid(t, claims) && NoConflict(claims) && k < |claims|
    requires (forall i | 0 <= i <= k :: claims[i].path != []) && AppliedUpTo(t, claims, k, tree)
    ensures Get(tree, claims[k].path).Some?
    ensures AppliedUpTo(t, claims, k + 1, Put(tree, claims[k].path, claims[k].ov.factory(Get(t, claims[k].path).value)))
  {
    PrefixApplicable(t, claims, k + 1);
    var reps := Replacements(t, claims[..k]);
    var r := Rep(claims[k].path, claims[k].ov.factory(Get(t, claims[k].path).value));
    assert Replacements(t, claims[..k + 1]) == reps + [r];
    ApplySnoc(t, reps, r);
  }

  /** The loop stops at the first claimed root, with the claims before it applied. */
  ghost predicate StoppedAt<D>(t: Tree<D>, claims: seq<Claim<D>>, n: nat, tree: Tree<D>)
    requires Valid(t, claims)
  {
    && n < |claims| && claims[n].path == [] && (forall i | 0 <= i < n :: claims[i].path != [])
    && AppliedUpTo(t, claims, n, tree)
  }

  /** The loop of `apply_overrides`: replace claim by claim; a claimed root stops it. */
  method ApplyClaims<D>(t: Tree<D>, claims: seq<Claim<D>>) returns (tree: Tree<D>, e: Option<Error>)
    requires PlainNames(t) && Valid(t, claims) && NoConflict(claims)
    ensures e == None <==> forall i | 0 <= i < |claims| :: claims[i].path != []
    ensures e == None ==> AppliedUpTo(t, claims, |claims|, tree)
    ensures e != None ==> e == Some(RootClaimed) && exists n: nat :: StoppedAt(t, claims, n, tree)
  {
    tree := t;
    for k := 0 to |claims|
      invariant forall i | 0 <= i < k :: claims[i].path != []
      invariant AppliedUpTo(t, claims, k, tree)
    {
      if claims[k].path == [] {
        assert StoppedAt(t, claims, k, tree);
        return tree, Some(RootClaimed);
      }
      ApplyStep(t, claims, k, tree);
      tree := Put(tree, claims[k].path, claims[k].ov.factory(Get(t, claims[k].path).value));
    }
    return tree, None;
  }

  lemma {:induction false} PutSame<D>(t: Tree<D>, p: Path)
    requires Get(t, p).Some?
    ensures Put(t, p, Get(t, p).value) == t
    decreases p
  {
    if p != [] {
      PutSame(Child(t, p[0]).value, p[1..]);
    }
  }

  lemma {:induction false} RepsChangeNothing<D>(t: Tree<D>, reps: seq<Rep<D>>)
    requires Applicable(t, reps) && forall i | 0 <= i < |reps| :: Get(t, reps[i].path) == Some(reps[i].val)
    ensures ApplyReps(t, reps) == t
    decreases |reps|
  {
    if reps != [] {
      PutSame(t, reps[0].path);
      StillApplicable(t, reps);
      RepsChangeNothing(t, reps[1..]);
    }
  }

  /** A stopped loop leaves the tree as it was exactly when no factory before the first claimed
      root makes anything new. */
  lemma StoppedUnchangedIff<D>(t: Tree<D>, claims: seq<Claim<D>>, n: nat, tree: Tree<D>)
    requires Valid(t, claims) && StoppedAt(t, claims, n, tree)
    ensures tree == t <==>
      forall i | 0 <= i < n :: claims[i].ov.factory(Get(t, claims[i].path).value) == Get(t, claims[i].path).value
  {
    var reps := Replacements(t, claims[..n]);
    forall i | 0 <= i < n
      ensures Get(tree, claims[i].path) == Some(claims[i].ov.factory(Get(t, claims[i].path).value))
    {
      Replaced(t, reps, i);
    }
    if forall i | 0 <= i < n :: claims[i].ov.factory(Get(t, claims[i].path).value) == Get(t, claims[i].path).value {
      RepsChangeNothing(t, reps);
    }
  }

  /** `apply_overrides`: all claims are collected on the original tree, checked, and only
      then applied. */
  method ApplyOverrides<D>(isa: Isa, t: Tree<D>, active: seq<Override<D>>) returns (tree: Tree<D>, e: Option<Error>)
    requires PlainNames(t) && DistinctNames(active)
    ensures var claims := Claims(isa, t, active);
      && (e == None <==> NoConflict(claims) && forall i | 0 <= i < |claims| :: claims[i].path != [])
      && (!NoConflict(claims) ==> tree == t)
      && Valid(t, claims)
      && (e == None ==> Applicable(t, Replacements(t, claims)) && tree == ApplyReps(t, Replacements(t, claims)))
      && (e == Some(RootClaimed) <==> NoConflict(claims) && exists i :: 0 <= i < |claims| && claims[i].path == [])
      && (e == Some(RootClaimed) ==> exists n: nat :: StoppedAt(t, claims, n, tree))
  {
    CollectedValid(isa, t, active);
    var claims := CollectClaims(isa, t, active);
    e := CheckNodeConflicts(claims);
    if e.Some? {
      return t, e;
    }
    tree, e := ApplyClaims(t, claims);
    assert claims[..|claims|] == claims;
  }

  // ----- a claimed root beside another claim -----

  /** A config of class 0 with one field that holds a config of class 1. */
  const OUTER: Tree<int> := Conf(0, [Field("inner", Conf(1, []))])

  const FIELD_FIRST: seq<Override<int>> := [
    Override("field", 1, true, (name: string) => true, (t: Tree<int>) => Data(1)),
    Override("root", 0, true, (name: string) => true, (t: Tree<int>) => Data(2))]

  const SAME_CLASS: Isa := (cls: nat, target: nat) => cls == target

  /** The first override claims the field and the second the root: the check passes, the field
      is replaced, and only then does the loop stop. */
  method RootClaimedExample() returns (tree: Tree<int>, e: Option<Error>)
    ensures e == Some(RootClaimed) && tree != OUTER && Get(tree, [Name("inner")]) == Some(Data(1))
  {
    ExampleClaims();
    ghost var claims := Claims(SAME_CLASS, OUTER, FIELD_FIRST);
    tree, e := ApplyOverrides(SAME_CLASS, OUTER, FIELD_FIRST);
    ghost var n: nat :| StoppedAt(OUTER, claims, n, tree);
    Replaced(OUTER, Replacements(OUTER, claims[..n]), 0);
  }

  lemma OneClaim<D>(isa: Isa, t: Tree<D>, ov: Override<D>, p: Path)
    requires Get(t, p).Some? && Get(t, p).value.Conf? && Get(t, p).value.cls == ov.target && ov.selects(Fqn(p))
    requires PlainNames(t) && Traverse(isa, t, ov.target) == [p]
    ensures ClaimsOf(isa, t, ov) == [Claim(ov, p)]
  {
    var rest: seq<Path> := [p][1..];
    TraverseGets(isa, t, ov.target);
    assert rest == [] && ClaimsOn(isa, t, ov, rest) == [];
  }

  lemma FieldAndRoot<D>(field: Claim<D>, root: Claim<D>)
    requires field.path == [Name("inner")] && root.path == []
    ensures NoConflict([field, root])
  {
    assert Fqn(field.path) == "inner" && Fqn(root.path) == "";
    assert ("" + ".")[0] == '.';
    assert !IsUnder("", "inner") && !IsUnder("inner", "");
  }

  lemma ExampleTops()
    ensures Traverse(SAME_CLASS, OUTER, 1) == [[Name("inner")]] && Traverse(SAME_CLASS, OUTER, 0) == [[]]
  {
    assert InValue(SAME_CLASS, OUTER.fields[0].val, 1) == [[]];
    assert InFields(SAME_CLASS, OUTER, 1, 1) == [];
    assert [Name("inner")] + [] == [Name("inner")];
    assert Below(Name("inner"), [[]]) == [[Name("inner")]];
  }

  lemma ExampleClaims()
    ensures PlainNames(OUTER) && DistinctNames(FIELD_FIRST)
    ensures Claims(SAME_CLASS, OUTER, FIELD_FIRST) ==
      [Claim(FIELD_FIRST[0], [Name("inner")]), Claim(FIELD_FIRST[1], [])]
    ensures NoConflict(Claims(SAME_CLASS, OUTER, FIELD_FIRST))
  {
    ExampleTops();
    OneClaim(SAME_CLASS, OUTER, FIELD_FIRST[0], [Name("inner")]);
    OneClaim(SAME_CLASS, OUTER, FIELD_FIRST[1], []);
    assert FIELD_FIRST[1..] == [FIELD_FIRST[1]] && FIELD_FIRST[1..][1..] == [];
    assert Claims(SAME_CLASS, OUTER, FIELD_FIRST[1..]) == [Claim(FIELD_FIRST[1], [])];
    FieldAndRoot(Claim(FIELD_FIRST[0], [Name("inner")]), Claim(FIELD_FIRST[1], []));
  }

  /** The node lies beside everything any override wants. */
  ghost predicate BesideWanted<D>(isa: Isa, t: Tree<D>, active: seq<Override<D>>, q: Path) {
    forall k, p | 0 <= k < |active| && Wanted(isa, t, active[k], p) :: Incomparable(p, q)
  }

  lemma BesideClaims<D>(isa: Isa, t: Tree<D>, active: seq<Override<D>>, q: Path)
    requires PlainNames(t) && DistinctNames(active) && BesideWanted(isa, t, active, q)
    ensures forall i | 0 <= i < |Claims(isa, t, active)| :: Incomparable(Claims(isa, t, active)[i].path, q)
  {
    var claims := Claims(isa, t, active);
    ClaimedByActive(isa, t, active);
    forall i | 0 <= i < |claims|
      ensures Incomparable(claims[i].path, q)
    {
      assert claims[i] in claims;
      var k :| 0 <= k < |active| && active[k] == claims[i].ov;
      ClaimedIsWanted(isa, t, active, k, claims[i].path);
    }
  }

  /** What an accepted set of overrides does, in whatever order it is applied: every claimed
      node is its factory's product from the original node, and every node that is neither
      claimed nor around or inside a claimed one is as it was. */
  lemma AppliedResult<D>(isa: Isa, t: Tree<D>, active: seq<Override<D>>, order: seq<Rep<D>>, q: Path)
    requires PlainNames(t) && DistinctNames(active) && NoConflict(Claims(isa, t, active))
    requires forall i | 0 <= i < |Claims(isa, t, active)| :: Claims(isa, t, active)[i].path != []
    requires Valid(t, Claims(isa, t, active))
    requires multiset(order) == multiset(Replacements(t, Claims(isa, t, active)))
    ensures Applicable(t, order)
    ensures var claims := Claims(isa, t, active); var tree := ApplyReps(t, order);
      && (forall i | 0 <= i < |claims| ::
            Get(tree, claims[i].path) == Some(claims[i].ov.factory(Get(t, claims[i].path).value)))
      && (BesideWanted(isa, t, active, q) ==> Get(tree, q) == Get(t, q))
  {
    var claims := Claims(isa, t, active);
    var reps := Replacements(t, claims);
    AcceptedAreApart(t, claims);
    OrderApplicable(t, reps, order);
    AnyOrder(t, order, reps);
    forall i | 0 <= i < |claims|
      ensures Get(ApplyReps(t, reps), claims[i].path) == Some(claims[i].ov.factory(Get(t, claims[i].path).value))
    {
      Replaced(t, reps, i);
    }
    if BesideWanted(isa, t, active, q) {
      BesideClaims(isa, t, active, q);
      Unclaimed(t, reps, q);
    }
  }
}
