/** Which module owns which autograd node: the walk behind `_record_grad_fn`, and its order
    over nested module calls. */
module GradFnWalk {

  /** `next_functions` of every node, without missing parents. */
  type Graph<N> = map<N, seq<N>>

  ghost predicate Closed<N>(g: Graph<N>) {
    forall n, m | n in g && m in g[n] :: m in g
  }

  // ----- reachable nodes -----

  /** A walk along the graph that keeps off the boundary. */
  ghost predicate IsPath<N>(g: Graph<N>, boundary: set<N>, p: seq<N>) {
    && p != []
    && (forall i | 0 <= i < |p| :: p[i] in g && p[i] !in boundary)
    && forall i, j | 0 <= i < j < |p| && j == i + 1 :: p[j] in g[p[i]]
  }

  ghost predicate Reaches<N(!new)>(g: Graph<N>, boundary: set<N>, root: N, n: N) {
    exists p :: IsPath(g, boundary, p) && p[0] == root && p[|p| - 1] == n
  }

  lemma ReachSelf<N(!new)>(g: Graph<N>, boundary: set<N>, n: N)
    requires n in g && n !in boundary
    ensures Reaches(g, boundary, n, n)
  {
    assert IsPath(g, boundary, [n]);
  }

  lemma ReachNext<N(!new)>(g: Graph<N>, boundary: set<N>, root: N, n: N, m: N)
    requires Reaches(g, boundary, root, n) && n in g && m in g[n] && m in g && m !in boundary
    ensures Reaches(g, boundary, root, m)
  {
    var p :| IsPath(g, boundary, p) && p[0] == root && p[|p| - 1] == n;
    assert IsPath(g, boundary, p + [m]);
    assert (p + [m])[0] == root && (p + [m])[|p|] == m;
  }

  /** A set that holds the root and every next node off the boundary holds all reachable ones. */
  lemma {:induction false} ClosedHoldsReach<N>(g: Graph<N>, boundary: set<N>, s: set<N>, p: seq<N>)
    requires IsPath(g, boundary, p) && p[0] in s
    requires forall n, m | n in s && n in g && m in g[n] && m !in boundary :: m in s
    ensures p[|p| - 1] in s
  {
    if |p| > 1 {
      var init := p[..|p| - 1];
      assert IsPath(g, boundary, init);
      ClosedHoldsReach(g, boundary, s, init);
      assert p[|p| - 1] in g[p[|p| - 2]];
    }
  }

  ghost function ReachSet<N(!new)>(g: Graph<N>, boundary: set<N>, roots: seq<N>): (r: set<N>)
    ensures forall n :: n in r <==> ReachedFrom(g, boundary, roots, n)
  {
    assert forall n | ReachedFrom(g, boundary, roots, n) :: n in g.Keys by { ReachedIn(g, boundary, roots); }
    set n | n in g && ReachedFrom(g, boundary, roots, n)
  }

  ghost predicate ReachedFrom<N(!new)>(g: Graph<N>, boundary: set<N>, roots: seq<N>, n: N) {
    exists r :: r in roots && Reaches(g, boundary, r, n)
  }

  lemma ReachedIn<N(!new)>(g: Graph<N>, boundary: set<N>, roots: seq<N>)
    ensures forall n | ReachedFrom(g, boundary, roots, n) :: n in g
  {
  }

  lemma OneRoot<N(!new)>(g: Graph<N>, boundary: set<N>, root: N)
    ensures forall n :: ReachedFrom(g, boundary, [root], n) <==> Reaches(g, boundary, root, n)
  {
    assert root in [root];
    assert forall r | r in [root] :: r == root;
  }

  // ----- the walk -----

  /** Unclaimed nodes of s get the module's name. */
  function Claim<N>(owners: map<N, string>, name: string, s: set<N>): map<N, string> {
    owners + map n | n in s && n !in owners :: name
  }

  /** What the stack loop keeps true: everything visited or waiting is reachable or on the
      boundary, and nothing reachable has been dropped. */
  ghost predicate Walking<N(!new)>(g: Graph<N>, boundary: set<N>, root: N, stack: seq<N>, visited: set<N>) {
    && (forall n | n in visited :: n in g && Reaches(g, boundary, root, n))
    && (forall n | n in stack :: n in g && (n in boundary || Reaches(g, boundary, root, n)))
    && (root in visited || root in boundary || root in stack)
    && forall n, m | n in visited && m in g[n] :: m in visited || m in boundary || m in stack
  }

  lemma WalkSkips<N(!new)>(g: Graph<N>, boundary: set<N>, root: N, stack: seq<N>, visited: set<N>)
    requires Walking(g, boundary, root, stack, visited) && stack != []
    requires stack[|stack| - 1] in visited || stack[|stack| - 1] in boundary
    ensures Walking(g, boundary, root, stack[..|stack| - 1], visited)
  {
    assert stack == stack[..|stack| - 1] + [stack[|stack| - 1]];
  }

  /** The not yet visited next nodes, in order. */
  function Fresh<N(==)>(next: seq<N>, visited: set<N>): seq<N> {
    if next == [] then [] else (if next[0] in visited then [] else [next[0]]) + Fresh(next[1..], visited)
  }

  lemma {:induction false} InFresh<N>(next: seq<N>, visited: set<N>, m: N)
    ensures m in Fresh(next, visited) <==> m in next && m !in visited
  {
    if next != [] {
      InFresh(next[1..], visited, m);
      assert next == [next[0]] + next[1..];
    }
  }

  lemma WalkVisits<N(!new)>(g: Graph<N>, boundary: set<N>, root: N, stack: seq<N>, visited: set<N>)
    requires Closed(g) && Walking(g, boundary, root, stack, visited) && stack != []
    requires stack[|stack| - 1] !in visited && stack[|stack| - 1] !in boundary
    ensures stack[|stack| - 1] in g
    ensures var n := stack[|stack| - 1];
      Walking(g, boundary, root, stack[..|stack| - 1] + Fresh(g[n], visited + {n}), visited + {n})
  {
    var n, rest := stack[|stack| - 1], stack[..|stack| - 1];
    assert stack == rest + [n];
    var now := visited + {n};
    var s := rest + Fresh(g[n], now);
    forall m
      ensures m in Fresh(g[n], now) <==> m in g[n] && m !in now
    {
      InFresh(g[n], now, m);
    }
    forall m | m in s
      ensures m in g && (m in boundary || Reaches(g, boundary, root, m))
    {
      if m !in rest && m !in boundary {
        ReachNext(g, boundary, root, n, m);
      }
    }
  }

  /** With an empty stack the visited nodes are exactly the reachable ones. */
  lemma WalkDone<N(!new)>(g: Graph<N>, boundary: set<N>, root: N, visited: set<N>)
    requires root in g && Walking(g, boundary, root, [], visited)
    ensures forall n :: n in visited <==> Reaches(g, boundary, root, n)
  {
    forall n | Reaches(g, boundary, root, n)
      ensures n in visited
    {
      var p :| IsPath(g, boundary, p) && p[0] == root && p[|p| - 1] == n;
      ClosedHoldsReach(g, boundary, visited, p);
    }
  }

  lemma WalkStarts<N(!new)>(g: Graph<N>, boundary: set<N>, root: N)
    requires root in g
    ensures Walking(g, boundary, root, [root], {})
  {
    if root !in boundary {
      ReachSelf(g, boundary, root);
    }
  }

  lemma ClaimOne<N>(owners: map<N, string>, name: string, s: set<N>, n: N)
    ensures Claim(owners, name, s + {n}) ==
      if n in Claim(owners, name, s) then Claim(owners, name, s) else Claim(owners, name, s)[n := name]
  {
  }

  /** The walk from one output: it ends, claims exactly the unclaimed nodes reachable without
      crossing the boundary, and leaves every earlier owner. */
  method WalkOutput<N(!new, ==)>(g: Graph<N>, boundary: set<N>, root: N, name: string, owners: map<N, string>)
    returns (now: map<N, string>)
    requires Closed(g) && root in g
    ensures now == Claim(owners, name, ReachSet(g, boundary, [root]))
  {
    now := owners;
    var stack := [root];
    var visited: set<N> := {};
    WalkStarts(g, boundary, root);
    while stack != []
      invariant Walking(g, boundary, root, stack, visited) && now == Claim(owners, name, visited)
      decreases g.Keys - visited, |stack|
    {
      var fn := stack[|stack| - 1];
      if fn in visited || fn in boundary {
        WalkSkips(g, boundary, root, stack, visited);
        stack := stack[..|stack| - 1];
        continue;
      }
      WalkVisits(g, boundary, root, stack, visited);
      ClaimOne(owners, name, visited, fn);
      visited := visited + {fn};
      if fn !in now {
        now := now[fn := name];
      }
      stack := stack[..|stack| - 1] + Fresh(g[fn], visited);
    }
    WalkDone(g, boundary, root, visited);
    OneRoot(g, boundary, root);
    assert visited == ReachSet(g, boundary, [root]);
  }

  lemma ClaimTwice<N>(owners: map<N, string>, name: string, s: set<N>, t: set<N>)
    ensures Claim(Claim(owners, name, s), name, t) == Claim(owners, name, s + t)
  {
  }

  /** `_record_grad_fn` over all output tensors with a grad_fn. */
  method RecordGradFn<N(!new, ==)>(g: Graph<N>, outputs: seq<N>, name: string, boundary: set<N>, owners: map<N, string>)
    returns (now: map<N, string>)
    requires Closed(g) && forall r | r in outputs :: r in g
    ensures now == Claim(owners, name, ReachSet(g, boundary, outputs))
  {
    now := owners;
    ghost var done: set<N> := {};
    for k := 0 to |outputs|
      invariant now == Claim(owners, name, done)
      invariant forall n :: n in done <==> exists i :: 0 <= i < k && Reaches(g, boundary, outputs[i], n)
    {
      now := WalkOutput(g, boundary, outputs[k], name, now);
      OneRoot(g, boundary, outputs[k]);
      ghost var reached := ReachSet(g, boundary, [outputs[k]]);
      ClaimTwice(owners, name, done, reached);
      done := done + reached;
    }
    forall n
      ensures n in done <==> ReachedFrom(g, boundary, outputs, n)
    {
      if i :| 0 <= i < |outputs| && Reaches(g, boundary, outputs[i], n) {
        assert outputs[i] in outputs;
      }
    }
    assert done == ReachSet(g, boundary, outputs);
  }

  // ----- nested module calls -----

  /** One module call of the forward pass: the grad_fns of its inputs and outputs, and the
      calls made inside it. */
  datatype Call<N> = Call(mod: nat, inputs: set<N>, outputs: seq<N>, kids: seq<Call<N>>)

  /** A finished call's name and the nodes it reaches. */
  datatype Finished<N> = Finished(name: string, nodes: set<N>)

  function Mods<N>(cs: seq<Call<N>>): set<nat> {
    if cs == [] then {} else {cs[0].mod} + Mods(cs[0].kids) + Mods(cs[1..])
  }

  /** No module is called again inside its own call. */
  predicate NoReentry<N>(cs: seq<Call<N>>) {
    cs != [] ==> cs[0].mod !in Mods(cs[0].kids) && NoReentry(cs[0].kids) && NoReentry(cs[1..])
  }

  ghost predicate InGraph<N>(g: Graph<N>, cs: seq<Call<N>>) {
    cs != [] ==> (forall r | r in cs[0].outputs :: r in g) && InGraph(g, cs[0].kids) && InGraph(g, cs[1..])
  }

  /** The calls of named modules in the order they finish: inner ones first. */
  ghost function FinishOrder<N(!new)>(g: Graph<N>, names: map<nat, string>, cs: seq<Call<N>>): seq<Finished<N>> {
    if cs == [] then []
    else FinishOrder(g, names, cs[0].kids) + Own(g, names, cs[0]) + FinishOrder(g, names, cs[1..])
  }

  ghost function Own<N(!new)>(g: Graph<N>, names: map<nat, string>, c: Call<N>): seq<Finished<N>> {
    if c.mod in names then [Finished(names[c.mod], ReachSet(g, c.inputs, c.outputs))] else []
  }

  function ClaimAll<N>(owners: map<N, string>, fs: seq<Finished<N>>): map<N, string>
    decreases |fs|
  {
    if fs == [] then owners else ClaimAll(Claim(owners, fs[0].name, fs[0].nodes), fs[1..])
  }

  lemma {:induction false} ClaimAllJoin<N>(owners: map<N, string>, a: seq<Finished<N>>, b: seq<Finished<N>>)
    ensures ClaimAll(owners, a + b) == ClaimAll(ClaimAll(owners, a), b)
    decreases |a|
  {
    if a == [] {
      assert a + b == b;
    } else {
      assert (a + b)[0] == a[0] && (a + b)[1..] == a[1..] + b;
      ClaimAllJoin(Claim(owners, a[0].name, a[0].nodes), a[1..], b);
    }
  }

  lemma {:induction false} EarlierOwnersStay<N>(owners: map<N, string>, fs: seq<Finished<N>>, n: N)
    requires n in owners
    ensures n in ClaimAll(owners, fs) && ClaimAll(owners, fs)[n] == owners[n]
    decreases |fs|
  {
    if fs != [] {
      EarlierOwnersStay(Claim(owners, fs[0].name, fs[0].nodes), fs[1..], n);
    }
  }

  /** A node without an owner gets one exactly when some call reaches it, and then the first
      such call to finish. */
  lemma {:induction false} FirstFinisherOwns<N>(owners: map<N, string>, fs: seq<Finished<N>>, n: N)
    requires n !in owners
    ensures n in ClaimAll(owners, fs) <==> exists k :: 0 <= k < |fs| && n in fs[k].nodes
    ensures forall k | 0 <= k < |fs| && n in fs[k].nodes && (forall i | 0 <= i < k :: n !in fs[i].nodes) ::
      n in ClaimAll(owners, fs) && ClaimAll(owners, fs)[n] == fs[k].name
    decreases |fs|
  {
    if fs != [] {
      var now := Claim(owners, fs[0].name, fs[0].nodes);
      if n in fs[0].nodes {
        EarlierOwnersStay(now, fs[1..], n);
      } else {
        FirstFinisherOwns(now, fs[1..], n);
        forall k | 0 <= k < |fs|
          ensures n in fs[k].nodes ==> k > 0 && n in fs[1..][k - 1].nodes
        {
        }
        if k :| 0 <= k < |fs[1..]| && n in fs[1..][k].nodes {
          assert n in fs[k + 1].nodes;
        }
      }
    }
  }

  /** `pop(mid, set())` */
  function Pending<N>(pending: map<nat, set<N>>, mod: nat): set<N> {
    if mod in pending then pending[mod] else {}
  }

  /** The tracer's forward hooks: `pendingInputs` is filled before a module runs and emptied
      after it. */
  class GradFnTracer<N(!new, ==)> {
    const graph: Graph<N>
    const names: map<nat, string>
    var owners: map<N, string>
    var pendingInputs: map<nat, set<N>>

    constructor (g: Graph<N>, names: map<nat, string>)
      ensures graph == g && this.names == names && owners == map[] && pendingInputs == map[]
    {
      graph, this.names := g, names;
      owners, pendingInputs := map[], map[];
    }

    method PreForward(mod: nat, inputs: set<N>)
      modifies this`pendingInputs
      ensures pendingInputs == if mod in names then old(pendingInputs)[mod := inputs] else old(pendingInputs)
    {
      if mod in names {
        pendingInputs := pendingInputs[mod := inputs];
      }
    }

    /** A module whose entry is gone walks without a boundary. */
    method PostForward(mod: nat, outputs: seq<N>)
      requires Closed(graph) && forall r | r in outputs :: r in graph
      modifies this
      ensures mod !in names ==> owners == old(owners) && pendingInputs == old(pendingInputs)
      ensures mod in names ==> pendingInputs == old(pendingInputs) - {mod}
      ensures mod in names ==>
        owners == Claim(old(owners), names[mod], ReachSet(graph, Pending(old(pendingInputs), mod), outputs))
    {
      if mod in names {
        var inputs := Pending(pendingInputs, mod);
        pendingInputs := pendingInputs - {mod};
        owners := RecordGradFn(graph, outputs, names[mod], inputs, owners);
      }
    }

    /** A forward pass: the calls one after the other, each with its inner calls between its
        two hooks. Every call walks with its own inputs as boundary, in finish order. */
    method Forward(calls: seq<Call<N>>)
      requires Closed(graph) && InGraph(graph, calls) && NoReentry(calls) && Mods(calls) !! pendingInputs.Keys
      modifies this
      ensures owners == ClaimAll(old(owners), FinishOrder(graph, names, calls))
      ensures pendingInputs == old(pendingInputs)
      decreases calls
    {
      if calls == [] {
        return;
      }
      var c := calls[0];
      PreForward(c.mod, c.inputs);
      Forward(c.kids);
      PostForward(c.mod, c.outputs);
      ghost var kids, own := FinishOrder(graph, names, c.kids), Own(graph, names, c);
      ClaimAllJoin(old(owners), kids, own);
      ClaimAllJoin(old(owners), kids + own, FinishOrder(graph, names, calls[1..]));
      Forward(calls[1..]);
    }
  }
}
