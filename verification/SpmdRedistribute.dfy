/** `spmd_distribute_tensor` and `spmd_redistribute_per_axis`: an accepted layout change,
    carried out as one collective, gives every device what distributing afresh would. */
module SpmdRedistribution {
  import opened Arithmetic
  import opened ShardViews
  import opened SpmdLayouts
  import opened Wrappers

  // ----- collectives -----

  /** Concatenation along d of n equal parts, in rank order. */
  function Gather(parts: nat -> Tensor, n: nat, d: nat): Tensor {
    if d >= |parts(0).shape| then parts(0)
    else
      var m := parts(0).shape[d];
      Tensor(parts(0).shape[d := n * m],
             i => if d < |i| && m > 0 then parts(i[d] / m).at(SetAt(i, d, i[d] % m)) else 0.0)
  }

  function SetAt(i: seq<nat>, d: nat, x: nat): (r: seq<nat>)
    requires d < |i|
    ensures r == i[d := x]
  {
    i[d := x]
  }

  function SumAt(parts: nat -> Tensor, n: nat, i: seq<nat>): real {
    if n == 0 then 0.0 else SumAt(parts, n - 1, i) + parts(n - 1).at(i)
  }

  /** A single addend that is not zero is the sum. */
  lemma {:induction false} OneAddend(parts: nat -> Tensor, n: nat, i: seq<nat>, k: nat)
    requires k < n && forall j: nat | j < n && j != k :: parts(j).at(i) == 0.0
    ensures SumAt(parts, n, i) == parts(k).at(i)
  {
    if k < n - 1 {
      OneAddend(parts, n - 1, i, k);
    } else {
      NoAddend(parts, n - 1, i);
    }
  }

  lemma {:induction false} NoAddend(parts: nat -> Tensor, n: nat, i: seq<nat>)
    requires forall j: nat | j < n :: parts(j).at(i) == 0.0
    ensures SumAt(parts, n, i) == 0.0
  {
    if n > 0 {
      NoAddend(parts, n - 1, i);
    }
  }

  /** Sums add up. */
  lemma {:induction false} SumsAdd(p: nat -> Tensor, q: nat -> Tensor, r: nat -> Tensor, n: nat, i: seq<nat>)
    requires forall j: nat | j < n :: r(j).at(i) == p(j).at(i) + q(j).at(i)
    ensures SumAt(r, n, i) == SumAt(p, n, i) + SumAt(q, n, i)
  {
    if n > 0 {
      SumsAdd(p, q, r, n - 1, i);
    }
  }

  /** Element-wise sum of n parts. */
  function Reduce(parts: nat -> Tensor, n: nat): Tensor {
    Tensor(parts(0).shape, i => SumAt(parts, n, i))
  }

  lemma GatherShows(parts: nat -> Tensor, g: Tensor, v: View, d: nat, n: nat)
    requires v.Valid() && d < |v.len| && n > 0 && v.len[d] % n == 0
    requires forall j: nat | j < n :: Shows(parts(j), g, Narrow(v, d, n, j))
    ensures Shows(Gather(parts, n, d), g, v)
  {
    var m := v.len[d] / n;
    assert Narrow(v, d, n, 0).len == v.len[d := m];
    assert n * m == v.len[d];
    assert v.len[d := m][d := n * m] == v.len;
    var t := Gather(parts, n, d);
    forall i | InShape(v.len, i)
      ensures t.at(i) == g.at(Shifted(i, v.off))
    {
      GatherAt(parts, g, v, d, n, i);
    }
  }

  /** The chunk a position lies in, and its place there. */
  lemma ChunkIndex(len: nat, n: nat, x: nat)
    requires n > 0 && len % n == 0 && x < len
    ensures var m := len / n; m > 0 && n * m == len && x / m < n && x % m < m && x == m * (x / m) + x % m
  {
    DigitsOf(len, n);
    var m := len / n;
    assert m > 0;
    DigitsOf(x, m);
    QuotientBelow(m, x / m, x % m, n);
  }

  lemma QuotientBelow(m: nat, q: nat, r: nat, n: nat)
    requires m * q + r < n * m
    ensures q < n
  {
    if q >= n {
      MulGrows(m, n, q);
    }
  }

  lemma GatherAt(parts: nat -> Tensor, g: Tensor, v: View, d: nat, n: nat, i: seq<nat>)
    requires v.Valid() && d < |v.len| && n > 0 && v.len[d] % n == 0
    requires forall j: nat | j < n :: Shows(parts(j), g, Narrow(v, d, n, j))
    requires InShape(v.len, i)
    ensures Gather(parts, n, d).at(i) == g.at(Shifted(i, v.off))
  {
    var m := v.len[d] / n;
    assert Narrow(v, d, n, 0).len == v.len[d := m];
    assert i[d] < v.len[d];
    ChunkIndex(v.len[d], n, i[d]);
    var j := i[d] / m;
    var w := Narrow(v, d, n, j);
    var k := SetAt(i, d, i[d] % m);
    assert InShape(w.len, k);
    assert Shows(parts(j), g, w);
    assert Shifted(k, w.off) == Shifted(i, v.off);
  }

  lemma {:induction false} SumAtShows(parts: nat -> Tensor, gs: nat -> Tensor, v: View, n: nat, i: seq<nat>)
    requires forall j: nat | j < n :: Shows(parts(j), gs(j), v)
    requires v.Valid() && InShape(v.len, i)
    ensures SumAt(parts, n, i) == SumAt(gs, n, Shifted(i, v.off))
  {
    if n > 0 {
      assert Shows(parts(n - 1), gs(n - 1), v);
      SumAtShows(parts, gs, v, n - 1, i);
    }
  }

  lemma ReduceShows(parts: nat -> Tensor, gs: nat -> Tensor, v: View, n: nat)
    requires n > 0 && forall j: nat | j < n :: Shows(parts(j), gs(j), v)
    ensures Shows(Reduce(parts, n), Reduce(gs, n), v)
  {
    assert Shows(parts(0), gs(0), v);
    forall i | InShape(v.len, i)
      ensures Reduce(parts, n).at(i) == Reduce(gs, n).at(Shifted(i, v.off))
    {
      SumAtShows(parts, gs, v, n, i);
    }
  }

  // ----- views with one axis left out -----

  function Without(steps: seq<Step>, a: MeshAxisName): seq<Step> {
    if steps == [] then []
    else (if steps[0].axis == a then [] else [steps[0]]) + Without(steps[1..], a)
  }

  function Drop(axes: seq<MeshAxisName>, a: MeshAxisName): seq<MeshAxisName> {
    if axes == [] then []
    else (if axes[0] == a then [] else [axes[0]]) + Drop(axes[1..], a)
  }

  lemma {:induction false} WithoutAxes(steps: seq<Step>, a: MeshAxisName, d: nat)
    ensures AxesOf(Without(steps, a), d) == Drop(AxesOf(steps, d), a)
  {
    if steps != [] {
      WithoutAxes(steps[1..], a, d);
      var first := if steps[0].axis == a then [] else [steps[0]];
      AxesOfJoin(first, Without(steps[1..], a), d);
      var rest := AxesOf(steps[1..], d);
      if steps[0].dim == d {
        assert ([steps[0].axis] + rest)[1..] == rest;
      } else {
        assert [] + rest == rest;
      }
    }
  }

  lemma {:induction false} DropAbsent(axes: seq<MeshAxisName>, a: MeshAxisName)
    requires a !in axes
    ensures Drop(axes, a) == axes
  {
    if axes != [] {
      DropAbsent(axes[1..], a);
    }
  }

  lemma {:induction false} DropLast(axes: seq<MeshAxisName>, a: MeshAxisName)
    requires a !in axes
    ensures Drop(axes + [a], a) == axes
  {
    if axes == [] {
      assert Drop([a], a) == [] + Drop([], a);
    } else {
      assert (axes + [a])[1..] == axes[1..] + [a];
      DropLast(axes[1..], a);
    }
  }

  lemma {:induction false} DropLacks(axes: seq<MeshAxisName>, a: MeshAxisName)
    ensures a !in Drop(axes, a)
  {
    if axes != [] {
      DropLacks(axes[1..], a);
    }
  }

  lemma {:induction false} ChainSnoc(off: nat, len: nat, axes: seq<MeshAxisName>, a: MeshAxisName, mesh: Mesh, c: Coord)
    requires Sized(mesh)
    ensures var (o, l) := Chain(off, len, axes, mesh, c);
      Chain(off, len, axes + [a], mesh, c) == (o + Place(c, a) * (l / Size(mesh, a)), l / Size(mesh, a))
    decreases |axes|
  {
    if axes == [] {
      assert axes + [a] == [a] && [a][1..] == [];
    } else {
      assert (axes + [a])[0] == axes[0] && (axes + [a])[1..] == axes[1..] + [a];
      var m := len / Size(mesh, axes[0]);
      ChainSnoc(off + Place(c, axes[0]) * m, m, axes[1..], a, mesh, c);
    }
  }

  lemma {:induction false} ChainIgnores(off: nat, len: nat, axes: seq<MeshAxisName>, a: MeshAxisName, j: nat,
                                        mesh: Mesh, c: Coord)
    requires Sized(mesh) && a !in axes
    ensures Chain(off, len, axes, mesh, c[a := j]) == Chain(off, len, axes, mesh, c)
    decreases |axes|
  {
    if axes != [] {
      var m := len / Size(mesh, axes[0]);
      assert Place(c[a := j], axes[0]) == Place(c, axes[0]);
      ChainIgnores(off + Place(c, axes[0]) * m, m, axes[1..], a, j, mesh, c);
    }
  }

  /** The view all devices along axis a share once it no longer slices anything. */
  ghost function Merged(shape: seq<nat>, steps: seq<Step>, a: MeshAxisName, mesh: Mesh, c: Coord): (r: View)
    requires Sized(mesh)
    ensures r.Valid() && |r.len| == |shape|
  {
    ViewOf(Whole(shape), Without(steps, a), mesh, c)
  }

  lemma MergedIgnores(shape: seq<nat>, steps: seq<Step>, a: MeshAxisName, j: nat, mesh: Mesh, c: Coord)
    requires Sized(mesh)
    ensures Merged(shape, steps, a, mesh, c[a := j]) == Merged(shape, steps, a, mesh, c)
  {
    var x, y := Merged(shape, steps, a, mesh, c[a := j]), Merged(shape, steps, a, mesh, c);
    forall d: nat | d < |shape|
      ensures x.off[d] == y.off[d] && x.len[d] == y.len[d]
    {
      WithoutAxes(steps, a, d);
      DropLacks(AxesOf(steps, d), a);
      ChainIgnores(0, shape[d], AxesOf(Without(steps, a), d), a, j, mesh, c);
    }
    assert x.off == y.off && x.len == y.len;
  }

  /** An axis that slices nothing can be left out. */
  lemma MergedUnsliced(shape: seq<nat>, steps: seq<Step>, a: MeshAxisName, mesh: Mesh, c: Coord)
    requires Sized(mesh) && forall d: nat :: a !in AxesOf(steps, d)
    ensures ViewOf(Whole(shape), steps, mesh, c) == Merged(shape, steps, a, mesh, c)
  {
    var x, y := ViewOf(Whole(shape), steps, mesh, c), Merged(shape, steps, a, mesh, c);
    forall d: nat | d < |shape|
      ensures x.off[d] == y.off[d] && x.len[d] == y.len[d]
    {
      WithoutAxes(steps, a, d);
      DropAbsent(AxesOf(steps, d), a);
    }
    assert x.off == y.off && x.len == y.len;
  }

  /** The axis slices exactly dimension e, as its innermost axis. */
  ghost predicate Innermost(steps: seq<Step>, a: MeshAxisName, e: nat) {
    && a !in Drop(AxesOf(steps, e), a) && AxesOf(steps, e) == Drop(AxesOf(steps, e), a) + [a]
    && forall d: nat | d != e :: a !in AxesOf(steps, d)
  }

  /** An innermost axis narrows the merged view by its own coordinate. */
  lemma MergedNarrows(shape: seq<nat>, steps: seq<Step>, a: MeshAxisName, e: nat, mesh: Mesh, c: Coord)
    requires Sized(mesh) && Innermost(steps, a, e) && e < |shape|
    ensures ViewOf(Whole(shape), steps, mesh, c) ==
      Narrow(Merged(shape, steps, a, mesh, c), e, Size(mesh, a), Place(c, a))
  {
    var x := ViewOf(Whole(shape), steps, mesh, c);
    var y := Narrow(Merged(shape, steps, a, mesh, c), e, Size(mesh, a), Place(c, a));
    forall d: nat | d < |shape|
      ensures x.off[d] == y.off[d] && x.len[d] == y.len[d]
    {
      WithoutAxes(steps, a, d);
      if d == e {
        ChainSnoc(0, shape[d], Drop(AxesOf(steps, d), a), a, mesh, c);
      } else {
        DropAbsent(AxesOf(steps, d), a);
      }
    }
    assert x.off == y.off && x.len == y.len;
  }

  // ----- even splits -----

  ghost predicate EvenChain(len: nat, axes: seq<MeshAxisName>, mesh: Mesh)
    requires Sized(mesh)
    decreases |axes|
  {
    axes == [] || (len % Size(mesh, axes[0]) == 0 && EvenChain(len / Size(mesh, axes[0]), axes[1..], mesh))
  }

  lemma {:induction false} EvenPerDim(shape: seq<nat>, steps: seq<Step>, mesh: Mesh, d: nat)
    requires Sized(mesh) && Even(shape, steps, mesh) && d < |shape|
    ensures EvenChain(shape[d], AxesOf(steps, d), mesh)
    decreases |steps|
  {
    if steps != [] {
      var e, n := steps[0].dim, Size(mesh, steps[0].axis);
      EvenPerDim(shape[e := shape[e] / n], steps[1..], mesh, d);
      if e == d {
        assert AxesOf(steps, d)[1..] == AxesOf(steps[1..], d);
      } else {
        assert AxesOf(steps, d) == AxesOf(steps[1..], d);
      }
    }
  }

  lemma {:induction false} EvenLast(off: nat, len: nat, axes: seq<MeshAxisName>, a: MeshAxisName, mesh: Mesh, c: Coord)
    requires Sized(mesh) && EvenChain(len, axes + [a], mesh)
    ensures Chain(off, len, axes, mesh, c).1 % Size(mesh, a) == 0
    decreases |axes|
  {
    if axes != [] {
      assert (axes + [a])[1..] == axes[1..] + [a];
      var m := len / Size(mesh, axes[0]);
      EvenLast(off + Place(c, axes[0]) * m, m, axes[1..], a, mesh, c);
    }
  }

  lemma MergedSplits(shape: seq<nat>, steps: seq<Step>, a: MeshAxisName, e: nat, mesh: Mesh, c: Coord)
    requires Sized(mesh) && Innermost(steps, a, e) && e < |shape| && Even(shape, steps, mesh)
    ensures Merged(shape, steps, a, mesh, c).len[e] % Size(mesh, a) == 0
  {
    EvenPerDim(shape, steps, mesh, e);
    WithoutAxes(steps, a, e);
    EvenLast(0, shape[e], Drop(AxesOf(steps, e), a), a, mesh, c);
  }

  // ----- one move -----

  type Locals = Coord -> Tensor

  /** The device at position j of c's group along axis a. */
  function Peer(c: Coord, a: MeshAxisName, j: nat): Coord {
    c[a := j]
  }

  /** What the devices of c's group along axis a hold. */
  function Group(x: Locals, a: MeshAxisName, c: Coord): nat -> Tensor {
    (j: nat) => x(Peer(c, a, j))
  }

  /** First half of a per-axis redistribute: the axis stops sharding or summing. */
  function Leave(x: Locals, a: MeshAxisName, t: AxisType, mesh: Mesh, c: Coord): Tensor {
    match t
    case S(d) => Gather(Group(x, a, c), Size(mesh, a), d)
    case P => Reduce(Group(x, a, c), Size(mesh, a))
    case _ => x(c)
  }

  /** Second half: the axis starts sharding. */
  function Enter(t: Tensor, a: MeshAxisName, to: AxisType, mesh: Mesh, c: Coord): Tensor {
    match to
    case S(d) => if Splits(t, d, Size(mesh, a)) && Place(c, a) < Size(mesh, a)
      then Slice(t, d, Size(mesh, a), Place(c, a)) else t
    case _ => t
  }

  /** `spmd.redistribute` on one axis: all-gather, all-reduce, reduce-scatter, all-to-all or
      a local slice, as the two types ask. */
  function Redistribute(x: Locals, a: MeshAxisName, src: AxisType, dst: AxisType, mesh: Mesh): Locals {
    c => Enter(Leave(x, a, src, mesh, c), a, dst, mesh, c)
  }

  /** The value being represented: partial sums along the axis are added up. */
  function Value(f: Locals, a: MeshAxisName, src: AxisType, mesh: Mesh, c: Coord): Tensor {
    if src == P then Reduce(Group(f, a, c), Size(mesh, a)) else f(c)
  }

  /** Axis a slices the dimension its type says, innermost, or nothing. */
  ghost predicate SlicesAs(steps: seq<Step>, a: MeshAxisName, t: AxisType) {
    match t
    case S(d) => Innermost(steps, a, d)
    case _ => forall d: nat :: a !in AxesOf(steps, d)
  }

  lemma WholeShows(t: Tensor)
    ensures Shows(t, t, Whole(t.shape))
  {
    forall i | InShape(t.shape, i)
      ensures Shifted(i, Whole(t.shape).off) == i
    {
    }
  }

  ghost predicate ShowsAll(x: Locals, f: Locals, shape: seq<nat>, steps: seq<Step>, mesh: Mesh)
    requires Sized(mesh)
  {
    forall c | OnMesh(mesh, c) :: Shows(x(c), f(c), ViewOf(Whole(shape), steps, mesh, c))
  }

  /** All devices hold what `spmd_distribute_tensor` gives them. */
  ghost predicate Distributed(x: Locals, f: Locals, shape: seq<nat>, steps: seq<Step>, mesh: Mesh) {
    Even(shape, steps, mesh) &&
    forall c | OnMesh(mesh, c) :: f(c).shape == shape && Same(x(c), Distribute(f(c), steps, mesh, c))
  }

  lemma DistributedShows(x: Locals, f: Locals, shape: seq<nat>, steps: seq<Step>, mesh: Mesh)
    requires Sized(mesh) && Distributed(x, f, shape, steps, mesh)
    ensures ShowsAll(x, f, shape, steps, mesh)
  {
    forall c | OnMesh(mesh, c)
      ensures Shows(x(c), f(c), ViewOf(Whole(shape), steps, mesh, c))
    {
      WholeShows(f(c));
      DistributeShows(f(c), f(c), Whole(shape), steps, mesh, c);
    }
  }

  lemma ShowsDistributed(x: Locals, f: Locals, shape: seq<nat>, steps: seq<Step>, mesh: Mesh)
    requires Sized(mesh) && Even(shape, steps, mesh) && ShowsAll(x, f, shape, steps, mesh)
    requires forall c | OnMesh(mesh, c) :: f(c).shape == shape
    ensures Distributed(x, f, shape, steps, mesh)
  {
    forall c | OnMesh(mesh, c)
      ensures Same(x(c), Distribute(f(c), steps, mesh, c))
    {
      WholeShows(f(c));
      DistributeShows(f(c), f(c), Whole(shape), steps, mesh, c);
      ShownSame(x(c), Distribute(f(c), steps, mesh, c), f(c), ViewOf(Whole(shape), steps, mesh, c));
    }
  }

  /** Along axis a all addends agree: the axis carries no partial sum. */
  ghost predicate Agrees(f: Locals, a: MeshAxisName, mesh: Mesh) {
    forall c, j: nat | OnMesh(mesh, c) && j < Size(mesh, a) :: f(Peer(c, a, j)) == f(c)
  }

  lemma PeerShows(x: Locals, f: Locals, shape: seq<nat>, steps: seq<Step>, a: MeshAxisName, mesh: Mesh, c: Coord,
                  j: nat)
    requires Sized(mesh) && OnMesh(mesh, c) && a in mesh && j < mesh[a]
    requires ShowsAll(x, f, shape, steps, mesh)
    ensures Shows(x(Peer(c, a, j)), f(Peer(c, a, j)), ViewOf(Whole(shape), steps, mesh, Peer(c, a, j)))
  {
    assert OnMesh(mesh, Peer(c, a, j));
  }

  /** The j-th peer's shard is the j-th piece of the merged view. */
  lemma ShardShows(x: Locals, f: Locals, shape: seq<nat>, steps: seq<Step>, a: MeshAxisName, d: nat, mesh: Mesh,
                   c: Coord,
                   j: nat)
    requires Sized(mesh) && OnMesh(mesh, c) && a in mesh && j < mesh[a]
    requires ShowsAll(x, f, shape, steps, mesh) && Innermost(steps, a, d) && d < |shape| && Agrees(f, a, mesh)
    ensures Shows(x(Peer(c, a, j)), f(c), Narrow(Merged(shape, steps, a, mesh, c), d, mesh[a], j))
  {
    PeerShows(x, f, shape, steps, a, mesh, c, j);
    MergedIgnores(shape, steps, a, j, mesh, c);
    MergedNarrows(shape, steps, a, d, mesh, Peer(c, a, j));
    assert f(Peer(c, a, j)) == f(c);
  }

  lemma GroupShows(x: Locals, f: Locals, shape: seq<nat>, steps: seq<Step>, a: MeshAxisName, d: nat, mesh: Mesh,
                   c: Coord)
    requires Sized(mesh) && OnMesh(mesh, c) && a in mesh
    requires ShowsAll(x, f, shape, steps, mesh) && Innermost(steps, a, d) && d < |shape| && Agrees(f, a, mesh)
    ensures forall j: nat | j < mesh[a] ::
      Shows(Group(x, a, c)(j), f(c), Narrow(Merged(shape, steps, a, mesh, c), d, mesh[a], j))
  {
    forall j: nat | j < mesh[a]
      ensures Shows(Group(x, a, c)(j), f(c), Narrow(Merged(shape, steps, a, mesh, c), d, mesh[a], j))
    {
      ShardShows(x, f, shape, steps, a, d, mesh, c, j);
    }
  }

  lemma LeaveShard(x: Locals, f: Locals, shape: seq<nat>, steps: seq<Step>, a: MeshAxisName, d: nat, mesh: Mesh,
                   c: Coord)
    requires Sized(mesh) && OnMesh(mesh, c) && a in mesh && Even(shape, steps, mesh)
    requires ShowsAll(x, f, shape, steps, mesh) && Innermost(steps, a, d) && d < |shape| && Agrees(f, a, mesh)
    ensures Shows(Gather(Group(x, a, c), mesh[a], d), f(c), Merged(shape, steps, a, mesh, c))
  {
    var v := Merged(shape, steps, a, mesh, c);
    assert forall j: nat | j < mesh[a] :: Shows(Group(x, a, c)(j), f(c), Narrow(v, d, mesh[a], j)) by {
      GroupShows(x, f, shape, steps, a, d, mesh, c);
    }
    assert v.len[d] % mesh[a] == 0 by {
      MergedSplits(shape, steps, a, d, mesh, c);
    }
    GatherShows(Group(x, a, c), f(c), v, d, mesh[a]);
  }

  lemma LeavePartial(x: Locals, f: Locals, shape: seq<nat>, steps: seq<Step>, a: MeshAxisName, mesh: Mesh, c: Coord)
    requires Sized(mesh) && OnMesh(mesh, c) && a in mesh
    requires ShowsAll(x, f, shape, steps, mesh) && forall d: nat :: a !in AxesOf(steps, d)
    ensures Shows(Leave(x, a, P, mesh, c), Value(f, a, P, mesh, c), Merged(shape, steps, a, mesh, c))
  {
    var n, v := mesh[a], Merged(shape, steps, a, mesh, c);
    forall j: nat | j < n
      ensures Shows(Group(x, a, c)(j), Group(f, a, c)(j), v)
    {
      PeerShows(x, f, shape, steps, a, mesh, c, j);
      MergedIgnores(shape, steps, a, j, mesh, c);
      MergedUnsliced(shape, steps, a, mesh, Peer(c, a, j));
    }
    ReduceShows(Group(x, a, c), Group(f, a, c), v, n);
  }

  /** After the first half every device shows the merged view of the represented value. */
  lemma LeaveShows(x: Locals, f: Locals, shape: seq<nat>, steps: seq<Step>, a: MeshAxisName, t: AxisType,
                   mesh: Mesh, c: Coord)
    requires Sized(mesh) && OnMesh(mesh, c) && a in mesh && Even(shape, steps, mesh)
    requires ShowsAll(x, f, shape, steps, mesh) && SlicesAs(steps, a, t) && (t.S? ==> t.dim < |shape|)
    requires t != P ==> Agrees(f, a, mesh)
    ensures Shows(Leave(x, a, t, mesh, c), Value(f, a, t, mesh, c), Merged(shape, steps, a, mesh, c))
  {
    match t
    case S(d) => LeaveShard(x, f, shape, steps, a, d, mesh, c);
    case P => LeavePartial(x, f, shape, steps, a, mesh, c);
    case _ => MergedUnsliced(shape, steps, a, mesh, c);
  }

  /** The second half turns the merged view into the destination's. */
  lemma EnterShows(t: Tensor, g: Tensor, shape: seq<nat>, steps: seq<Step>, a: MeshAxisName, to: AxisType,
                   mesh: Mesh, c: Coord)
    requires Sized(mesh) && OnMesh(mesh, c) && a in mesh && Even(shape, steps, mesh)
    requires SlicesAs(steps, a, to) && (to.S? ==> to.dim < |shape|)
    requires Shows(t, g, Merged(shape, steps, a, mesh, c))
    ensures Shows(Enter(t, a, to, mesh, c), g, ViewOf(Whole(shape), steps, mesh, c))
  {
    if to.S? {
      MergedSplits(shape, steps, a, to.dim, mesh, c);
      MergedNarrows(shape, steps, a, to.dim, mesh, c);
      NarrowShows(t, g, Merged(shape, steps, a, mesh, c), to.dim, Size(mesh, a), Place(c, a));
    } else {
      MergedUnsliced(shape, steps, a, mesh, c);
    }
  }

  /** The axis, where it occurs, is the innermost one. */
  ghost predicate EndsWith(axes: seq<MeshAxisName>, a: MeshAxisName) {
    a in axes ==> axes == Drop(axes, a) + [a]
  }

  /** Apart from one axis both slice in the same order. */
  ghost predicate SameBut(s: seq<Step>, t: seq<Step>, a: MeshAxisName) {
    forall d: nat :: Drop(AxesOf(s, d), a) == Drop(AxesOf(t, d), a)
  }

  lemma MergedAgree(shape: seq<nat>, s: seq<Step>, t: seq<Step>, a: MeshAxisName, mesh: Mesh, c: Coord)
    requires Sized(mesh) && SameBut(s, t, a)
    ensures Merged(shape, s, a, mesh, c) == Merged(shape, t, a, mesh, c)
  {
    var x, y := Merged(shape, s, a, mesh, c), Merged(shape, t, a, mesh, c);
    forall d: nat | d < |shape|
      ensures x.off[d] == y.off[d] && x.len[d] == y.len[d]
    {
      WithoutAxes(s, a, d);
      WithoutAxes(t, a, d);
      assert Drop(AxesOf(s, d), a) == Drop(AxesOf(t, d), a);
    }
    assert x.off == y.off && x.len == y.len;
  }

  // ----- accepted layout changes -----

  lemma MoveEntry(src: Layout, dst: Layout, a: MeshAxisName, d: nat)
    requires WellFormed(src) && WellFormed(dst) && LinkedMove(src, dst)
    requires a in Changed(PerAxis(src), PerAxis(dst))
    ensures Drop(Entry(src, d), a) == Drop(Entry(dst, d), a)
    ensures EndsWith(Entry(src, d), a) && EndsWith(Entry(dst, d), a)
  {
    var s, t, changed := Entry(src, d), Entry(dst, d), Changed(PerAxis(src), PerAxis(dst));
    assert Linked(s, t, changed);
    if s == t {
      ShardTypeIsEntry(src, a, d);
      ShardTypeIsEntry(dst, a, d);
      assert a !in s;
    } else {
      var b :| b in changed && (t == s + [b] || s == t + [b]);
      AtMostOne(changed, a, b);
      var shorter := if t == s + [b] then s else t;
      EntryOnce(src, d);
      EntryOnce(dst, d);
      InitLacks(shorter, a);
      DropLast(shorter, a);
      DropAbsent(shorter, a);
    }
  }

  lemma TypeSlices(l: Layout, a: MeshAxisName)
    requires WellFormed(l) && a in PerAxis(l) && forall d: nat :: EndsWith(AxesOf(Steps(l), d), a)
    ensures SlicesAs(Steps(l), a, PerAxis(l)[a])
  {
    forall d: nat
      ensures a in AxesOf(Steps(l), d) <==> PerAxis(l)[a] == S(d)
    {
      ShardTypeIsEntry(l, a, d);
    }
    if PerAxis(l)[a].S? {
      DropLacks(Entry(l, PerAxis(l)[a].dim), a);
    }
  }

  /** An axis of an accepted move slices as its type says, in both layouts, and the order of
      all other axes is the same. */
  lemma MoveSlices(src: Layout, dst: Layout, a: MeshAxisName)
    requires WellFormed(src) && WellFormed(dst) && LinkedMove(src, dst)
    requires a in Changed(PerAxis(src), PerAxis(dst))
    ensures SlicesAs(Steps(src), a, PerAxis(src)[a]) && SlicesAs(Steps(dst), a, PerAxis(dst)[a])
    ensures SameBut(Steps(src), Steps(dst), a)
  {
    forall d: nat
      ensures Drop(AxesOf(Steps(src), d), a) == Drop(AxesOf(Steps(dst), d), a)
      ensures EndsWith(AxesOf(Steps(src), d), a) && EndsWith(AxesOf(Steps(dst), d), a)
    {
      MoveEntry(src, dst, a, d);
    }
    TypeSlices(src, a);
    TypeSlices(dst, a);
  }

  lemma InitLacks(s: seq<MeshAxisName>, a: MeshAxisName)
    requires forall i, j | 0 <= i < j < |s + [a]| :: (s + [a])[i] != (s + [a])[j]
    ensures a !in s
  {
    forall i | 0 <= i < |s|
      ensures s[i] != a
    {
      assert (s + [a])[i] != (s + [a])[|s|];
    }
  }

  lemma {:induction false} EvenDims(shape: seq<nat>, steps: seq<Step>, mesh: Mesh, d: nat)
    requires Even(shape, steps, mesh) && AxesOf(steps, d) != []
    ensures d < |shape|
    decreases |steps|
  {
    if steps[0].dim != d {
      assert AxesOf(steps, d) == AxesOf(steps[1..], d);
      EvenDims(shape[steps[0].dim := shape[steps[0].dim] / Size(mesh, steps[0].axis)], steps[1..], mesh, d);
    }
  }

  lemma SlicedDim(shape: seq<nat>, steps: seq<Step>, a: MeshAxisName, t: AxisType, mesh: Mesh)
    requires Even(shape, steps, mesh) && SlicesAs(steps, a, t)
    ensures t.S? ==> t.dim < |shape|
  {
    if t.S? {
      EvenDims(shape, steps, mesh, t.dim);
    }
  }

  /** One collective turns one slicing into the other. */
  lemma StepsMove(src: seq<Step>, dst: seq<Step>, a: MeshAxisName, s: AxisType, t: AxisType,
                  x: Locals, f: Locals, shape: seq<nat>, mesh: Mesh, c: Coord)
    requires a in mesh && Sized(mesh) && OnMesh(mesh, c) && ShowsAll(x, f, shape, src, mesh)
    requires SlicesAs(src, a, s) && SlicesAs(dst, a, t) && SameBut(src, dst, a)
    requires Even(shape, src, mesh) && Even(shape, dst, mesh) && (s != P ==> Agrees(f, a, mesh))
    ensures Shows(Redistribute(x, a, s, t, mesh)(c), Value(f, a, s, mesh, c), ViewOf(Whole(shape), dst, mesh, c))
  {
    SlicedDim(shape, src, a, s, mesh);
    SlicedDim(shape, dst, a, t, mesh);
    LeaveShows(x, f, shape, src, a, s, mesh, c);
    MergedAgree(shape, src, dst, a, mesh, c);
    EnterShows(Leave(x, a, s, mesh, c), Value(f, a, s, mesh, c), shape, dst, a, t, mesh, c);
  }

  lemma ValueShape(f: Locals, a: MeshAxisName, s: AxisType, shape: seq<nat>, mesh: Mesh, c: Coord)
    requires a in mesh && Sized(mesh) && OnMesh(mesh, c) && forall b | OnMesh(mesh, b) :: f(b).shape == shape
    ensures Value(f, a, s, mesh, c).shape == shape
  {
    assert OnMesh(mesh, Peer(c, a, 0));
  }

  /** One collective takes the source distribution to the destination's. */
  lemma MoveIsSound(src: Layout, dst: Layout, a: MeshAxisName, x: Locals, f: Locals, shape: seq<nat>, mesh: Mesh)
    requires WellFormed(src) && WellFormed(dst) && LinkedMove(src, dst)
    requires a in Changed(PerAxis(src), PerAxis(dst)) && a in mesh && Sized(mesh)
    requires Distributed(x, f, shape, Steps(src), mesh) && Even(shape, Steps(dst), mesh)
    requires PerAxis(src)[a] != P ==> Agrees(f, a, mesh)
    ensures Distributed(Redistribute(x, a, PerAxis(src)[a], PerAxis(dst)[a], mesh),
                        c => Value(f, a, PerAxis(src)[a], mesh, c), shape, Steps(dst), mesh)
  {
    var s, t := PerAxis(src)[a], PerAxis(dst)[a];
    var y := Redistribute(x, a, s, t, mesh);
    var g := c => Value(f, a, s, mesh, c);
    MoveSlices(src, dst, a);
    DistributedShows(x, f, shape, Steps(src), mesh);
    forall c | OnMesh(mesh, c)
      ensures Shows(y(c), g(c), ViewOf(Whole(shape), Steps(dst), mesh, c)) && g(c).shape == shape
    {
      StepsMove(Steps(src), Steps(dst), a, s, t, x, f, shape, mesh, c);
      ValueShape(f, a, s, shape, mesh, c);
    }
    ShowsDistributed(y, g, shape, Steps(dst), mesh);
  }

  lemma ChainSame(off: nat, len: nat, s: seq<MeshAxisName>, t: seq<MeshAxisName>, changed: set<MeshAxisName>,
                  mesh: Mesh, c: Coord)
    requires Sized(mesh) && OnMesh(mesh, c) && Linked(s, t, changed)
    requires forall a | a in changed :: Size(mesh, a) == 1
    ensures Chain(off, len, s, mesh, c) == Chain(off, len, t, mesh, c)
  {
    if s != t {
      var b :| b in changed && (t == s + [b] || s == t + [b]);
      ChainSnoc(off, len, if t == s + [b] then s else t, b, mesh, c);
    }
  }

  lemma ViewSame(src: Layout, dst: Layout, shape: seq<nat>, mesh: Mesh, c: Coord)
    requires LinkedMove(src, dst) && Sized(mesh) && OnMesh(mesh, c)
    requires forall a | a in Changed(PerAxis(src), PerAxis(dst)) :: Size(mesh, a) == 1
    ensures ViewOf(Whole(shape), Steps(src), mesh, c) == ViewOf(Whole(shape), Steps(dst), mesh, c)
  {
    var v, w := ViewOf(Whole(shape), Steps(src), mesh, c), ViewOf(Whole(shape), Steps(dst), mesh, c);
    forall d: nat | d < |shape|
      ensures v.off[d] == w.off[d] && v.len[d] == w.len[d]
    {
      ChainSame(0, shape[d], Entry(src, d), Entry(dst, d), Changed(PerAxis(src), PerAxis(dst)), mesh, c);
    }
    assert v.off == w.off && v.len == w.len;
  }

  /** Without a collective: no type changes, or the axis has a single device. */
  lemma NoMoveIsSound(src: Layout, dst: Layout, x: Locals, f: Locals, shape: seq<nat>, mesh: Mesh)
    requires LinkedMove(src, dst) && Sized(mesh)
    requires forall a | a in Changed(PerAxis(src), PerAxis(dst)) :: Size(mesh, a) == 1
    requires Distributed(x, f, shape, Steps(src), mesh) && Even(shape, Steps(dst), mesh)
    ensures Distributed(x, f, shape, Steps(dst), mesh)
  {
    DistributedShows(x, f, shape, Steps(src), mesh);
    forall c | OnMesh(mesh, c)
      ensures Shows(x(c), f(c), ViewOf(Whole(shape), Steps(dst), mesh, c))
    {
      ViewSame(src, dst, shape, mesh, c);
    }
    ShowsDistributed(x, f, shape, Steps(dst), mesh);
  }

  /** The loop of `spmd_redistribute_per_axis` over the destination types. */
  function RedistributeLoop(x: Locals, axes: seq<MeshAxisName>, src: map<MeshAxisName, AxisType>,
                            dst: map<MeshAxisName, AxisType>, mesh: Mesh): Locals
    requires forall a | a in axes :: a in dst && (a in src || Size(mesh, a) == 1)
  {
    if axes == [] then x
    else
      var a := axes[0];
      RedistributeLoop(if Size(mesh, a) == 1 || src[a] == dst[a] then x
                       else Redistribute(x, a, src[a], dst[a], mesh), axes[1..], src, dst, mesh)
  }

  lemma {:induction false} LoopSkips(x: Locals, axes: seq<MeshAxisName>, src: map<MeshAxisName, AxisType>,
                                     dst: map<MeshAxisName, AxisType>, mesh: Mesh)
    requires src.Keys == dst.Keys && forall a | a in axes :: a in dst
    requires forall a | a in axes :: src[a] == dst[a] || Size(mesh, a) == 1
    ensures RedistributeLoop(x, axes, src, dst, mesh) == x
  {
    if axes != [] {
      LoopSkips(x, axes[1..], src, dst, mesh);
    }
  }

  lemma {:induction false} LoopMovesOnce(x: Locals, axes: seq<MeshAxisName>, src: map<MeshAxisName, AxisType>,
                                         dst: map<MeshAxisName, AxisType>, mesh: Mesh, a: MeshAxisName)
    requires src.Keys == dst.Keys && forall b | b in axes :: b in dst
    requires forall i, j | 0 <= i < j < |axes| :: axes[i] != axes[j]
    requires a in axes && src[a] != dst[a] && Size(mesh, a) != 1 && forall b | b in axes && b != a :: src[b] == dst[b]
    ensures RedistributeLoop(x, axes, src, dst, mesh) == Redistribute(x, a, src[a], dst[a], mesh)
  {
    if axes[0] == a {
      LoopSkips(Redistribute(x, a, src[a], dst[a], mesh), axes[1..], src, dst, mesh);
    } else {
      LoopMovesOnce(x, axes[1..], src, dst, mesh, a);
    }
  }

  /** What the tensors stand for afterwards: a partial sum that is given up is added up. */
  ghost function After(f: Locals, src: Layout, dst: Layout, mesh: Mesh): Locals
    requires PerAxis(src).Keys == PerAxis(dst).Keys
  {
    var changed := set a | a in Changed(PerAxis(src), PerAxis(dst)) && Size(mesh, a) != 1;
    if changed == {} then f
    else
      var a :| a in changed;
      c => Value(f, a, PerAxis(src)[a], mesh, c)
  }

  /** The collectives modelled here: not into a partial sum, and not from or to an axis whose
      sharding is unknown; an axis that carries no partial sum holds one value. */
  ghost predicate Movable(f: Locals, a: MeshAxisName, src: AxisType, dst: AxisType, mesh: Mesh) {
    src != V && dst != V && dst != P && (src != P ==> Agrees(f, a, mesh))
  }

  /** Soundness of the check: for every accepted pair of layouts whose splits are even, if
      all devices hold the source distribution, the loop leaves every device with exactly
      what `spmd_distribute_tensor` gives it for the destination. */
  lemma AcceptedIsSound(src: Layout, dst: Layout, axes: seq<MeshAxisName>, x: Locals, f: Locals, shape: seq<nat>,
                        mesh: Mesh)
    requires WellFormed(src) && WellFormed(dst) && Validate(src, dst) == None && Sized(mesh)
    requires forall a :: a in axes <==> a in PerAxis(dst)
    requires forall i, j | 0 <= i < j < |axes| :: axes[i] != axes[j]
    requires Distributed(x, f, shape, Steps(src), mesh) && Even(shape, Steps(dst), mesh)
    requires forall a | a in PerAxis(src) && a in PerAxis(dst) && PerAxis(src)[a] != PerAxis(dst)[a] ::
      Movable(f, a, PerAxis(src)[a], PerAxis(dst)[a], mesh)
    ensures PerAxis(src).Keys == PerAxis(dst).Keys
    ensures Distributed(RedistributeLoop(x, axes, PerAxis(src), PerAxis(dst), mesh), After(f, src, dst, mesh),
                        shape, Steps(dst), mesh)
  {
    AcceptsLinkedMoves(src, dst);
    var s, t := PerAxis(src), PerAxis(dst);
    var changed := set a | a in Changed(s, t) && Size(mesh, a) != 1;
    if changed == {} {
      forall a | a in Changed(s, t) ensures Size(mesh, a) == 1 {
        assert a !in changed;
      }
      LoopSkips(x, axes, s, t, mesh);
      NoMoveIsSound(src, dst, x, f, shape, mesh);
    } else {
      var a :| a in changed && After(f, src, dst, mesh) == (c => Value(f, a, s[a], mesh, c));
      forall b | b in axes && b != a ensures s[b] == t[b] {
        if s[b] != t[b] {
          AtMostOne(Changed(s, t), a, b);
        }
      }
      LoopMovesOnce(x, axes, s, t, mesh, a);
      MoveIsSound(src, dst, a, x, f, shape, mesh);
    }
  }

  // ----- why the order check is there -----

  const DP_OUTER := Layout([(DP, V), (CP, V)], Some([[DP, CP]]))
  const CP_OUTER := Layout([(DP, V), (CP, V)], Some([[CP, DP]]))

  lemma TwoSlices(g: Tensor, a: MeshAxisName, b: MeshAxisName, mesh: Mesh, c: Coord)
    requires g.shape == [4] && OnMesh(mesh, c) && a in mesh && b in mesh && mesh[a] == mesh[b] == 2
    ensures var steps := [Step(a, 0), Step(b, 0)];
      && Even(g.shape, steps, mesh) && Distribute(g, steps, mesh, c).shape == [1]
      && Distribute(g, steps, mesh, c).at([0]) == g.at([2 * c[a] + c[b]])
  {
    var steps := [Step(a, 0), Step(b, 0)];
    assert steps[1..] == [Step(b, 0)] && [Step(b, 0)][1..] == [];
    assert g.shape[0 := 2] == [2] && [2][0 := 1] == [1];
    var x := Slice(g, 0, 2, c[a]);
    assert Distribute(x, steps[1..], mesh, c) == Distribute(Slice(x, 0, 2, c[b]), [], mesh, c);
    assert Distribute(g, steps, mesh, c) == Slice(x, 0, 2, c[b]);
    assert Bump([0], 0, c[b]) == [c[b]] && Bump([c[b]], 0, c[a] * 2) == [2 * c[a] + c[b]];
  }

  /** Swapping the order changes no per-axis type, so no collective would be issued, yet the
      devices need other elements: the check rejects it. */
  lemma SwappedOrder(g: Tensor)
    requires g.shape == [4] && g.at([1]) != g.at([2])
    ensures Validate(DP_OUTER, CP_OUTER) == Some(ShardOrderChanges)
    ensures var mesh, c := map[DP := 2, CP := 2], map[DP := 0, CP := 1];
      && OnMesh(mesh, c) && Even(g.shape, Steps(DP_OUTER), mesh) && Even(g.shape, Steps(CP_OUTER), mesh)
      && !Same(Distribute(g, Steps(DP_OUTER), mesh, c), Distribute(g, Steps(CP_OUTER), mesh, c))
  {
    var mesh: Mesh, c: Coord := map[DP := 2, CP := 2], map[DP := 0, CP := 1];
    SwappedTypes();
    SwappedSteps();
    TwoSlices(g, DP, CP, mesh, c);
    TwoSlices(g, CP, DP, mesh, c);
    assert InShape([1], [0]);
  }

  lemma SwappedSteps()
    ensures Steps(DP_OUTER) == [Step(DP, 0), Step(CP, 0)] && Steps(CP_OUTER) == [Step(CP, 0), Step(DP, 0)]
  {
    assert [DP, CP][1..] == [CP] && [CP, DP][1..] == [DP];
  }

  lemma SwappedTypes()
    ensures PerAxis(DP_OUTER) == PerAxis(CP_OUTER)
    ensures Validate(DP_OUTER, CP_OUTER) == Some(ShardOrderChanges)
  {
    forall a
      ensures a in PerAxis(DP_OUTER) <==> a in PerAxis(CP_OUTER)
      ensures a in PerAxis(DP_OUTER) ==> PerAxis(DP_OUTER)[a] == PerAxis(CP_OUTER)[a]
    {
      OverlayAt(TypesMap(DP_OUTER.types), [[DP, CP]], a);
      OverlayAt(TypesMap(CP_OUTER.types), [[CP, DP]], a);
      assert [[DP, CP]][0] == [DP, CP] && [[CP, DP]][0] == [CP, DP];
      assert Named([[DP, CP]], a) <==> Named([[CP, DP]], a);
    }
    assert Changed(PerAxis(DP_OUTER), PerAxis(CP_OUTER)) == {};
    assert !Linked([DP, CP], [CP, DP], {});
  }

  // ----- the loops -----

  /** `spmd_distribute_tensor` on the device at c. */
  method SpmdDistributeTensor(tensor: Tensor, mesh: Mesh, layout: Layout, c: Coord) returns (t: Tensor)
    requires Even(tensor.shape, Steps(layout), mesh) && OnMesh(mesh, c)
    ensures t == Distribute(tensor, Steps(layout), mesh, c)
  {
    t := tensor;
    var axisShardDims := Steps(layout);
    for k := 0 to |axisShardDims|
      invariant Even(t.shape, axisShardDims[k..], mesh)
      invariant Distribute(t, axisShardDims[k..], mesh, c) == Distribute(tensor, axisShardDims, mesh, c)
    {
      var step := axisShardDims[k];
      assert axisShardDims[k..][0] == step && axisShardDims[k..][1..] == axisShardDims[k + 1..];
      if Size(mesh, step.axis) > 1 {
        t := Slice(t, step.dim, Size(mesh, step.axis), Place(c, step.axis));
      } else {
        assert t.shape[step.dim := t.shape[step.dim] / 1] == t.shape;
      }
    }
  }

  /** `spmd_redistribute_per_axis` on all devices in lockstep. */
  method SpmdRedistributePerAxis(x: Locals, mesh: Mesh, axes: seq<MeshAxisName>, srcTypes: map<MeshAxisName, AxisType>,
                                 dstTypes: map<MeshAxisName, AxisType>) returns (y: Locals)
    requires forall a | a in axes :: a in dstTypes && (a in srcTypes || Size(mesh, a) == 1)
    ensures y == RedistributeLoop(x, axes, srcTypes, dstTypes, mesh)
  {
    y := x;
    for k := 0 to |axes|
      invariant RedistributeLoop(y, axes[k..], srcTypes, dstTypes, mesh) ==
        RedistributeLoop(x, axes, srcTypes, dstTypes, mesh)
    {
      var a := axes[k];
      assert axes[k..][0] == a && axes[k..][1..] == axes[k + 1..];
      if Size(mesh, a) == 1 || srcTypes[a] == dstTypes[a] {
        continue;
      }
      y := Redistribute(y, a, srcTypes[a], dstTypes[a], mesh);
    }
  }
}
