/** Tensors as index functions, even slicing along a dimension, and the view of the global
    tensor that repeated slicing leaves on each device of a mesh. */
module ShardViews {
  import opened Arithmetic

  datatype MeshAxisName = DP | DP_REPLICATE | DP_SHARD | FSDP | TP | CP | PP | EP | EFSDP

  /** Axis sizes of a device mesh, and a device's coordinate on each axis. */
  type Mesh = map<MeshAxisName, nat>

  type Coord = map<MeshAxisName, nat>

  ghost predicate OnMesh(mesh: Mesh, c: Coord) {
    c.Keys == mesh.Keys && forall a | a in mesh :: c[a] < mesh[a]
  }

  /** An axis the mesh does not have counts as one of size 1. */
  function Size(mesh: Mesh, a: MeshAxisName): nat {
    if a in mesh then mesh[a] else 1
  }

  function Place(c: Coord, a: MeshAxisName): nat {
    if a in c then c[a] else 0
  }

  datatype Tensor = Tensor(shape: seq<nat>, at: seq<nat> -> real)

  predicate InShape(shape: seq<nat>, i: seq<nat>) {
    |i| == |shape| && forall d | 0 <= d < |shape| :: i[d] < shape[d]
  }

  /** Same shape and same elements. */
  ghost predicate Same(s: Tensor, t: Tensor) {
    s.shape == t.shape && forall i | InShape(s.shape, i) :: s.at(i) == t.at(i)
  }

  predicate Splits(t: Tensor, d: nat, n: nat) {
    d < |t.shape| && n > 0 && t.shape[d] % n == 0
  }

  function Bump(i: seq<nat>, d: nat, x: nat): (r: seq<nat>)
    requires d < |i|
    ensures r == i[d := i[d] + x]
  {
    var y: nat := i[d] + x;
    i[d := y]
  }

  /** Chunk k of n equal chunks along dimension d. */
  function Slice(t: Tensor, d: nat, n: nat, k: nat): Tensor
    requires Splits(t, d, n) && k < n
  {
    var m := t.shape[d] / n;
    Tensor(t.shape[d := m], i => if d < |i| then t.at(Bump(i, d, k * m)) else 0.0)
  }

  // ----- views -----

  /** A box of the global tensor: per dimension an offset and a length. */
  datatype View = View(off: seq<nat>, len: seq<nat>) {
    predicate Valid() {
      |off| == |len|
    }
  }

  function Whole(shape: seq<nat>): (v: View)
    ensures v.Valid()
  {
    View(seq(|shape|, _ => 0), shape)
  }

  function Shifted(i: seq<nat>, off: seq<nat>): (r: seq<nat>)
    requires |i| == |off|
    ensures |r| == |i| && forall d | 0 <= d < |i| :: r[d] == i[d] + off[d]
  {
    seq(|i|, d requires 0 <= d < |i| => i[d] + off[d])
  }

  /** The local tensor a view shows. */
  ghost predicate Shows(t: Tensor, g: Tensor, v: View) {
    && v.Valid() && t.shape == v.len
    && forall i | InShape(v.len, i) :: t.at(i) == g.at(Shifted(i, v.off))
  }

  function Narrow(v: View, d: nat, n: nat, k: nat): (r: View)
    requires v.Valid() && d < |v.len| && n > 0
    ensures r.Valid() && |r.len| == |v.len|
  {
    var m := v.len[d] / n;
    View(v.off[d := v.off[d] + k * m], v.len[d := m])
  }

  lemma ChunkFits(len: nat, n: nat, k: nat, x: nat)
    requires n > 0 && len % n == 0 && k < n && x < len / n
    ensures x + k * (len / n) < len
  {
    var m := len / n;
    assert len == n * m;
    MulStep(m, k);
    MulGrows(m, k + 1, n);
  }

  /** Slicing what a view shows gives what the narrowed view shows. */
  lemma NarrowShows(t: Tensor, g: Tensor, v: View, d: nat, n: nat, k: nat)
    requires Shows(t, g, v) && Splits(t, d, n) && k < n
    ensures Shows(Slice(t, d, n, k), g, Narrow(v, d, n, k))
  {
    var m := t.shape[d] / n;
    var w := Narrow(v, d, n, k);
    forall i | InShape(w.len, i)
      ensures Slice(t, d, n, k).at(i) == g.at(Shifted(i, w.off))
    {
      var j := Bump(i, d, k * m);
      ChunkFits(t.shape[d], n, k, i[d]);
      forall e | 0 <= e < |v.len| ensures j[e] < v.len[e] {
        assert i[e] < w.len[e];
      }
      assert InShape(v.len, j);
      assert Shifted(j, v.off) == Shifted(i, w.off);
    }
  }

  /** Two tensors that show the same view are the same. */
  lemma ShownSame(s: Tensor, t: Tensor, g: Tensor, v: View)
    requires Shows(s, g, v) && Shows(t, g, v)
    ensures Same(s, t)
  {
  }

  // ----- repeated slicing -----

  /** One slicing step: the mesh axis and the tensor dimension it shards. */
  datatype Step = Step(axis: MeshAxisName, dim: nat)

  /** The loop of `spmd_distribute_tensor`; axes of size 1 are passed over. */
  ghost predicate Even(shape: seq<nat>, steps: seq<Step>, mesh: Mesh)
    decreases |steps|
  {
    steps == [] ||
    (&& steps[0].dim < |shape| && Size(mesh, steps[0].axis) > 0
     && shape[steps[0].dim] % Size(mesh, steps[0].axis) == 0
     && Even(shape[steps[0].dim := shape[steps[0].dim] / Size(mesh, steps[0].axis)], steps[1..], mesh))
  }

  ghost function Distribute(t: Tensor, steps: seq<Step>, mesh: Mesh, c: Coord): Tensor
    requires Even(t.shape, steps, mesh) && OnMesh(mesh, c)
    decreases |steps|
  {
    if steps == [] then t
    else
      var n := Size(mesh, steps[0].axis);
      var s := if n > 1 then Slice(t, steps[0].dim, n, Place(c, steps[0].axis)) else t;
      assert n == 1 ==> t.shape[steps[0].dim := t.shape[steps[0].dim] / 1] == t.shape;
      Distribute(s, steps[1..], mesh, c)
  }

  /** The axes that shard dimension d, outermost first. */
  function AxesOf(steps: seq<Step>, d: nat): seq<MeshAxisName> {
    if steps == [] then []
    else (if steps[0].dim == d then [steps[0].axis] else []) + AxesOf(steps[1..], d)
  }

  /** Offset and length along one dimension after slicing by these axes in turn. */
  function Chain(off: nat, len: nat, axes: seq<MeshAxisName>, mesh: Mesh, c: Coord): (nat, nat)
    requires forall a | a in axes :: Size(mesh, a) > 0
    decreases |axes|
  {
    if axes == [] then (off, len)
    else
      var m := len / Size(mesh, axes[0]);
      Chain(off + Place(c, axes[0]) * m, m, axes[1..], mesh, c)
  }

  ghost predicate Sized(mesh: Mesh) {
    forall a | a in mesh :: mesh[a] > 0
  }

  /** The view a device ends up with, computed one dimension at a time. */
  ghost function ViewOf(v: View, steps: seq<Step>, mesh: Mesh, c: Coord): (r: View)
    requires v.Valid() && Sized(mesh)
    ensures r.Valid() && |r.len| == |v.len|
    ensures forall d | 0 <= d < |v.len| ::
      (r.off[d], r.len[d]) == Chain(v.off[d], v.len[d], AxesOf(steps, d), mesh, c)
  {
    View(seq<nat>(|v.len|, (d: nat) requires d < |v.len| => Chain(v.off[d], v.len[d], AxesOf(steps, d), mesh, c).0),
         seq<nat>(|v.len|, (d: nat) requires d < |v.len| => Chain(v.off[d], v.len[d], AxesOf(steps, d), mesh, c).1))
  }

  lemma StepChain(v: View, steps: seq<Step>, mesh: Mesh, c: Coord, e: nat)
    requires v.Valid() && Sized(mesh) && steps != [] && steps[0].dim < |v.len| && e < |v.len|
    ensures var n, k := Size(mesh, steps[0].axis), Place(c, steps[0].axis);
      var w := Narrow(v, steps[0].dim, n, k);
      Chain(v.off[e], v.len[e], AxesOf(steps, e), mesh, c) == Chain(w.off[e], w.len[e], AxesOf(steps[1..], e), mesh, c)
  {
    if e == steps[0].dim {
      assert AxesOf(steps, e)[1..] == AxesOf(steps[1..], e);
    } else {
      assert AxesOf(steps, e) == AxesOf(steps[1..], e);
    }
  }

  lemma StepView(v: View, steps: seq<Step>, mesh: Mesh, c: Coord)
    requires v.Valid() && Sized(mesh) && steps != [] && steps[0].dim < |v.len|
    ensures var n, k := Size(mesh, steps[0].axis), Place(c, steps[0].axis);
      ViewOf(v, steps, mesh, c) == ViewOf(Narrow(v, steps[0].dim, n, k), steps[1..], mesh, c)
  {
    var (a, d) := (steps[0].axis, steps[0].dim);
    var n, k := Size(mesh, a), Place(c, a);
    var w := ViewOf(Narrow(v, d, n, k), steps[1..], mesh, c);
    var u := ViewOf(v, steps, mesh, c);
    forall e: nat | e < |v.len|
      ensures w.off[e] == u.off[e] && w.len[e] == u.len[e]
    {
      StepChain(v, steps, mesh, c, e);
    }
    assert w.off == u.off && w.len == u.len;
  }

  /** The steps on one dimension do not disturb the others: after all steps a device shows
      the view computed dimension by dimension. */
  lemma {:induction false} DistributeShows(t: Tensor, g: Tensor, v: View, steps: seq<Step>, mesh: Mesh, c: Coord)
    requires Shows(t, g, v) && Even(t.shape, steps, mesh) && OnMesh(mesh, c) && Sized(mesh)
    ensures Shows(Distribute(t, steps, mesh, c), g, ViewOf(v, steps, mesh, c))
    decreases |steps|
  {
    if steps == [] {
      var w := ViewOf(v, steps, mesh, c);
      assert w.off == v.off && w.len == v.len;
    } else {
      var d, n, k := steps[0].dim, Size(mesh, steps[0].axis), Place(c, steps[0].axis);
      StepView(v, steps, mesh, c);
      if n > 1 {
        NarrowShows(t, g, v, d, n, k);
        DistributeShows(Slice(t, d, n, k), g, Narrow(v, d, n, k), steps[1..], mesh, c);
      } else {
        assert Narrow(v, d, 1, 0) == v;
        assert t.shape[d := t.shape[d] / 1] == t.shape;
        DistributeShows(t, g, v, steps[1..], mesh, c);
      }
    }
  }
}
