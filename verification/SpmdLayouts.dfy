/** `SpmdLayout`: per-axis types with an optional ordered partition of the tensor
    dimensions, and the check that one collective can turn one layout into another. */
module SpmdLayouts {
  import opened ShardViews
  import opened Wrappers

  /** Replicated, invariant, partial sum, varying, or sharded along a dimension. */
  datatype AxisType = R | I | P | V | S(dim: nat)

  /** `types` lists the `axis_types` dict in insertion order; a spec entry lists the axes that
      shard that dimension, outermost first. */
  datatype Layout = Layout(types: seq<(MeshAxisName, AxisType)>, spec: Option<seq<seq<MeshAxisName>>>)

  datatype Error = ShardBesideSpec | DimShardedTwice | KeysDiffer | SeveralAxesChange | RankTooSmall | ShardOrderChanges

  // ----- well-formed layouts -----

  ghost predicate DistinctKeys(types: seq<(MeshAxisName, AxisType)>) {
    forall i, j | 0 <= i < j < |types| :: types[i].0 != types[j].0
  }

  ghost predicate NoShards(types: seq<(MeshAxisName, AxisType)>) {
    forall i | 0 <= i < |types| :: !types[i].1.S?
  }

  ghost predicate DistinctDims(types: seq<(MeshAxisName, AxisType)>) {
    forall i, j | 0 <= i < j < |types| && types[i].1.S? && types[j].1.S? :: types[i].1.dim != types[j].1.dim
  }

  /** A partition spec names each axis at most once. */
  ghost predicate Once(spec: seq<seq<MeshAxisName>>) {
    && (forall d, i, j | 0 <= d < |spec| && 0 <= i < j < |spec[d]| :: spec[d][i] != spec[d][j])
    && (forall d, e, a | 0 <= d < e < |spec| && a in spec[d] :: a !in spec[e])
  }

  ghost predicate WellFormed(l: Layout) {
    && DistinctKeys(l.types)
    && match l.spec
       case None => DistinctDims(l.types)
       case Some(spec) => NoShards(l.types) && Once(spec)
  }

  /** `__post_init__`: exactly the layouts it accepts have shards either in the types, one per
      dimension, or in the spec. */
  method PostInit(l: Layout) returns (r: Option<Error>)
    ensures r.None? <==> if l.spec.Some? then NoShards(l.types) else DistinctDims(l.types)
    ensures r == Some(ShardBesideSpec) ==> l.spec.Some?
    ensures r == Some(DimShardedTwice) ==> l.spec.None?
  {
    var shardedDims: set<nat> := {};
    for k := 0 to |l.types|
      invariant forall i | 0 <= i < k && l.types[i].1.S? :: l.spec.None? && l.types[i].1.dim in shardedDims
      invariant forall d | d in shardedDims :: exists i :: 0 <= i < k && l.types[i].1 == S(d)
      invariant DistinctDims(l.types[..k])
    {
      var t := l.types[k].1;
      if t.S? {
        if l.spec.Some? {
          return Some(ShardBesideSpec);
        }
        if t.dim in shardedDims {
          var i :| 0 <= i < k && l.types[i].1 == S(t.dim);
          return Some(DimShardedTwice);
        }
        shardedDims := shardedDims + {t.dim};
      }
    }
    assert l.types[..|l.types|] == l.types;
    return None;
  }

  // ----- per-axis types -----

  function TypesMap(types: seq<(MeshAxisName, AxisType)>): map<MeshAxisName, AxisType> {
    if types == [] then map[]
    else TypesMap(types[..|types| - 1])[types[|types| - 1].0 := types[|types| - 1].1]
  }

  function OverlayEntry(m: map<MeshAxisName, AxisType>, entry: seq<MeshAxisName>, d: nat): map<MeshAxisName, AxisType> {
    if entry == [] then m
    else OverlayEntry(m, entry[..|entry| - 1], d)[entry[|entry| - 1] := S(d)]
  }

  function Overlay(m: map<MeshAxisName, AxisType>, spec: seq<seq<MeshAxisName>>): map<MeshAxisName, AxisType> {
    if spec == [] then m
    else OverlayEntry(Overlay(m, spec[..|spec| - 1]), spec[|spec| - 1], |spec| - 1)
  }

  /** `per_axis_spmd_types`: spec entries override the axis's own type. */
  function PerAxis(l: Layout): map<MeshAxisName, AxisType> {
    match l.spec
    case None => TypesMap(l.types)
    case Some(spec) => Overlay(TypesMap(l.types), spec)
  }

  lemma {:induction false} TypesMapHas(types: seq<(MeshAxisName, AxisType)>)
    requires DistinctKeys(types)
    ensures forall i | 0 <= i < |types| :: types[i].0 in TypesMap(types) && TypesMap(types)[types[i].0] == types[i].1
    ensures forall a | a in TypesMap(types) :: (a, TypesMap(types)[a]) in types
  {
    if types != [] {
      var init, last := types[..|types| - 1], types[|types| - 1];
      TypesMapHas(init);
      assert types == init + [last];
    }
  }

  lemma {:induction false} OverlayEntryAt(m: map<MeshAxisName, AxisType>, entry: seq<MeshAxisName>, d: nat,
                                          a: MeshAxisName)
    ensures a in entry ==> a in OverlayEntry(m, entry, d) && OverlayEntry(m, entry, d)[a] == S(d)
    ensures a !in entry ==> (a in OverlayEntry(m, entry, d) <==> a in m)
    ensures a !in entry && a in m ==> OverlayEntry(m, entry, d)[a] == m[a]
  {
    if entry != [] {
      OverlayEntryAt(m, entry[..|entry| - 1], d, a);
      assert a in entry <==> a == entry[|entry| - 1] || a in entry[..|entry| - 1];
    }
  }

  /** The dimension an axis is named for, if any. */
  ghost predicate Named(spec: seq<seq<MeshAxisName>>, a: MeshAxisName) {
    exists d :: 0 <= d < |spec| && a in spec[d]
  }

  lemma {:induction false} OverlayAt(m: map<MeshAxisName, AxisType>, spec: seq<seq<MeshAxisName>>, a: MeshAxisName)
    requires Once(spec)
    ensures forall d | 0 <= d < |spec| && a in spec[d] :: a in Overlay(m, spec) && Overlay(m, spec)[a] == S(d)
    ensures !Named(spec, a) ==> (a in Overlay(m, spec) <==> a in m)
    ensures !Named(spec, a) && a in m ==> Overlay(m, spec)[a] == m[a]
  {
    if spec != [] {
      var init := spec[..|spec| - 1];
      OverlayAt(m, init, a);
      OverlayEntryAt(Overlay(m, init), spec[|spec| - 1], |spec| - 1, a);
      if !Named(spec, a) {
        assert a !in spec[|spec| - 1];
        assert !Named(init, a);
      }
    }
  }

  // ----- slicing steps -----

  function TypeSteps(types: seq<(MeshAxisName, AxisType)>): seq<Step> {
    if types == [] then []
    else (if types[0].1.S? then [Step(types[0].0, types[0].1.dim)] else []) + TypeSteps(types[1..])
  }

  function EntrySteps(entry: seq<MeshAxisName>, d: nat): seq<Step> {
    if entry == [] then [] else [Step(entry[0], d)] + EntrySteps(entry[1..], d)
  }

  function SpecSteps(spec: seq<seq<MeshAxisName>>, d: nat): seq<Step> {
    if spec == [] then [] else EntrySteps(spec[0], d) + SpecSteps(spec[1..], d + 1)
  }

  /** `axis_shard_dims` of `spmd_distribute_tensor`. */
  function Steps(l: Layout): seq<Step> {
    match l.spec
    case None => TypeSteps(l.types)
    case Some(spec) => SpecSteps(spec, 0)
  }

  /** The axes sharding dimension d, outermost first. */
  function Entry(l: Layout, d: nat): seq<MeshAxisName> {
    AxesOf(Steps(l), d)
  }

  lemma {:induction false} AxesOfJoin(a: seq<Step>, b: seq<Step>, d: nat)
    ensures AxesOf(a + b, d) == AxesOf(a, d) + AxesOf(b, d)
  {
    if a == [] {
      assert a + b == b;
    } else {
      assert (a + b)[1..] == a[1..] + b;
      AxesOfJoin(a[1..], b, d);
      var first := if a[0].dim == d then [a[0].axis] else [];
      assert first + (AxesOf(a[1..], d) + AxesOf(b, d)) == (first + AxesOf(a[1..], d)) + AxesOf(b, d);
    }
  }

  lemma {:induction false} EntryStepsAxes(entry: seq<MeshAxisName>, d: nat, e: nat)
    ensures AxesOf(EntrySteps(entry, d), e) == if d == e then entry else []
  {
    if entry != [] {
      EntryStepsAxes(entry[1..], d, e);
      assert EntrySteps(entry, d)[1..] == EntrySteps(entry[1..], d);
    }
  }

  lemma {:induction false} SpecStepsAxes(spec: seq<seq<MeshAxisName>>, d: nat, e: nat)
    ensures AxesOf(SpecSteps(spec, d), e) == if d <= e < d + |spec| then spec[e - d] else []
  {
    if spec != [] {
      SpecStepsAxes(spec[1..], d + 1, e);
      EntryStepsAxes(spec[0], d, e);
      AxesOfJoin(EntrySteps(spec[0], d), SpecSteps(spec[1..], d + 1), e);
    }
  }

  lemma NoMembers<T>(s: seq<T>)
    ensures s == [] || exists x :: x in s
  {
    if |s| > 0 {
      assert s[0] in s;
    }
  }

  lemma {:induction false} TypeStepsAxes(types: seq<(MeshAxisName, AxisType)>, d: nat)
    requires DistinctDims(types)
    ensures |AxesOf(TypeSteps(types), d)| <= 1
    ensures forall a :: a in AxesOf(TypeSteps(types), d) <==> (a, S(d)) in types
  {
    if types != [] {
      TypeStepsAxes(types[1..], d);
      var first := if types[0].1.S? then [Step(types[0].0, types[0].1.dim)] else [];
      AxesOfJoin(first, TypeSteps(types[1..]), d);
      if types[0].1 == S(d) {
        assert forall i | 0 < i < |types| :: types[i].1 != S(d);
        NoMembers(AxesOf(TypeSteps(types[1..]), d));
      }
    }
  }

  lemma TypeIsEntry(l: Layout, a: MeshAxisName, d: nat)
    requires WellFormed(l) && l.spec.None?
    ensures a in PerAxis(l) && PerAxis(l)[a] == S(d) <==> a in Entry(l, d)
  {
    TypesMapHas(l.types);
    TypeStepsAxes(l.types, d);
  }

  /** With a spec an axis is sharded where it is named; its own type is never a shard. */
  lemma SpecShards(l: Layout, a: MeshAxisName, d: nat)
    requires WellFormed(l) && l.spec.Some?
    ensures a in PerAxis(l) && PerAxis(l)[a] == S(d) <==> d < |l.spec.value| && a in l.spec.value[d]
  {
    var spec := l.spec.value;
    OverlayAt(TypesMap(l.types), spec, a);
    if Named(spec, a) {
      var e :| 0 <= e < |spec| && a in spec[e];
      assert PerAxis(l)[a] == S(e);
    } else if a in TypesMap(l.types) {
      assert !TypesMap(l.types)[a].S? by { TypesMapHas(l.types); }
    }
  }

  lemma SpecIsEntry(l: Layout, a: MeshAxisName, d: nat)
    requires WellFormed(l) && l.spec.Some?
    ensures a in PerAxis(l) && PerAxis(l)[a] == S(d) <==> a in Entry(l, d)
  {
    SpecShards(l, a, d);
    SpecStepsAxes(l.spec.value, 0, d);
  }

  /** The per-axis types and the slicing order tell the same story: an axis has type S(d)
      exactly when it is among the axes slicing dimension d. */
  lemma ShardTypeIsEntry(l: Layout, a: MeshAxisName, d: nat)
    requires WellFormed(l)
    ensures a in PerAxis(l) && PerAxis(l)[a] == S(d) <==> a in Entry(l, d)
  {
    if l.spec.None? {
      TypeIsEntry(l, a, d);
    } else {
      SpecIsEntry(l, a, d);
    }
  }

  lemma EntryOnce(l: Layout, d: nat)
    requires WellFormed(l)
    ensures forall i, j | 0 <= i < j < |Entry(l, d)| :: Entry(l, d)[i] != Entry(l, d)[j]
  {
    match l.spec
    case None => TypeStepsAxes(l.types, d);
    case Some(spec) => SpecStepsAxes(spec, 0, d);
  }

  // ----- the check -----

  /** The axes whose per-axis type differs. */
  function Changed(src: map<MeshAxisName, AxisType>, dst: map<MeshAxisName, AxisType>): set<MeshAxisName>
    requires src.Keys == dst.Keys
  {
    set a | a in src && src[a] != dst[a]
  }

  /** `_normalize_partition_spec`: one entry per dimension from the S(dim) types. */
  function Normalized(types: seq<(MeshAxisName, AxisType)>, ndim: nat): (r: Result<seq<seq<MeshAxisName>>, Error>)
    ensures r.Ok? ==> |r.value| == ndim
  {
    if types == [] then Ok(seq(ndim, _ => []))
    else
      var last := types[|types| - 1];
      match Normalized(types[..|types| - 1], ndim)
      case Err(e) => Err(e)
      case Ok(entries) =>
        if !last.1.S? then Ok(entries)
        else if last.1.dim >= ndim then Err(RankTooSmall)
        else Ok(entries[last.1.dim := [last.0]])
  }

  /** One dimension of the loop: unchanged, or the changed axis comes or goes innermost. */
  predicate Linked(src: seq<MeshAxisName>, dst: seq<MeshAxisName>, changed: set<MeshAxisName>) {
    src == dst || exists a | a in changed :: dst == src + [a] || src == dst + [a]
  }

  function Zipped(a: nat, b: nat): nat {
    if a < b then a else b
  }

  predicate AllLinked(src: seq<seq<MeshAxisName>>, dst: seq<seq<MeshAxisName>>, changed: set<MeshAxisName>) {
    forall d | 0 <= d < Zipped(|src|, |dst|) :: Linked(src[d], dst[d], changed)
  }

  /** The entry list the check looks at for a layout, when the other one has a spec. */
  function SpecFor(l: Layout, ndim: nat): Result<seq<seq<MeshAxisName>>, Error> {
    match l.spec
    case None => Normalized(l.types, ndim)
    case Some(spec) => Ok(spec)
  }

  /** `_validate_redistribute_spmd_pair`: nothing on acceptance. */
  function Validate(src: Layout, dst: Layout): Option<Error> {
    var srcTypes, dstTypes := PerAxis(src), PerAxis(dst);
    if srcTypes.Keys != dstTypes.Keys then Some(KeysDiffer)
    else
      var changed := Changed(srcTypes, dstTypes);
      if |changed| > 1 then Some(SeveralAxesChange)
      else if src.spec.None? && dst.spec.None? then None
      else
        var ndim := if dst.spec.None? then |src.spec.value| else |dst.spec.value|;
        var srcSpec, dstSpec := SpecFor(src, ndim), SpecFor(dst, ndim);
        if srcSpec.Err? then Some(srcSpec.error)
        else if dstSpec.Err? then Some(dstSpec.error)
        else if AllLinked(srcSpec.value, dstSpec.value, changed) then None
        else Some(ShardOrderChanges)
  }

  lemma {:induction false} NormalizedEntries(types: seq<(MeshAxisName, AxisType)>, ndim: nat)
    requires DistinctDims(types)
    ensures Normalized(types, ndim).Ok? <==> forall i | 0 <= i < |types| && types[i].1.S? :: types[i].1.dim < ndim
    ensures Normalized(types, ndim).Ok? ==>
      forall d | 0 <= d < ndim :: Normalized(types, ndim).value[d] == AxesOf(TypeSteps(types), d)
  {
    if types != [] {
      var init, last := types[..|types| - 1], types[|types| - 1];
      NormalizedEntries(init, ndim);
      assert types == init + [last];
      TypeStepsJoin(init, [last]);
      if Normalized(types, ndim).Ok? {
        forall d | 0 <= d < ndim
          ensures Normalized(types, ndim).value[d] == AxesOf(TypeSteps(types), d)
        {
          AxesOfJoin(TypeSteps(init), TypeSteps([last]), d);
          if last.1 == S(d) {
            TypeStepsAxes(init, d);
            NoMembers(AxesOf(TypeSteps(init), d));
          }
        }
      }
    }
  }

  lemma {:induction false} TypeStepsJoin(a: seq<(MeshAxisName, AxisType)>, b: seq<(MeshAxisName, AxisType)>)
    ensures TypeSteps(a + b) == TypeSteps(a) + TypeSteps(b)
  {
    if a == [] {
      assert a + b == b;
    } else {
      assert (a + b)[1..] == a[1..] + b;
      TypeStepsJoin(a[1..], b);
      var first := if a[0].1.S? then [Step(a[0].0, a[0].1.dim)] else [];
      assert first + (TypeSteps(a[1..]) + TypeSteps(b)) == (first + TypeSteps(a[1..])) + TypeSteps(b);
    }
  }

  // ----- what acceptance means -----

  /** Where only one layout has a spec, the other's shard dimensions lie within its rank. */
  ghost predicate RanksMatch(src: Layout, dst: Layout) {
    && (src.spec.None? && dst.spec.Some? ==> DimsBelow(src.types, |dst.spec.value|))
    && (src.spec.Some? && dst.spec.None? ==> DimsBelow(dst.types, |src.spec.value|))
  }

  ghost predicate DimsBelow(types: seq<(MeshAxisName, AxisType)>, n: nat) {
    forall i | 0 <= i < |types| && types[i].1.S? :: types[i].1.dim < n
  }

  /** What the loop sees of a move. */
  ghost predicate LinkedMove(src: Layout, dst: Layout) {
    && PerAxis(src).Keys == PerAxis(dst).Keys
    && |Changed(PerAxis(src), PerAxis(dst))| <= 1
    && forall d: nat :: Linked(Entry(src, d), Entry(dst, d), Changed(PerAxis(src), PerAxis(dst)))
  }

  lemma AtMostOne<T>(s: set<T>, x: T, y: T)
    requires |s| <= 1 && x in s && y in s
    ensures x == y
  {
    assert |s - {x}| == |s| - 1;
    assert s - {x} == {};
  }

  /** An axis that slices d in only one of the layouts changes type. */
  lemma EntryChange(src: Layout, dst: Layout, a: MeshAxisName, d: nat)
    requires WellFormed(src) && WellFormed(dst) && PerAxis(src).Keys == PerAxis(dst).Keys
    requires a in Entry(src, d) <==> a !in Entry(dst, d)
    ensures a in Changed(PerAxis(src), PerAxis(dst))
  {
    ShardTypeIsEntry(src, a, d);
    ShardTypeIsEntry(dst, a, d);
  }

  /** Where one layout leaves d unsliced, the other slices it by the changed axis at most. */
  lemma UnslicedLinks(src: Layout, dst: Layout, d: nat)
    requires WellFormed(src) && WellFormed(dst) && PerAxis(src).Keys == PerAxis(dst).Keys
    requires |Changed(PerAxis(src), PerAxis(dst))| <= 1
    requires Entry(src, d) == [] || Entry(dst, d) == []
    ensures Linked(Entry(src, d), Entry(dst, d), Changed(PerAxis(src), PerAxis(dst)))
  {
    var changed := Changed(PerAxis(src), PerAxis(dst));
    var other := if Entry(src, d) == [] then Entry(dst, d) else Entry(src, d);
    EntryOnce(src, d);
    EntryOnce(dst, d);
    if other != [] {
      EntryChange(src, dst, other[0], d);
      if |other| > 1 {
        EntryChange(src, dst, other[1], d);
        AtMostOne(changed, other[0], other[1]);
      }
      assert other == [] + [other[0]];
    }
  }

  lemma AtMostOneAxis(l: Layout, d: nat)
    requires WellFormed(l) && l.spec.None?
    ensures |Entry(l, d)| <= 1
  {
    TypeStepsAxes(l.types, d);
  }

  /** Without specs, per-axis types are all there is to compare. */
  lemma TypesLink(src: Layout, dst: Layout, d: nat)
    requires WellFormed(src) && WellFormed(dst) && PerAxis(src).Keys == PerAxis(dst).Keys
    requires |Changed(PerAxis(src), PerAxis(dst))| <= 1 && src.spec.None? && dst.spec.None?
    ensures Linked(Entry(src, d), Entry(dst, d), Changed(PerAxis(src), PerAxis(dst)))
  {
    var x, y := Entry(src, d), Entry(dst, d);
    AtMostOneAxis(src, d);
    AtMostOneAxis(dst, d);
    if x == [] || y == [] {
      UnslicedLinks(src, dst, d);
    } else if x[0] != y[0] {
      EntryChange(src, dst, x[0], d);
      EntryChange(src, dst, y[0], d);
      AtMostOne(Changed(PerAxis(src), PerAxis(dst)), x[0], y[0]);
    }
  }

  lemma SpecForEntries(l: Layout, ndim: nat)
    requires WellFormed(l)
    ensures SpecFor(l, ndim).Ok? <==> (l.spec.None? ==> DimsBelow(l.types, ndim))
    ensures SpecFor(l, ndim).Ok? ==>
      (forall d | 0 <= d < |SpecFor(l, ndim).value| :: SpecFor(l, ndim).value[d] == Entry(l, d))
    ensures SpecFor(l, ndim).Ok? ==> forall d: nat | d >= |SpecFor(l, ndim).value| :: Entry(l, d) == []
  {
    match l.spec {
      case None =>
        NormalizedEntries(l.types, ndim);
        forall d: nat | SpecFor(l, ndim).Ok? && d >= ndim
          ensures Entry(l, d) == []
        {
          TypeStepsAxes(l.types, d);
          NoMembers(Entry(l, d));
        }
      case Some(spec) =>
        forall d: nat
          ensures Entry(l, d) == if d < |spec| then spec[d] else []
        {
          SpecStepsAxes(spec, 0, d);
        }
    }
  }

  lemma SpecForEntry(l: Layout, ndim: nat, d: nat)
    requires WellFormed(l) && SpecFor(l, ndim).Ok?
    ensures Entry(l, d) == if d < |SpecFor(l, ndim).value| then SpecFor(l, ndim).value[d] else []
  {
    SpecForEntries(l, ndim);
  }

  lemma LinkedAt(s: seq<seq<MeshAxisName>>, t: seq<seq<MeshAxisName>>, changed: set<MeshAxisName>, d: nat)
    requires AllLinked(s, t, changed) && d < |s| && d < |t|
    ensures Linked(s[d], t[d], changed)
  {
  }

  lemma SpecsLink(src: Layout, dst: Layout, ndim: nat, d: nat)
    requires WellFormed(src) && WellFormed(dst) && PerAxis(src).Keys == PerAxis(dst).Keys
    requires |Changed(PerAxis(src), PerAxis(dst))| <= 1
    requires SpecFor(src, ndim).Ok? && SpecFor(dst, ndim).Ok?
    requires AllLinked(SpecFor(src, ndim).value, SpecFor(dst, ndim).value, Changed(PerAxis(src), PerAxis(dst)))
    ensures Linked(Entry(src, d), Entry(dst, d), Changed(PerAxis(src), PerAxis(dst)))
  {
    var s, t := SpecFor(src, ndim).value, SpecFor(dst, ndim).value;
    assert Entry(src, d) == if d < |s| then s[d] else [] by { SpecForEntry(src, ndim, d); }
    assert Entry(dst, d) == if d < |t| then t[d] else [] by { SpecForEntry(dst, ndim, d); }
    if d < |s| && d < |t| {
      LinkedAt(s, t, Changed(PerAxis(src), PerAxis(dst)), d);
    } else {
      UnslicedLinks(src, dst, d);
    }
  }

  /** The check in terms of its own loop, also on dimensions the shorter of two specs does not
      reach, which the loop never looks at. */
  lemma AcceptsLinkedMoves(src: Layout, dst: Layout)
    requires WellFormed(src) && WellFormed(dst)
    ensures Validate(src, dst) == None <==> RanksMatch(src, dst) && LinkedMove(src, dst)
  {
    if PerAxis(src).Keys == PerAxis(dst).Keys && |Changed(PerAxis(src), PerAxis(dst))| <= 1 {
      var changed := Changed(PerAxis(src), PerAxis(dst));
      if src.spec.None? && dst.spec.None? {
        forall d: nat
          ensures Linked(Entry(src, d), Entry(dst, d), changed)
        {
          TypesLink(src, dst, d);
        }
      } else {
        var ndim := if dst.spec.None? then |src.spec.value| else |dst.spec.value|;
        SpecForEntries(src, ndim);
        SpecForEntries(dst, ndim);
        if Validate(src, dst) == None {
          forall d: nat
            ensures Linked(Entry(src, d), Entry(dst, d), changed)
          {
            SpecsLink(src, dst, ndim, d);
          }
        }
      }
    }
  }
}
