/** What the check of a move accepts, in terms of the layouts: one axis that comes or goes
    innermost, and the moves of the norm before the head. */
module SpmdMoves {
  import opened ShardViews
  import opened SpmdLayouts
  import opened Wrappers

  /** The axis has another type in the other layout. */
  ghost predicate Differs(src: Layout, dst: Layout, a: MeshAxisName) {
    a in PerAxis(src) && a in PerAxis(dst) && PerAxis(src)[a] != PerAxis(dst)[a]
  }

  /** The axes of an entry whose type stays, in order. */
  ghost function Staying(entry: seq<MeshAxisName>, src: Layout, dst: Layout): seq<MeshAxisName> {
    if entry == [] then []
    else (if Differs(src, dst, entry[0]) then [] else [entry[0]]) + Staying(entry[1..], src, dst)
  }

  /** Wherever an axis that changes its type slices, it slices innermost. */
  ghost predicate ChangesInnermost(entry: seq<MeshAxisName>, src: Layout, dst: Layout) {
    forall i | 0 <= i < |entry| - 1 :: !Differs(src, dst, entry[i])
  }

  /** One axis at most changes its type; apart from it every dimension is sliced by the same
      axes in the same order, and it comes or goes as the innermost one. */
  ghost predicate OneAxisMove(src: Layout, dst: Layout) {
    && PerAxis(src).Keys == PerAxis(dst).Keys
    && (forall a, b | Differs(src, dst, a) && Differs(src, dst, b) :: a == b)
    && forall d: nat ::
      && Staying(Entry(src, d), src, dst) == Staying(Entry(dst, d), src, dst)
      && ChangesInnermost(Entry(src, d), src, dst) && ChangesInnermost(Entry(dst, d), src, dst)
  }

  lemma {:induction false} AllStay(entry: seq<MeshAxisName>, src: Layout, dst: Layout)
    requires forall i | 0 <= i < |entry| :: !Differs(src, dst, entry[i])
    ensures Staying(entry, src, dst) == entry
  {
    if entry != [] {
      AllStay(entry[1..], src, dst);
      assert entry == [entry[0]] + entry[1..];
    }
  }

  lemma {:induction false} LastGoes(init: seq<MeshAxisName>, a: MeshAxisName, src: Layout, dst: Layout)
    requires (forall i | 0 <= i < |init| :: !Differs(src, dst, init[i])) && Differs(src, dst, a)
    ensures Staying(init + [a], src, dst) == init
  {
    if init == [] {
      assert [a][1..] == [] && [] + [a] == [a];
    } else {
      assert (init + [a])[1..] == init[1..] + [a];
      LastGoes(init[1..], a, src, dst);
      assert init == [init[0]] + init[1..];
    }
  }

  /** An entry is what stays of it, with the changed axis at its end if it has it. */
  lemma EntrySplits(e: seq<MeshAxisName>, src: Layout, dst: Layout)
    requires ChangesInnermost(e, src, dst)
    ensures var stay := Staying(e, src, dst);
      e == stay || (e != [] && Differs(src, dst, e[|e| - 1]) && e == stay + [e[|e| - 1]])
  {
    if e == [] || !Differs(src, dst, e[|e| - 1]) {
      AllStay(e, src, dst);
    } else {
      assert e == e[..|e| - 1] + [e[|e| - 1]];
      LastGoes(e[..|e| - 1], e[|e| - 1], src, dst);
    }
  }

  /** An axis that changes its type does not slice one dimension in both layouts. */
  lemma NotInBoth(src: Layout, dst: Layout, a: MeshAxisName, d: nat)
    requires WellFormed(src) && WellFormed(dst) && Differs(src, dst, a)
    ensures a !in Entry(src, d) || a !in Entry(dst, d)
  {
    ShardTypeIsEntry(src, a, d);
    ShardTypeIsEntry(dst, a, d);
  }

  lemma ChangedDiffers(src: Layout, dst: Layout)
    requires PerAxis(src).Keys == PerAxis(dst).Keys
    ensures forall a :: a in Changed(PerAxis(src), PerAxis(dst)) <==> Differs(src, dst, a)
    ensures |Changed(PerAxis(src), PerAxis(dst))| <= 1
      <==> forall a, b | Differs(src, dst, a) && Differs(src, dst, b) :: a == b
  {
    var changed := Changed(PerAxis(src), PerAxis(dst));
    if |changed| <= 1 {
      forall a, b | Differs(src, dst, a) && Differs(src, dst, b)
        ensures a == b
      {
        AtMostOne(changed, a, b);
      }
    } else {
      var a :| a in changed;
      assert |changed - {a}| > 0;
      var b :| b in changed - {a};
      assert Differs(src, dst, a) && Differs(src, dst, b);
    }
  }

  lemma LinkedStays(src: Layout, dst: Layout, d: nat)
    requires WellFormed(src) && WellFormed(dst) && PerAxis(src).Keys == PerAxis(dst).Keys
    requires Linked(Entry(src, d), Entry(dst, d), Changed(PerAxis(src), PerAxis(dst)))
    requires forall a, b | Differs(src, dst, a) && Differs(src, dst, b) :: a == b
    ensures Staying(Entry(src, d), src, dst) == Staying(Entry(dst, d), src, dst)
    ensures ChangesInnermost(Entry(src, d), src, dst) && ChangesInnermost(Entry(dst, d), src, dst)
  {
    var x, y := Entry(src, d), Entry(dst, d);
    forall a | Differs(src, dst, a)
      ensures a !in x || a !in y
    {
      NotInBoth(src, dst, a, d);
    }
    ChangedDiffers(src, dst);
    var stay := if |x| <= |y| then x else y;
    forall i | 0 <= i < |stay|
      ensures !Differs(src, dst, stay[i])
    {
      assert stay[i] in x && stay[i] in y;
    }
    AllStay(stay, src, dst);
    if x != y {
      var longer := if |x| <= |y| then y else x;
      var a := longer[|longer| - 1];
      assert longer == stay + [a];
      LastGoes(stay, a, src, dst);
    }
  }

  lemma StaysLinked(src: Layout, dst: Layout, d: nat)
    requires WellFormed(src) && WellFormed(dst) && PerAxis(src).Keys == PerAxis(dst).Keys
    requires Staying(Entry(src, d), src, dst) == Staying(Entry(dst, d), src, dst)
    requires ChangesInnermost(Entry(src, d), src, dst) && ChangesInnermost(Entry(dst, d), src, dst)
    requires forall a, b | Differs(src, dst, a) && Differs(src, dst, b) :: a == b
    ensures Linked(Entry(src, d), Entry(dst, d), Changed(PerAxis(src), PerAxis(dst)))
  {
    EntrySplits(Entry(src, d), src, dst);
    EntrySplits(Entry(dst, d), src, dst);
    ChangedDiffers(src, dst);
  }

  lemma MoveIsLinked(src: Layout, dst: Layout)
    requires WellFormed(src) && WellFormed(dst)
    ensures OneAxisMove(src, dst) <==> LinkedMove(src, dst)
  {
    if PerAxis(src).Keys == PerAxis(dst).Keys {
      ChangedDiffers(src, dst);
      if LinkedMove(src, dst) {
        forall d: nat
          ensures Staying(Entry(src, d), src, dst) == Staying(Entry(dst, d), src, dst)
          ensures ChangesInnermost(Entry(src, d), src, dst) && ChangesInnermost(Entry(dst, d), src, dst)
        {
          LinkedStays(src, dst, d);
        }
      }
      if OneAxisMove(src, dst) {
        forall d: nat
          ensures Linked(Entry(src, d), Entry(dst, d), Changed(PerAxis(src), PerAxis(dst)))
        {
          StaysLinked(src, dst, d);
        }
      }
    }
  }

  /** The check accepts exactly the one-axis moves, ranks permitting. */
  lemma AcceptsOneAxisMoves(src: Layout, dst: Layout)
    requires WellFormed(src) && WellFormed(dst)
    ensures Validate(src, dst) == None <==> RanksMatch(src, dst) && OneAxisMove(src, dst)
  {
    AcceptsLinkedMoves(src, dst);
    MoveIsLinked(src, dst);
  }

  /** So taking the innermost axis off any entry, or putting one on, is accepted as long as no
      other axis changes its type: the all-gather and the reduce-scatter of one axis. */
  lemma InnermostMoves(src: Layout, dst: Layout, a: MeshAxisName, d: nat)
    requires WellFormed(src) && WellFormed(dst) && RanksMatch(src, dst)
    requires PerAxis(src).Keys == PerAxis(dst).Keys && forall b | Differs(src, dst, b) :: b == a
    requires Entry(src, d) == Entry(dst, d) + [a] && forall e: nat | e != d :: Entry(src, e) == Entry(dst, e)
    ensures Validate(src, dst) == None && Validate(dst, src) == None
  {
    EntryOnce(src, d);
    assert a !in Entry(dst, d) by {
      forall i | 0 <= i < |Entry(dst, d)|
        ensures Entry(dst, d)[i] != a
      {
        assert Entry(src, d)[i] == Entry(dst, d)[i] && Entry(src, d)[|Entry(dst, d)|] == a;
      }
    }
    EntryChange(src, dst, a, d);
    ChangedDiffers(src, dst);
    ChangedDiffers(dst, src);
    forall b | Differs(dst, src, b)
      ensures b == a
    {
      assert Differs(src, dst, b);
    }
    forall e: nat
      ensures Linked(Entry(src, e), Entry(dst, e), Changed(PerAxis(src), PerAxis(dst)))
      ensures Linked(Entry(dst, e), Entry(src, e), Changed(PerAxis(dst), PerAxis(src)))
    {
      assert Differs(dst, src, a);
    }
    AcceptsLinkedMoves(src, dst);
    AcceptsLinkedMoves(dst, src);
  }

  /** Hidden states sharded along the sequence by TP besides, and replicated over it. */
  const SEQUENCE_SHARDED := Layout([(DP, V), (CP, V), (TP, V)], Some([[DP], [CP, TP], []]))
  const REPLICATED := Layout([(DP, S(0)), (CP, S(1)), (TP, R)], None)

  lemma NormEntries(e: nat)
    ensures Entry(SEQUENCE_SHARDED, e) == if e == 0 then [DP] else if e == 1 then [CP, TP] else []
    ensures Entry(REPLICATED, e) == if e == 0 then [DP] else if e == 1 then [CP] else []
  {
    SpecStepsAxes([[DP], [CP, TP], []], 0, e);
    ThreeSteps(e);
  }

  lemma NormWellFormed()
    ensures WellFormed(SEQUENCE_SHARDED) && WellFormed(REPLICATED) && RanksMatch(SEQUENCE_SHARDED, REPLICATED)
  {
  }

  lemma NormTypes(b: MeshAxisName)
    ensures b in PerAxis(SEQUENCE_SHARDED) <==> b in PerAxis(REPLICATED)
    ensures Differs(SEQUENCE_SHARDED, REPLICATED, b) ==> b == TP
  {
    NormWellFormed();
    NormEntries(0);
    NormEntries(1);
    ShardTypeIsEntry(SEQUENCE_SHARDED, b, 0);
    ShardTypeIsEntry(SEQUENCE_SHARDED, b, 1);
    ShardTypeIsEntry(REPLICATED, b, 0);
    ShardTypeIsEntry(REPLICATED, b, 1);
    NormKeys(b);
  }

  ghost predicate Typed(types: seq<(MeshAxisName, AxisType)>, b: MeshAxisName) {
    exists i :: 0 <= i < |types| && types[i].0 == b
  }

  /** The axes of a layout are those its types list and those its spec names. */
  lemma KeysIff(l: Layout, b: MeshAxisName)
    requires WellFormed(l)
    ensures b in PerAxis(l) <==> Typed(l.types, b) || (l.spec.Some? && Named(l.spec.value, b))
  {
    TypesMapHas(l.types);
    if b in TypesMap(l.types) {
      var i :| 0 <= i < |l.types| && l.types[i] == (b, TypesMap(l.types)[b]);
    }
    if l.spec.Some? {
      OverlayAt(TypesMap(l.types), l.spec.value, b);
    }
  }

  lemma TypedThree(x: (MeshAxisName, AxisType), y: (MeshAxisName, AxisType), z: (MeshAxisName, AxisType),
                   b: MeshAxisName)
    ensures Typed([x, y, z], b) <==> b == x.0 || b == y.0 || b == z.0
  {
    var s := [x, y, z];
    assert s[0] == x && s[1] == y && s[2] == z;
  }

  lemma NormKeys(b: MeshAxisName)
    ensures b in PerAxis(SEQUENCE_SHARDED) <==> b == DP || b == CP || b == TP
    ensures b in PerAxis(REPLICATED) <==> b == DP || b == CP || b == TP
  {
    NormWellFormed();
    KeysIff(SEQUENCE_SHARDED, b);
    KeysIff(REPLICATED, b);
    TypedThree((DP, V), (CP, V), (TP, V), b);
    TypedThree((DP, S(0)), (CP, S(1)), (TP, R), b);
  }

  lemma NormEntry(e: nat)
    ensures Entry(SEQUENCE_SHARDED, e) == Entry(REPLICATED, e) + if e == 1 then [TP] else []
  {
    NormEntries(e);
  }

  /** Only TP changes its type. */
  lemma NormChanges()
    ensures PerAxis(SEQUENCE_SHARDED).Keys == PerAxis(REPLICATED).Keys
    ensures forall b | Differs(SEQUENCE_SHARDED, REPLICATED, b) :: b == TP
  {
    forall b
      ensures b in PerAxis(SEQUENCE_SHARDED) <==> b in PerAxis(REPLICATED)
      ensures Differs(SEQUENCE_SHARDED, REPLICATED, b) ==> b == TP
    {
      NormTypes(b);
    }
  }

  /** The all-gather before the head under sequence parallelism, and its way back. */
  lemma NormGathers()
    ensures Validate(SEQUENCE_SHARDED, REPLICATED) == None && Validate(REPLICATED, SEQUENCE_SHARDED) == None
  {
    NormWellFormed();
    NormChanges();
    assert Entry(SEQUENCE_SHARDED, 1) == Entry(REPLICATED, 1) + [TP] by { NormEntry(1); }
    forall e: nat | e != 1
      ensures Entry(SEQUENCE_SHARDED, e) == Entry(REPLICATED, e)
    {
      NormEntry(e);
    }
    InnermostMoves(SEQUENCE_SHARDED, REPLICATED, TP, 1);
  }

  lemma ThreeSteps(e: nat)
    ensures AxesOf(TypeSteps([(DP, S(0)), (CP, S(1)), (TP, R)]), e) ==
      if e == 0 then [DP] else if e == 1 then [CP] else []
  {
    var types := [(DP, S(0)), (CP, S(1)), (TP, R)];
    assert types[1..] == [(CP, S(1)), (TP, R)] && types[1..][1..] == [(TP, R)] && types[1..][1..][1..] == [];
    assert TypeSteps([(TP, R)]) == [];
    assert TypeSteps(types[1..]) == [Step(CP, 1)];
    assert TypeSteps(types) == [Step(DP, 0), Step(CP, 1)];
    assert [Step(DP, 0), Step(CP, 1)][1..] == [Step(CP, 1)] && [Step(CP, 1)][1..] == [];
    assert AxesOf([Step(CP, 1)], e) == if e == 1 then [CP] else [];
  }
}
