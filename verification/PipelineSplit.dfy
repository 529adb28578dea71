/** Splitting a decoder into pipeline stages, and placing stages on ranks. */
module PipelineSplit {
  import opened Arithmetic
  import opened Decimals
  import opened Sequences
  import opened Wrappers

  datatype Error = NoStages | TooManyStages | EmptyStages | InputTooHeavy | OutputTooHeavy

  function LayerName(i: nat): string {
    "layers." + Decimal(i)
  }

  /** The names of layers from `lo` up to `hi`. */
  function Layers(lo: nat, hi: nat): (r: seq<string>)
    requires lo <= hi
    ensures |r| == hi - lo && forall i | 0 <= i < hi - lo :: r[i] == LayerName(lo + i)
  {
    seq(hi - lo, i requires 0 <= i < hi - lo => LayerName(lo + i))
  }

  const HEAD := ["tok_embeddings"]
  const TAIL := ["norm", "lm_head"]

  /** Every module of the model, in order. */
  function Whole(numLayers: nat): seq<string> {
    HEAD + Layers(0, numLayers) + TAIL
  }

  /** Effective layers of stage s: the remainder goes to the first stages. */
  function Share(effective: nat, stages: nat, s: nat): nat
    requires stages > 0
  {
    effective / stages + if s < effective % stages then 1 else 0
  }

  /** Layers before stage s. */
  function FirstLayer(numLayers: nat, input: nat, output: nat, stages: nat, s: nat): int
    requires stages > 0
    decreases s
  {
    if s == 0 then 0
    else FirstLayer(numLayers, input, output, stages, s - 1) + LayersIn(numLayers, input, output, stages, s - 1)
  }

  /** Transformer layers of stage s: its share less the modules it also holds. */
  function LayersIn(numLayers: nat, input: nat, output: nat, stages: nat, s: nat): int
    requires stages > 0
  {
    Share(numLayers + input + output, stages, s)
      - (if s == 0 then input else if s == stages - 1 then output else 0)
  }

  /** Accepted splits into two or more stages. */
  ghost predicate Balanced(numLayers: nat, input: nat, output: nat, stages: nat) {
    && stages >= 2 && stages <= numLayers + input + output
    && input <= (numLayers + input + output) / stages
    && output <= (numLayers + input + output) / stages
  }

  lemma {:induction false} SharesSum(effective: nat, stages: nat, s: nat)
    requires 0 < stages && s <= stages
    ensures SumShares(effective, stages, s) == s * (effective / stages) + Min(s, effective % stages)
    decreases s
  {
    if s > 0 {
      SharesSum(effective, stages, s - 1);
      MulStep(effective / stages, s - 1);
    }
  }

  function SumShares(effective: nat, stages: nat, s: nat): nat
    requires stages > 0
    decreases s
  {
    if s == 0 then 0 else SumShares(effective, stages, s - 1) + Share(effective, stages, s - 1)
  }

  function Min(a: nat, b: nat): nat {
    if a < b then a else b
  }

  lemma {:induction false} FirstLayerSum(numLayers: nat, input: nat, output: nat, stages: nat, s: nat)
    requires stages >= 2 && 0 < s <= stages
    ensures FirstLayer(numLayers, input, output, stages, s) ==
      SumShares(numLayers + input + output, stages, s) - input - (if s == stages then output else 0)
    decreases s
  {
    if s > 1 {
      FirstLayerSum(numLayers, input, output, stages, s - 1);
    } else {
      assert FirstLayer(numLayers, input, output, stages, 0) == 0;
      assert SumShares(numLayers + input + output, stages, 0) == 0;
    }
  }

  /** No stage's layer count is negative, and together they are all the layers: so the
      guards against running past the last layer never take effect. */
  lemma AllLayersPlaced(numLayers: nat, input: nat, output: nat, stages: nat)
    requires Balanced(numLayers, input, output, stages)
    ensures FirstLayer(numLayers, input, output, stages, stages) == numLayers
    ensures forall s: nat | s < stages :: LayersIn(numLayers, input, output, stages, s) >= 0
  {
    var n := numLayers + input + output;
    FirstLayerSum(numLayers, input, output, stages, stages);
    SharesSum(n, stages, stages);
    DigitsOf(n, stages);
  }

  lemma {:induction false} FirstLayerGrows(numLayers: nat, input: nat, output: nat, stages: nat, s: nat, t: nat)
    requires Balanced(numLayers, input, output, stages) && s <= t <= stages
    ensures FirstLayer(numLayers, input, output, stages, s) <= FirstLayer(numLayers, input, output, stages, t)
    decreases t
  {
    if s < t {
      AllLayersPlaced(numLayers, input, output, stages);
      FirstLayerGrows(numLayers, input, output, stages, s, t - 1);
    }
  }

  lemma FirstLayerInRange(numLayers: nat, input: nat, output: nat, stages: nat, s: nat)
    requires Balanced(numLayers, input, output, stages) && s <= stages
    ensures 0 <= FirstLayer(numLayers, input, output, stages, s) <= numLayers
  {
    FirstLayerGrows(numLayers, input, output, stages, 0, s);
    FirstLayerGrows(numLayers, input, output, stages, s, stages);
    AllLayersPlaced(numLayers, input, output, stages);
  }

  // ----- the stages -----

  /** The modules of stage s. */
  ghost function Stage(numLayers: nat, input: nat, output: nat, stages: nat, s: nat): seq<string>
    requires Balanced(numLayers, input, output, stages) && s < stages
  {
    FirstLayerInRange(numLayers, input, output, stages, s);
    FirstLayerInRange(numLayers, input, output, stages, s + 1);
    FirstLayerGrows(numLayers, input, output, stages, s, s + 1);
    (if s == 0 then HEAD else [])
    + Layers(FirstLayer(numLayers, input, output, stages, s), FirstLayer(numLayers, input, output, stages, s + 1))
    + (if s == stages - 1 then TAIL else [])
  }

  lemma LayersJoin(a: nat, b: nat, c: nat)
    requires a <= b <= c
    ensures Layers(a, b) + Layers(b, c) == Layers(a, c)
  {
  }

  ghost predicate AreStages(r: seq<seq<string>>, numLayers: nat, input: nat, output: nat, stages: nat)
    requires Balanced(numLayers, input, output, stages)
  {
    |r| <= stages && forall s: nat | s < |r| :: r[s] == Stage(numLayers, input, output, stages, s)
  }

  /** The modules of the first k stages. */
  ghost function Upto(numLayers: nat, input: nat, output: nat, stages: nat, k: nat): seq<string>
    requires Balanced(numLayers, input, output, stages) && k <= stages
  {
    FirstLayerInRange(numLayers, input, output, stages, k);
    (if k > 0 then HEAD else []) + Layers(0, FirstLayer(numLayers, input, output, stages, k))
    + (if k == stages then TAIL else [])
  }

  lemma Regroup(h: seq<string>, x: seq<string>, y: seq<string>, t: seq<string>)
    ensures (h + x + []) + ([] + y + t) == h + (x + y) + t
    ensures ([] + [] + []) + (h + y + []) == h + y + []
  {
  }

  lemma StageAppends(numLayers: nat, input: nat, output: nat, stages: nat, s: nat)
    requires Balanced(numLayers, input, output, stages) && s < stages
    ensures Upto(numLayers, input, output, stages, s) + Stage(numLayers, input, output, stages, s)
      == Upto(numLayers, input, output, stages, s + 1)
  {
    FirstLayerInRange(numLayers, input, output, stages, s);
    FirstLayerInRange(numLayers, input, output, stages, s + 1);
    FirstLayerGrows(numLayers, input, output, stages, s, s + 1);
    var a, b := FirstLayer(numLayers, input, output, stages, s), FirstLayer(numLayers, input, output, stages, s + 1);
    LayersJoin(0, a, b);
    Regroup(HEAD, Layers(0, a), Layers(a, b), if s == stages - 1 then TAIL else []);
    if s == 0 {
      assert Layers(0, 0) == [];
    }
  }

  lemma {:induction false} FlattenStages(r: seq<seq<string>>, numLayers: nat, input: nat, output: nat, stages: nat)
    requires Balanced(numLayers, input, output, stages) && AreStages(r, numLayers, input, output, stages)
    ensures Flatten(r) == Upto(numLayers, input, output, stages, |r|)
    decreases |r|
  {
    if r == [] {
      assert Layers(0, 0) == [];
    } else {
      var n := |r| - 1;
      FlattenStages(r[..n], numLayers, input, output, stages);
      assert r == r[..n] + [r[n]];
      FlattenJoin(r[..n], [r[n]]);
      FlattenOne(r[n]);
      StageAppends(numLayers, input, output, stages, n);
    }
  }

  /** All stages together are the whole model, every module once and in order. */
  lemma StagesPartition(r: seq<seq<string>>, numLayers: nat, input: nat, output: nat, stages: nat)
    requires Balanced(numLayers, input, output, stages) && AreStages(r, numLayers, input, output, stages)
    requires |r| == stages
    ensures Flatten(r) == Whole(numLayers)
  {
    FlattenStages(r, numLayers, input, output, stages);
    AllLayersPlaced(numLayers, input, output, stages);
  }

  /** Weighted stage sizes differ by at most one: embeddings count `input` layers, norm and
      head together `output`. */
  lemma StagesBalanced(numLayers: nat, input: nat, output: nat, stages: nat, s: nat, t: nat)
    requires Balanced(numLayers, input, output, stages) && s < stages && t < stages
    ensures -1 <= Weight(numLayers, input, output, stages, s) - Weight(numLayers, input, output, stages, t) <= 1
  {
  }

  function Weight(numLayers: nat, input: nat, output: nat, stages: nat, s: nat): int
    requires stages > 0
  {
    LayersIn(numLayers, input, output, stages, s)
    + (if s == 0 then input else 0) + (if s == stages - 1 && s > 0 then output else 0)
  }

  /** No module name occurs twice in the model. */
  lemma WholeDistinct(numLayers: nat)
    ensures forall i, j | 0 <= i < j < |Whole(numLayers)| :: Whole(numLayers)[i] != Whole(numLayers)[j]
  {
    var w := Whole(numLayers);
    forall i, j | 0 <= i < j < |w|
      ensures w[i] != w[j]
    {
      if 1 <= i && j <= numLayers {
        assert w[i] == LayerName(i - 1) && w[j] == LayerName(j - 1);
        assert LayerName(i - 1)[7..] == Decimal(i - 1) && LayerName(j - 1)[7..] == Decimal(j - 1);
        DecimalInjective(i - 1, j - 1);
      } else if 1 <= i <= numLayers {
        assert w[i] == LayerName(i - 1) && LayerName(i - 1)[5] == 's';
      } else if 1 <= j <= numLayers {
        assert w[j] == LayerName(j - 1) && LayerName(j - 1)[0] == 'l';
      }
    }
  }

  // ----- generating -----

  /** `_generate_llm_fqn_per_model_part`: the counter `currentLayer` runs through all layers. */
  method Generate(numStages: nat, numLayers: nat, input: nat, output: nat) returns (r: Result<seq<seq<string>>, Error>)
    ensures numStages == 1 ==> r == Ok([Whole(numLayers)])
    ensures numStages >= 2 ==> (r.Ok? <==> Balanced(numLayers, input, output, numStages))
    ensures numStages == 0 ==> r == Err(NoStages)
    ensures r == Err(TooManyStages) <==> numStages >= 2 && numStages > numLayers + input + output
    ensures r == Err(InputTooHeavy) <==>
      2 <= numStages <= numLayers + input + output && input > (numLayers + input + output) / numStages
    ensures r == Err(OutputTooHeavy) ==> numStages > 0 && output > (numLayers + input + output) / numStages
    ensures r != Err(EmptyStages)
    ensures numStages >= 2 && r.Ok? ==>
      |r.value| == numStages && AreStages(r.value, numLayers, input, output, numStages)
  {
    if numStages < 1 {
      return Err(NoStages);
    }
    if numStages == 1 {
      return Ok([HEAD + Layers(0, numLayers) + TAIL]);
    }
    var effective := numLayers + input + output;
    if numStages > effective {
      return Err(TooManyStages);
    }
    var perStage, extra := effective / numStages, effective % numStages;
    DigitsOf(effective, numStages);
    if perStage == 0 {
      return Err(EmptyStages);
    }
    if input > perStage {
      return Err(InputTooHeavy);
    }
    if output > perStage {
      return Err(OutputTooHeavy);
    }
    var parts: seq<seq<string>> := [];
    var currentLayer := 0;
    for s := 0 to numStages
      invariant |parts| == s && AreStages(parts, numLayers, input, output, numStages)
      invariant currentLayer == FirstLayer(numLayers, input, output, numStages, s)
    {
      var names: seq<string>;
      var layers := perStage + if s < extra then 1 else 0;
      names, currentLayer := OneStage(s, currentLayer, layers, numStages, numLayers, input, output);
      parts := parts + [names];
    }
    return Ok(parts);
  }

  /** The body of the stage loop: the first stage, the last one, or one in between. */
  method OneStage(s: nat, current: nat, share: nat, numStages: nat, numLayers: nat, input: nat, output: nat)
    returns (names: seq<string>, next: nat)
    requires Balanced(numLayers, input, output, numStages) && s < numStages
    requires current == FirstLayer(numLayers, input, output, numStages, s)
    requires share == Share(numLayers + input + output, numStages, s)
    ensures names == Stage(numLayers, input, output, numStages, s)
    ensures next == FirstLayer(numLayers, input, output, numStages, s + 1)
  {
    FirstLayerInRange(numLayers, input, output, numStages, s);
    FirstLayerInRange(numLayers, input, output, numStages, s + 1);
    AllLayersPlaced(numLayers, input, output, numStages);
    if s == 0 {
      names, next := TakeLayers(HEAD, current, share - input, numLayers);
    } else if s == numStages - 1 {
      names, next := TakeLayers([], current, share - output, numLayers);
      names := names + TAIL;
    } else {
      names, next := TakeLayers([], current, share, numLayers);
    }
  }

  /** The inner loop, with its guard. */
  method TakeLayers(front: seq<string>, current: nat, count: nat, numLayers: nat)
    returns (names: seq<string>, next: nat)
    requires current <= numLayers
    ensures next == Min(current + count, numLayers) && names == front + Layers(current, next)
  {
    names, next := front, current;
    for k := 0 to count
      invariant next == Min(current + k, numLayers) && names == front + Layers(current, next)
    {
      if next < numLayers {
        names := names + [LayerName(next)];
        next := next + 1;
      }
    }
  }

  // ----- ranks -----

  datatype Style = Loop | V

  /** `_get_pp_rank_to_stage_indices_mapping`; `None` where the source asserts. */
  function StagesOfRank(rank: nat, ranks: nat, style: Style, stages: nat): Option<seq<nat>>
    requires rank < ranks
  {
    if stages % ranks != 0 then None
    else
      var each := stages / ranks;
      match style
      case Loop => Some(seq<nat>(each, (k: nat) => rank + k * ranks))
      case V => if each != 2 then None else Some([rank, stages - 1 - rank])
  }

  /** Every stage lives on exactly one rank, whichever mapping is in use: round robin in the
      loop, and there and back in the V, which puts the first and the last stage on rank 0. */
  lemma StageHasOneRank(ranks: nat, style: Style, stages: nat, stage: nat) returns (home: nat)
    requires ranks > 0 && stage < stages && stages % ranks == 0 && (style == V ==> stages / ranks == 2)
    ensures home < ranks && StagesOfRank(home, ranks, style, stages).Some?
    ensures home == if style == Loop then stage % ranks else if stage < ranks then stage else stages - 1 - stage
    ensures stage in StagesOfRank(home, ranks, style, stages).value
    ensures forall r: nat | r < ranks && stage in StagesOfRank(r, ranks, style, stages).value :: r == home
  {
    DigitsOf(stages, ranks);
    if style == V {
      assert stages == 2 * ranks;
      home := if stage < ranks then stage else stages - 1 - stage;
    } else {
      home := LoopHome(ranks, stages, stage);
      forall r: nat | r < ranks && stage in StagesOfRank(r, ranks, style, stages).value
        ensures r == home
      {
        LoopOnly(ranks, stages, stage, r);
      }
    }
  }

  /** A rank has stages exactly when they divide over the ranks, in a V into two each. */
  lemma MappedIff(rank: nat, ranks: nat, style: Style, stages: nat)
    requires rank < ranks
    ensures StagesOfRank(rank, ranks, style, stages).Some?
      <==> stages % ranks == 0 && (style == V ==> stages == 2 * ranks)
    ensures StagesOfRank(rank, ranks, style, stages).Some? ==>
      |StagesOfRank(rank, ranks, style, stages).value| * ranks == stages
  {
    DigitsOf(stages, ranks);
    DivUnique(2 * ranks, ranks, 2, 0);
  }

  lemma RowBelow(ranks: nat, k: nat, home: nat, each: nat)
    requires ranks * k + home < ranks * each
    ensures k < each
  {
    if each <= k {
      MulGrows(ranks, each, k);
    }
  }

  lemma MulSwap(a: nat, b: nat)
    ensures a * b == b * a
  {
  }

  lemma LoopHome(ranks: nat, stages: nat, stage: nat) returns (home: nat)
    requires ranks > 0 && stage < stages && stages % ranks == 0
    ensures home == stage % ranks && stage in StagesOfRank(home, ranks, Loop, stages).value
  {
    home := stage % ranks;
    var k, each := stage / ranks, stages / ranks;
    assert ranks * k + home == stage by { DigitsOf(stage, ranks); }
    assert ranks * each == stages by { DigitsOf(stages, ranks); }
    RowBelow(ranks, k, home, each);
    MulSwap(ranks, k);
    assert StagesOfRank(home, ranks, Loop, stages).value[k] == home + k * ranks;
  }

  lemma LoopOnly(ranks: nat, stages: nat, stage: nat, r: nat)
    requires ranks > 0 && stages % ranks == 0 && r < ranks
    requires stage in StagesOfRank(r, ranks, Loop, stages).value
    ensures r == stage % ranks
  {
    var s := StagesOfRank(r, ranks, Loop, stages).value;
    var k :| 0 <= k < |s| && s[k] == stage;
    MulSwap(k, ranks);
    DivUnique(stage, ranks, k, r);
  }

  // ----- the plan -----

  datatype PlanError = ZeroLayersPerStage | UnevenRanks | NotSingle | NotMultiple

  /** `_get_pipeline_metadata`: the number of virtual stages. */
  function VirtualStages(ranks: nat, single: bool, layersPerStage: Option<nat>, effective: nat): Result<nat, PlanError>
    requires ranks > 0
  {
    match layersPerStage
    case None => Ok(if single then ranks else ranks * 2)
    case Some(per) =>
      if per == 0 then Err(ZeroLayersPerStage)
      else
        var stages := (effective + per - 1) / per;
        if stages % ranks != 0 then Err(UnevenRanks)
        else if single && stages / ranks != 1 then Err(NotSingle)
        else if !single && stages / ranks < 2 then Err(NotMultiple)
        else Ok(stages)
  }

  /** With a limit on layers the plan is the least number of stages that keeps it, refused
      unless it divides over the ranks into one each or at least two each as the schedule asks. */
  lemma PlanIsLeast(ranks: nat, single: bool, per: nat, effective: nat, stages: nat)
    requires ranks > 0
    ensures VirtualStages(ranks, single, Some(per), effective) == Ok(stages) <==>
      && per > 0 && effective <= stages * per && (stages > 0 ==> (stages - 1) * per < effective)
      && stages % ranks == 0 && (if single then stages == ranks else stages >= 2 * ranks)
  {
    if per > 0 {
      CeilingIff(effective, per, stages);
      if stages % ranks == 0 {
        RanksEach(stages, ranks);
      }
    }
  }

  lemma CeilingIff(n: nat, b: nat, q: nat)
    requires b > 0
    ensures (n + b - 1) / b == q <==> n <= q * b && (q > 0 ==> (q - 1) * b < n)
  {
    var m := n + b - 1;
    DigitsOf(m, b);
    MulStep(b, m / b);
    MulStep(b, q - 1);
    if n <= q * b && (q > 0 ==> (q - 1) * b < n) {
      if q == 0 {
        DivUnique(m, b, 0, m);
      } else {
        DivUnique(m, b, q, m - b * q);
      }
    }
  }

  lemma RanksEach(stages: nat, ranks: nat)
    requires ranks > 0 && stages % ranks == 0
    ensures stages / ranks == 1 <==> stages == ranks
    ensures stages / ranks >= 2 <==> stages >= 2 * ranks
  {
    DigitsOf(stages, ranks);
    if stages / ranks >= 2 {
      MulGrows(ranks, 2, stages / ranks);
    }
  }

  lemma StagesPerRank(ranks: nat, single: bool, layersPerStage: Option<nat>, effective: nat, style: Style, rank: nat)
    requires rank < ranks && VirtualStages(ranks, single, layersPerStage, effective).Ok?
    ensures var stages := VirtualStages(ranks, single, layersPerStage, effective).value;
      && stages % ranks == 0 && stages > 0
      && (single ==> StagesOfRank(rank, ranks, Loop, stages) == Some([rank]))
      && (!single && layersPerStage.None? ==>
        StagesOfRank(rank, ranks, style, stages).Some? && |StagesOfRank(rank, ranks, style, stages).value| == 2)
  {
    WholeRanks(ranks, 1);
    WholeRanks(ranks, 2);
    var stages := VirtualStages(ranks, single, layersPerStage, effective).value;
    DigitsOf(stages, ranks);
    if single {
      assert stages / ranks == 1;
      assert StagesOfRank(rank, ranks, Loop, stages).value == [rank];
    }
  }

  lemma WholeRanks(ranks: nat, k: nat)
    requires ranks > 0
    ensures (ranks * k) / ranks == k && (ranks * k) % ranks == 0
  {
    DivUnique(ranks * k, ranks, k, 0);
  }

  lemma TightQuotient(stages: nat, per: nat, q: nat, r: nat)
    requires r < stages && stages * q + r <= stages * per
    ensures q <= per && (q == per ==> r == 0)
  {
    QuotientBound(stages, per, 0, q);
  }

  lemma ShareFits(effective: nat, per: nat, stages: nat, s: nat)
    requires stages > 0 && effective <= stages * per
    ensures Share(effective, stages, s) <= per
  {
    DigitsOf(effective, stages);
    TightQuotient(stages, per, effective / stages, effective % stages);
  }

  lemma CeilCovers(effective: nat, per: nat)
    requires per > 0
    ensures effective <= ((effective + per - 1) / per) * per
  {
    DigitsOf(effective + per - 1, per);
  }

  /** A plan made for at most `per` layers a stage keeps to it: every stage of the split,
      embeddings and head counted by their weights, holds at most that many. */
  lemma PlanFits(ranks: nat, single: bool, per: nat, numLayers: nat, input: nat, output: nat, stages: nat, s: nat)
    requires ranks > 0 && VirtualStages(ranks, single, Some(per), numLayers + input + output) == Ok(stages)
    requires Balanced(numLayers, input, output, stages) && s < stages
    ensures Weight(numLayers, input, output, stages, s) <= per
  {
    CeilCovers(numLayers + input + output, per);
    ShareFits(numLayers + input + output, per, stages, s);
  }
}
