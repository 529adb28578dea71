/** MoE expert weights: which experts a rank holds, and collecting them one by one. */
module ExpertShards {
  import opened Arithmetic
  import opened Wrappers

  datatype Error = UnevenSplit

  // ----- index ranges -----

  /** `_calculate_strided_shard_shard_indices` for (StridedShard, Shard) on one dimension. */
  function StridedRange(stridedDegree: nat, stridedRank: nat, shardDegree: nat, shardRank: nat,
                        size: nat): Result<(nat, nat), Error>
    requires stridedRank < stridedDegree && shardRank < shardDegree
  {
    PositiveProduct(stridedDegree, shardDegree);
    var block := size / (stridedDegree * shardDegree);
    if block * (stridedDegree * shardDegree) != size then Err(UnevenSplit)
    else
      var start: nat := block * (stridedDegree * shardRank + stridedRank);
      Ok((start, start + block))
  }

  /** The single `Shard` case. */
  function ShardRange(degree: nat, rank: nat, size: nat): Result<(nat, nat), Error>
    requires rank < degree
  {
    var block := size / degree;
    if block * degree != size then Err(UnevenSplit)
    else
      var start: nat := block * rank;
      Ok((start, start + block))
  }

  lemma EvenIff(n: nat, size: nat)
    requires n > 0
    ensures (size / n) * n == size <==> size % n == 0
  {
    DigitsOf(size, n);
    assert (size / n) * n == n * (size / n);
  }

  /** Accepted exactly when the degrees divide the dimension. */
  lemma StridedAcceptedIff(stridedDegree: nat, stridedRank: nat, shardDegree: nat, shardRank: nat, size: nat)
    requires stridedRank < stridedDegree && shardRank < shardDegree
    ensures stridedDegree * shardDegree > 0
    ensures StridedRange(stridedDegree, stridedRank, shardDegree, shardRank, size).Ok?
      <==> size % (stridedDegree * shardDegree) == 0
  {
    PositiveProduct(stridedDegree, shardDegree);
    EvenIff(stridedDegree * shardDegree, size);
  }

  lemma ShardAcceptedIff(degree: nat, rank: nat, size: nat)
    requires rank < degree
    ensures ShardRange(degree, rank, size).Ok? <==> size % degree == 0
  {
    EvenIff(degree, size);
  }

  ghost predicate Holds(range: Result<(nat, nat), Error>, e: nat) {
    range.Ok? && range.value.0 <= e < range.value.1
  }

  /** Expert e lies in block q of equal blocks exactly when q is e divided by the block. */
  lemma InBlock(block: nat, q: nat, e: nat)
    requires block > 0
    ensures block * q <= e < block * q + block <==> q == e / block
  {
    DigitsOf(e, block);
    if block * q <= e < block * q + block {
      DivUnique(e, block, q, e - block * q);
    }
  }

  lemma DigitPair(q: nat, b: nat, s: nat, t: nat)
    requires b > 0 && s < b
    ensures b * t + s == q <==> s == q % b && t == q / b
  {
    DigitsOf(q, b);
    if b * t + s == q {
      DivUnique(q, b, t, s);
    }
  }

  lemma RangeHolds(stridedDegree: nat, s: nat, shardDegree: nat, t: nat, size: nat, e: nat, block: nat)
    requires s < stridedDegree && t < shardDegree && stridedDegree * shardDegree > 0
    requires block > 0 && block == size / (stridedDegree * shardDegree) && size % (stridedDegree * shardDegree) == 0
    ensures Holds(StridedRange(stridedDegree, s, shardDegree, t, size), e)
      <==> s == (e / block) % stridedDegree && t == (e / block) / stridedDegree
  {
    EvenIff(stridedDegree * shardDegree, size);
    InBlock(block, stridedDegree * t + s, e);
    DigitPair(e / block, stridedDegree, s, t);
  }

  /** The ranges of all rank pairs tile the experts: each expert is held by exactly one pair.
      Blocks go to the strided ranks first, then to the next shard rank. */
  lemma StridedTiles(stridedDegree: nat, shardDegree: nat, size: nat, e: nat) returns (strided: nat, shard: nat)
    requires stridedDegree > 0 && shardDegree > 0 && size % (stridedDegree * shardDegree) == 0 && e < size
    ensures strided < stridedDegree && shard < shardDegree
    ensures var block := size / (stridedDegree * shardDegree);
      block > 0 && shard * stridedDegree + strided == e / block
    ensures forall s: nat, t: nat | s < stridedDegree && t < shardDegree ::
      Holds(StridedRange(stridedDegree, s, shardDegree, t, size), e) <==> s == strided && t == shard
  {
    PositiveProduct(stridedDegree, shardDegree);
    var block := size / (stridedDegree * shardDegree);
    BlockPositive(size, stridedDegree * shardDegree);
    strided, shard := BlockRanks(stridedDegree, shardDegree, size, e, block);
    DigitsOf(e / block, stridedDegree);
    forall s: nat, t: nat | s < stridedDegree && t < shardDegree
      ensures Holds(StridedRange(stridedDegree, s, shardDegree, t, size), e) <==> s == strided && t == shard
    {
      RangeHolds(stridedDegree, s, shardDegree, t, size, e, block);
    }
  }

  lemma BlockRanks(stridedDegree: nat, shardDegree: nat, size: nat, e: nat, block: nat)
    returns (strided: nat, shard: nat)
    requires stridedDegree > 0 && stridedDegree * shardDegree > 0 && e < size
    requires block > 0 && block == size / (stridedDegree * shardDegree) && size % (stridedDegree * shardDegree) == 0
    ensures strided == (e / block) % stridedDegree && shard == (e / block) / stridedDegree
    ensures strided < stridedDegree && shard < shardDegree
  {
    var ranks := stridedDegree * shardDegree;
    EvenIff(ranks, size);
    QuotientIn(e, block, ranks);
    QuotientIn(e / block, stridedDegree, shardDegree);
    strided, shard := (e / block) % stridedDegree, (e / block) / stridedDegree;
  }

  lemma BlockPositive(size: nat, ranks: nat)
    requires ranks > 0 && size > 0 && size % ranks == 0
    ensures size / ranks > 0
  {
    DigitsOf(size, ranks);
  }

  lemma QuotientIn(e: nat, block: nat, ranks: nat)
    requires block > 0 && (e < block * ranks || e < ranks * block)
    ensures e / block < ranks
  {
    DigitsOf(e, block);
    if e / block >= ranks {
      MulGrows(block, ranks, e / block);
    }
  }

  lemma ShardTiles(degree: nat, size: nat, e: nat) returns (rank: nat)
    requires degree > 0 && size % degree == 0 && e < size
    ensures rank < degree && size / degree > 0 && rank == e / (size / degree)
    ensures forall r: nat | r < degree :: Holds(ShardRange(degree, r, size), e) <==> r == rank
  {
    EvenIff(degree, size);
    BlockPositive(size, degree);
    var block := size / degree;
    rank := e / block;
    QuotientIn(e, block, degree);
    forall r: nat | r < degree
      ensures Holds(ShardRange(degree, r, size), e) <==> r == rank
    {
      InBlock(block, r, e);
    }
  }

  // ----- collecting experts -----

  /** The ids start, ..., start + n - 1. */
  function Span(start: nat, n: nat): set<nat> {
    set e: nat | start <= e < start + n && InSpan(e, start, n)
  }

  predicate InSpan(e: nat, start: nat, n: nat) {
    start <= e < start + n
  }

  lemma {:induction false} SpanSize(start: nat, n: nat)
    ensures |Span(start, n)| == n
  {
    if n > 0 {
      SpanSize(start, n - 1);
      assert Span(start, n) == Span(start, n - 1) + {start + n - 1};
    }
  }

  /** Some experts of a local block that begins with expert `start`. */
  function Arrived<W>(ids: set<nat>, start: nat, block: seq<W>): map<nat, W>
    requires ids <= Span(start, |block|)
  {
    map e | e in ids :: block[e - start]
  }

  /** `_get_local_experts_weights`: the local block, expert by expert. */
  function SplitLocal<W>(start: nat, block: seq<W>): map<nat, W> {
    Arrived(Span(start, |block|), start, block)
  }

  /** Ids in ascending order. */
  ghost predicate Ascending(ids: seq<nat>) {
    forall i, j | 0 <= i < j < |ids| :: ids[i] < ids[j]
  }

  /** The experts collected so far for one key of one layer. */
  class ExpertCollector<W(!new)> {
    const expected: nat
    var experts: map<nat, W>

    constructor (start: nat, end: nat)
      requires start <= end
      ensures expected == end - start && experts == map[]
    {
      expected := end - start;
      experts := map[];
    }

    method SortedIds() returns (ids: seq<nat>)
      ensures Ascending(ids) && forall e: nat :: e in ids <==> e in experts
    {
      ids := [];
      var todo := experts.Keys;
      while todo != {}
        invariant todo <= experts.Keys && Ascending(ids)
        invariant forall e: nat :: e in ids <==> e in experts && e !in todo
        invariant forall i, e | 0 <= i < |ids| && e in todo :: ids[i] < e
        decreases |todo|
      {
        ghost var m := LeastOf(todo);
        assert forall e | e in todo :: m <= e;
        var least :| least in todo && forall e | e in todo :: least <= e;
        ids := ids + [least];
        todo := todo - {least};
      }
    }

    /** One more expert arrives; once enough are there they are stacked by id and the entry
        is deleted. */
    method Feed(id: nat, weight: W) returns (r: Option<seq<W>>)
      modifies this
      ensures var now := old(experts)[id := weight];
        if |now| < expected then r == None && experts == now
        else experts == map[] && r.Some? && Stacks(now, r.value)
    {
      experts := experts[id := weight];
      if |experts| < expected {
        return None;
      }
      var ids := SortedIds();
      var stacked := seq(|ids|, i requires 0 <= i < |ids| && ids[i] in experts reads this => experts[ids[i]]);
      assert IsStack(experts, ids, stacked);
      experts := map[];
      return Some(stacked);
    }
  }

  predicate IsLeast(s: set<nat>, m: nat) {
    forall e | e in s :: m <= e
  }

  lemma {:induction false} LeastOf(s: set<nat>) returns (m: nat)
    requires s != {}
    ensures m in s && IsLeast(s, m)
    decreases |s|
  {
    var x :| x in s;
    var rest := s - {x};
    m := x;
    if rest != {} {
      var other := LeastOf(rest);
      m := if x <= other then x else other;
    }
    assert forall e | e in s :: e == x || e in rest;
  }

  ghost predicate IsStack<W>(experts: map<nat, W>, ids: seq<nat>, stacked: seq<W>) {
    && Ascending(ids) && |stacked| == |ids|
    && (forall e: nat :: e in ids <==> e in experts)
    && forall i | 0 <= i < |ids| :: ids[i] in experts && stacked[i] == experts[ids[i]]
  }

  ghost predicate Stacks<W>(experts: map<nat, W>, stacked: seq<W>) {
    exists ids :: IsStack(experts, ids, stacked)
  }

  function Members(ids: seq<nat>): set<nat> {
    set e | e in ids
  }

  ghost predicate Distinct(ids: seq<nat>) {
    forall i, j | 0 <= i < j < |ids| :: ids[i] != ids[j]
  }

  lemma {:induction false} DistinctCount(ids: seq<nat>)
    requires Distinct(ids)
    ensures |Members(ids)| == |ids|
  {
    if ids != [] {
      var init := ids[..|ids| - 1];
      DistinctCount(init);
      assert ids == init + [ids[|ids| - 1]];
      assert Members(ids) == Members(init) + {ids[|ids| - 1]} && ids[|ids| - 1] !in Members(init);
    }
  }

  lemma {:induction false} AscendingLow(ids: seq<nat>, low: nat, k: nat)
    requires Ascending(ids) && k < |ids| && forall i | 0 <= i < |ids| :: low <= ids[i]
    ensures low + k <= ids[k]
  {
    if k > 0 {
      AscendingLow(ids, low, k - 1);
      assert ids[k - 1] < ids[k];
    }
  }

  lemma {:induction false} AscendingHigh(ids: seq<nat>, high: nat, k: nat)
    requires Ascending(ids) && k < |ids| && forall i | 0 <= i < |ids| :: ids[i] < high
    ensures ids[k] + (|ids| - k) <= high
    decreases |ids| - k
  {
    if k + 1 < |ids| {
      AscendingHigh(ids, high, k + 1);
      assert ids[k] < ids[k + 1];
    }
  }

  /** Ascending ids of a whole range are the range. */
  lemma AscendingRange(ids: seq<nat>, start: nat, n: nat)
    requires Ascending(ids) && forall e: nat :: e in ids <==> e in Span(start, n)
    ensures |ids| == n && forall k: nat | k < n :: ids[k] == start + k
  {
    DistinctCount(ids);
    SpanSize(start, n);
    assert Members(ids) == Span(start, n);
    forall k: nat | k < n
      ensures ids[k] == start + k
    {
      assert forall i | 0 <= i < |ids| :: ids[i] in ids;
      AscendingLow(ids, start, k);
      AscendingHigh(ids, start + n, k);
    }
  }

  lemma StackIds<W>(start: nat, block: seq<W>, ids: seq<nat>, stacked: seq<W>)
    requires IsStack(SplitLocal(start, block), ids, stacked)
    ensures Ascending(ids) && |stacked| == |ids| && forall e: nat :: e in ids <==> e in Span(start, |block|)
  {
  }

  lemma StackAt<W>(start: nat, block: seq<W>, ids: seq<nat>, stacked: seq<W>, k: nat)
    requires IsStack(SplitLocal(start, block), ids, stacked)
    requires k < |block| == |ids| && ids[k] == start + k
    ensures stacked[k] == block[k]
  {
    assert ids[k] in SplitLocal(start, block);
  }

  /** Stacking a whole local block gives the block. */
  lemma StackOfBlock<W>(start: nat, block: seq<W>, stacked: seq<W>)
    requires Stacks(SplitLocal(start, block), stacked)
    ensures stacked == block
  {
    var ids :| IsStack(SplitLocal(start, block), ids, stacked);
    assert |stacked| == |ids| == |block| && forall k: nat | k < |block| :: ids[k] == start + k by {
      StackIds(start, block, ids, stacked);
      AscendingRange(ids, start, |block|);
    }
    forall k: nat | k < |block|
      ensures stacked[k] == block[k]
    {
      StackAt(start, block, ids, stacked, k);
    }
  }

  /** An arrival order of the experts start, ..., start + n - 1. */
  ghost predicate Arrival(order: seq<nat>, start: nat, n: nat) {
    |order| == n && Distinct(order) && forall i | 0 <= i < n :: order[i] in Span(start, n)
  }

  lemma AllInside(small: set<nat>, big: set<nat>)
    requires small <= big && |small| == |big|
    ensures small == big
  {
    assert |big - small| == |big| - |small|;
  }

  /** Before the last arrival fewer than all experts are there; with it, all are. */
  lemma ArrivedCount(order: seq<nat>, start: nat, n: nat, k: nat)
    requires Arrival(order, start, n) && k <= n
    ensures Members(order[..k]) <= Span(start, n) && |Members(order[..k])| == k
    ensures k == n ==> Members(order[..k]) == Span(start, n)
    ensures k < n ==> Members(order[..k + 1]) == Members(order[..k]) + {order[k]}
  {
    DistinctCount(order[..k]);
    if k == n {
      SpanSize(start, n);
      AllInside(Members(order[..k]), Span(start, n));
    } else {
      assert order[..k + 1] == order[..k] + [order[k]];
    }
  }

  lemma ArrivedGrows<W>(ids: set<nat>, e: nat, start: nat, block: seq<W>)
    requires ids <= Span(start, |block|) && e in Span(start, |block|)
    ensures Arrived(ids + {e}, start, block) == Arrived(ids, start, block)[e := block[e - start]]
  {
  }

  lemma ArrivedSize<W>(ids: set<nat>, start: nat, block: seq<W>)
    requires ids <= Span(start, |block|)
    ensures |Arrived(ids, start, block)| == |ids|
  {
    assert Arrived(ids, start, block).Keys == ids;
  }

  /** The state after the first k arrivals. */
  ghost predicate Waiting<W>(experts: map<nat, W>, order: seq<nat>, start: nat, block: seq<W>, k: nat)
    requires k <= |order|
  {
    Members(order[..k]) <= Span(start, |block|) && experts == Arrived(Members(order[..k]), start, block)
  }

  lemma ArrivalInSpan(order: seq<nat>, start: nat, n: nat, k: nat)
    requires Arrival(order, start, n) && k < n
    ensures Members(order[..k + 1]) == Members(order[..k]) + {order[k]}
    ensures Members(order[..k]) <= Span(start, n) && order[k] in Span(start, n)
  {
    ArrivedCount(order, start, n, k);
  }

  /** One more arrival. */
  lemma ArrivalStep<W>(experts: map<nat, W>, order: seq<nat>, start: nat, block: seq<W>, k: nat)
    requires Arrival(order, start, |block|) && k < |block| && Waiting(experts, order, start, block, k)
    ensures Waiting(experts[order[k] := block[order[k] - start]], order, start, block, k + 1)
  {
    ArrivalInSpan(order, start, |block|, k);
    ArrivedGrows(Members(order[..k]), order[k], start, block);
  }

  /** Still waiting, or the whole block. */
  lemma WaitingSize<W>(experts: map<nat, W>, order: seq<nat>, start: nat, block: seq<W>, k: nat)
    requires Arrival(order, start, |block|) && k <= |block| && Waiting(experts, order, start, block, k)
    ensures |experts| == k && (k == |block| ==> experts == SplitLocal(start, block))
  {
    ArrivedCount(order, start, |block|, k);
    ArrivedSize(Members(order[..k]), start, block);
  }

  /** Splitting a local block and feeding its experts back in any order returns nothing until
      the last one arrives, and then the original block. */
  method FeedAll<W(!new)>(c: ExpertCollector<W>, order: seq<nat>, start: nat, block: seq<W>)
    returns (results: seq<Option<seq<W>>>)
    requires c.experts == map[] && c.expected == |block| > 0 && Arrival(order, start, |block|)
    modifies c
    ensures |results| == |block| && results[|block| - 1] == Some(block)
    ensures forall k | 0 <= k < |block| - 1 :: results[k] == None
    ensures c.experts == map[]
  {
    results := [];
    assert Waiting(c.experts, order, start, block, 0);
    for k := 0 to |order| - 1
      invariant |results| == k && forall i | 0 <= i < k :: results[i] == None
      invariant Waiting(c.experts, order, start, block, k)
    {
      var r := FeedNext(c, order, start, block, k);
      results := results + [r];
    }
    var r := FeedNext(c, order, start, block, |order| - 1);
    results := results + [r];
  }

  method FeedNext<W(!new)>(c: ExpertCollector<W>, order: seq<nat>, start: nat, block: seq<W>, k: nat)
    returns (r: Option<seq<W>>)
    requires c.expected == |block| && Arrival(order, start, |block|) && k < |block|
    requires Waiting(c.experts, order, start, block, k)
    modifies c
    ensures k + 1 < |block| ==> r == None && Waiting(c.experts, order, start, block, k + 1)
    ensures k + 1 == |block| ==> r == Some(block) && c.experts == map[]
  {
    ArrivalStep(c.experts, order, start, block, k);
    WaitingSize(c.experts[order[k] := block[order[k] - start]], order, start, block, k + 1);
    r := c.Feed(order[k], block[order[k] - start]);
    if k + 1 == |block| {
      StackOfBlock(start, block, r.value);
    }
  }
}
