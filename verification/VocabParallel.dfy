/** `_LossParallelCrossEntropy` over ceil-divided shards: whole batches, both reductions,
    and the masked in-place writes. */
module VocabParallelLoss {
  import opened Arithmetic
  import opened Sequences
  import opened VocabLosses
  import opened VocabShards
  import opened Wrappers

  /** No rank raises: what the checks at the head of the forward pass ask of all ranks. */
  ghost predicate Accepted(vocab: nat, ranks: nat) {
    ranks > 0 && forall r: nat | r < ranks :: CheckShard(vocab, ranks, r, Size(vocab, ranks, r)) == None
  }

  lemma AcceptedChunk(vocab: nat, ranks: nat)
    requires ranks > 0
    ensures Accepted(vocab, ranks) <==> Chunk(vocab, ranks) * (ranks - 1) < vocab
  {
    forall r: nat | r < ranks
      ensures Chunk(vocab, ranks) * (ranks - 1) < vocab ==> Size(vocab, ranks, r) > 0
    {
      EmptyShards(vocab, ranks, r);
    }
    EmptyShards(vocab, ranks, ranks - 1);
    if Accepted(vocab, ranks) {
      assert CheckShard(vocab, ranks, ranks - 1, Size(vocab, ranks, ranks - 1)) == None;
    }
  }

  /** With n whole rows of `ranks` and r left over, the last of the chunks of n + 1 is not empty
      exactly when n and r together reach the number of ranks. */
  lemma LastChunk(ranks: nat, n: nat, r: nat)
    requires 0 < r < ranks
    ensures (n + 1) * (ranks - 1) < ranks * n + r <==> n + r >= ranks
  {
    assert (n + 1) * (ranks - 1) == ranks * n + ranks - n - 1;
  }

  /** All ranks go ahead exactly when the vocabulary divides evenly, or its quotient and
      remainder together reach the number of ranks. */
  lemma AcceptedIff(vocab: nat, ranks: nat)
    requires ranks > 0
    ensures Accepted(vocab, ranks)
      <==> vocab > 0 && (vocab % ranks == 0 || vocab / ranks + vocab % ranks >= ranks)
  {
    var n, r := vocab / ranks, vocab % ranks;
    AcceptedChunk(vocab, ranks);
    ChunkIs(vocab, ranks);
    DigitsOf(vocab, ranks);
    if r == 0 {
      MulStep(n, ranks - 1);
      if vocab > 0 {
        assert n > 0;
      }
    } else {
      LastChunk(ranks, n, r);
    }
  }

  /** So a vocabulary of at least ranks * (ranks - 1) tokens always goes through. */
  lemma LargeAccepted(vocab: nat, ranks: nat)
    requires ranks > 0 && vocab >= ranks * (ranks - 1) && vocab > 0
    ensures Accepted(vocab, ranks)
  {
    AcceptedIff(vocab, ranks);
    DigitsOf(vocab, ranks);
    QuotientBound(ranks, vocab / ranks, vocab % ranks, ranks - 1);
  }

  /** One token's logits as the ranks hold them. */
  function Sharded(x: seq<real>, ranks: nat): (s: seq<Shard>)
    requires ranks > 0
    ensures |s| == ranks
    ensures forall r: nat | r < ranks ::
      s[r] == Shard(Start(|x|, ranks, r), x[Start(|x|, ranks, r)..End(|x|, ranks, r)])
  {
    seq(ranks, (r: nat) requires r < ranks =>
      Shard(Start(|x|, ranks, r), x[Start(|x|, ranks, r)..End(|x|, ranks, r)]))
  }

  lemma ShardedPieces(x: seq<real>, ranks: nat)
    requires Accepted(|x|, ranks)
    ensures Pieces(Sharded(x, ranks), x)
  {
    var s := Sharded(x, ranks);
    forall r: nat | r < ranks
      ensures s[r].row != []
    {
      assert CheckShard(|x|, ranks, r, Size(|x|, ranks, r)) == None;
    }
    assert Rows(s) == Shards(x, ranks, ranks);
    ShardsRestore(x, ranks);
  }

  lemma ShardsInOrder(x: seq<real>, ranks: nat, q: nat, r: nat)
    requires q < r < ranks
    ensures Sharded(x, ranks)[q].start + |Sharded(x, ranks)[q].row| <= Sharded(x, ranks)[r].start
  {
    ShardsAdjoin(|x|, ranks, q);
    StartsAscend(|x|, ranks, q + 1, r);
  }

  lemma ShardsOwn(x: seq<real>, ranks: nat, v: nat)
    requires ranks > 0 && v < |x|
    ensures HasOwner(Sharded(x, ranks), v)
  {
    var r := OneOwner(|x|, ranks, v);
    assert Owned(Sharded(x, ranks), r, v);
  }

  lemma ShardedPlaced(x: seq<real>, ranks: nat)
    requires ranks > 0
    ensures Placed(Sharded(x, ranks), x)
  {
    forall q, r | 0 <= q < r < ranks
      ensures Sharded(x, ranks)[q].start + |Sharded(x, ranks)[q].row| <= Sharded(x, ranks)[r].start
    {
      ShardsInOrder(x, ranks, q, r);
    }
    forall v: nat | v < |x|
      ensures HasOwner(Sharded(x, ranks), v)
    {
      ShardsOwn(x, ranks, v);
    }
  }

  // ----- batches -----

  ghost predicate Batch(xs: seq<seq<real>>, labels: seq<int>, vocab: nat) {
    && |labels| == |xs| && vocab > 0
    && (forall n | 0 <= n < |xs| :: |xs[n]| == vocab)
    && forall n | 0 <= n < |xs| :: labels[n] == IGNORE_INDEX || 0 <= labels[n] < vocab
  }

  function SerialLosses(f: Fns, xs: seq<seq<real>>, labels: seq<int>): seq<real>
    requires |labels| == |xs| && forall n | 0 <= n < |xs| :: xs[n] != []
    requires forall n | 0 <= n < |xs| :: labels[n] == IGNORE_INDEX || 0 <= labels[n] < |xs[n]|
  {
    seq(|xs|, n requires 0 <= n < |xs| => Nll(f, xs[n], labels[n]))
  }

  /** `reduction="none"`: the per-token losses; `reduction="sum"` adds them up. */
  ghost function ParallelLosses(f: Fns, xs: seq<seq<real>>, labels: seq<int>, ranks: nat): seq<real>
    requires |labels| == |xs| && ranks > 0 && forall n | 0 <= n < |xs| :: NonEmpty(Sharded(xs[n], ranks))
  {
    seq(|xs|, n requires 0 <= n < |xs| => ParallelNll(f, Sharded(xs[n], ranks), labels[n]))
  }

  /** Forward: for every vocabulary size, degree without an empty shard and label vector with
      ignored entries, both reductions are the serial ones. */
  lemma ForwardExact(f: Fns, xs: seq<seq<real>>, labels: seq<int>, vocab: nat, ranks: nat)
    requires Batch(xs, labels, vocab) && Accepted(vocab, ranks)
    ensures forall n | 0 <= n < |xs| :: NonEmpty(Sharded(xs[n], ranks))
    ensures ParallelLosses(f, xs, labels, ranks) == SerialLosses(f, xs, labels)
    ensures Sum(ParallelLosses(f, xs, labels, ranks)) == Sum(SerialLosses(f, xs, labels))
  {
    forall n | 0 <= n < |xs|
      ensures NonEmpty(Sharded(xs[n], ranks))
      ensures ParallelNll(f, Sharded(xs[n], ranks), labels[n]) == Nll(f, xs[n], labels[n])
    {
      ShardedPieces(xs[n], ranks);
      ShardedPlaced(xs[n], ranks);
      ForwardIsSerial(f, Sharded(xs[n], ranks), xs[n], labels[n]);
    }
  }

  ghost function LocalGradients(f: Fns, x: seq<real>, ranks: nat, lbl: int, up: real): (s: seq<seq<real>>)
    requires ranks > 0 && NonEmpty(Sharded(x, ranks))
    ensures |s| == ranks
    ensures forall r: nat | r < ranks ::
      && LocalLogProbs(f, Sharded(x, ranks), r) != []
      && s[r] == LocalGradient(f, Start(|x|, ranks, r), LocalLogProbs(f, Sharded(x, ranks), r), lbl, up)
  {
    seq(ranks, (r: nat) requires r < ranks =>
      LocalGradient(f, Start(|x|, ranks, r), LocalLogProbs(f, Sharded(x, ranks), r), lbl, up))
  }

  /** Backward: a token's local gradients, put together in rank order, are
      (softmax - one-hot) * upstream, and all zero for an ignored label. */
  lemma BackwardExact(f: Fns, x: seq<real>, ranks: nat, lbl: int, up: real)
    requires x != [] && Accepted(|x|, ranks)
    ensures NonEmpty(Sharded(x, ranks))
    ensures Flatten(LocalGradients(f, x, ranks, lbl, up)) == Gradient(f, LogProbs(f, x), lbl, up)
  {
    assert Pieces(Sharded(x, ranks), x) by { ShardedPieces(x, ranks); }
    var g := Gradient(f, LogProbs(f, x), lbl, up);
    forall r: nat | r < ranks
      ensures LocalGradients(f, x, ranks, lbl, up)[r] == g[Start(|g|, ranks, r)..End(|g|, ranks, r)]
    {
      LocalIsSlice(f, x, ranks, r, lbl, up);
    }
    assert LocalGradients(f, x, ranks, lbl, up) == Shards(g, ranks, ranks);
    ShardsRestore(g, ranks);
  }

  lemma LocalIsSlice(f: Fns, x: seq<real>, ranks: nat, r: nat, lbl: int, up: real)
    requires x != [] && r < ranks && NonEmpty(Sharded(x, ranks)) && Pieces(Sharded(x, ranks), x)
    ensures var g := Gradient(f, LogProbs(f, x), lbl, up);
      |g| == |x| && LocalGradients(f, x, ranks, lbl, up)[r] == g[Start(|x|, ranks, r)..End(|x|, ranks, r)]
  {
    var shards := Sharded(x, ranks);
    ShardWithin(x, ranks, r);
    BackwardIsSerial(f, shards, x, r, lbl, up);
  }

  lemma ShardWithin(x: seq<real>, ranks: nat, r: nat)
    requires r < ranks
    ensures var s := Sharded(x, ranks)[r];
      Within(s, x) && s.start == Start(|x|, ranks, r) && s.start + |s.row| == End(|x|, ranks, r)
  {
    ShardedPlaced(x, ranks);
  }

  // ----- the masked writes -----

  /** `local_labels` and `out_of_range` of the batch, the mask written in place. */
  method MaskLabels(labels: array<int>, start: nat, size: nat)
    returns (localLabels: array<int>, outOfRange: array<bool>)
    ensures fresh(localLabels) && fresh(outOfRange)
    ensures localLabels.Length == outOfRange.Length == labels.Length
    ensures forall n | 0 <= n < labels.Length ::
      localLabels[n] == LocalLabel(labels[n], start, size) && outOfRange[n] == OutOfRange(labels[n], start, size)
  {
    localLabels := new int[labels.Length];
    outOfRange := new bool[labels.Length];
    for n := 0 to labels.Length
      invariant forall k | 0 <= k < n :: outOfRange[k] == OutOfRange(labels[k], start, size)
      invariant forall k | 0 <= k < n :: localLabels[k] == Safe(labels[k]) - start
    {
      var safe := Safe(labels[n]);
      outOfRange[n] := safe < start || safe >= start + size;
      localLabels[n] := safe - start;
    }
    for n := 0 to labels.Length
      invariant forall k | 0 <= k < labels.Length :: outOfRange[k] == OutOfRange(labels[k], start, size)
      invariant forall k | 0 <= k < n :: localLabels[k] == LocalLabel(labels[k], start, size)
      invariant forall k | n <= k < labels.Length :: localLabels[k] == Safe(labels[k]) - start
    {
      if outOfRange[n] {
        localLabels[n] := 0;
      }
    }
  }

  /** `grad_input`: one masked write into each zero row. */
  method WriteUpdates(labels: array<int>, start: nat, size: nat) returns (input: array2<real>)
    requires size > 0
    ensures fresh(input) && input.Length0 == labels.Length && input.Length1 == size
    ensures forall n, v | 0 <= n < labels.Length && 0 <= v < size :: input[n, v] == GradInput(start, size, labels[n])[v]
  {
    var localLabels, outOfRange := MaskLabels(labels, start, size);
    input := new real[labels.Length, size]((_, _) => 0.0);
    for n := 0 to labels.Length
      invariant forall k | 0 <= k < labels.Length ::
        localLabels[k] == LocalLabel(labels[k], start, size) && outOfRange[k] == OutOfRange(labels[k], start, size)
      invariant forall k, v | 0 <= k < n && 0 <= v < size :: input[k, v] == GradInput(start, size, labels[k])[v]
      invariant forall k, v | n <= k < labels.Length && 0 <= v < size :: input[k, v] == 0.0
    {
      assert localLabels[n] == LocalLabel(labels[n], start, size) < size;
      input[n, localLabels[n]] := (if outOfRange[n] then 1.0 else 0.0) - 1.0;
    }
  }
}
