/** The ceil-divided shards of a vocabulary over the tensor-parallel ranks. */
module VocabShards {
  import opened Arithmetic
  import opened Sequences
  import opened Wrappers

  /** (V + P - 1) // P */
  function Chunk(vocab: nat, ranks: nat): nat
    requires ranks > 0
  {
    (vocab + ranks - 1) / ranks
  }

  function Min(a: nat, b: nat): nat {
    if a < b then a else b
  }

  function Start(vocab: nat, ranks: nat, r: nat): (s: nat)
    requires ranks > 0
    ensures s <= vocab
  {
    Min(vocab, Chunk(vocab, ranks) * r)
  }

  function End(vocab: nat, ranks: nat, r: nat): (e: nat)
    requires ranks > 0
    ensures Start(vocab, ranks, r) <= e <= vocab
  {
    Min(vocab, Start(vocab, ranks, r) + Chunk(vocab, ranks))
  }

  function Size(vocab: nat, ranks: nat, r: nat): nat
    requires ranks > 0
  {
    End(vocab, ranks, r) - Start(vocab, ranks, r)
  }

  datatype Error = WrongLocalSize | EmptyShard

  /** The two checks at the head of the forward pass. */
  function CheckShard(vocab: nat, ranks: nat, r: nat, localSize: nat): Option<Error>
    requires ranks > 0
  {
    if localSize != Size(vocab, ranks, r) then Some(WrongLocalSize)
    else if Size(vocab, ranks, r) == 0 then Some(EmptyShard)
    else None
  }

  /** A rank goes ahead exactly when its logits are as wide as its range of tokens, and the range
      is not empty. */
  lemma CheckedIff(vocab: nat, ranks: nat, r: nat, localSize: nat)
    requires ranks > 0
    ensures CheckShard(vocab, ranks, r, localSize) == None
      <==> localSize > 0 && Start(vocab, ranks, r) + localSize == End(vocab, ranks, r)
    ensures CheckShard(vocab, ranks, r, localSize) == Some(EmptyShard)
      <==> localSize == 0 && Start(vocab, ranks, r) == End(vocab, ranks, r)
  {
  }

  lemma ChunkCovers(vocab: nat, ranks: nat)
    requires ranks > 0
    ensures Chunk(vocab, ranks) * ranks >= vocab
  {
    var n := vocab + ranks - 1;
    assert n == ranks * (n / ranks) + n % ranks;
  }

  /** The chunk is the least that lets the ranks cover the vocabulary. */
  lemma ChunkIsLeast(vocab: nat, ranks: nat)
    requires ranks > 0
    ensures vocab <= Chunk(vocab, ranks) * ranks
    ensures vocab > 0 ==> (Chunk(vocab, ranks) - 1) * ranks < vocab
    ensures vocab == 0 ==> Chunk(vocab, ranks) == 0
  {
    var n := vocab + ranks - 1;
    ChunkCovers(vocab, ranks);
    DigitsOf(n, ranks);
    MulStep(ranks, n / ranks - 1);
  }

  /** The chunk is the quotient, one more when there is a remainder. */
  lemma ChunkIs(vocab: nat, ranks: nat)
    requires ranks > 0
    ensures Chunk(vocab, ranks) == vocab / ranks + if vocab % ranks == 0 then 0 else 1
  {
    var q, r := vocab / ranks, vocab % ranks;
    DigitsOf(vocab, ranks);
    if r == 0 {
      DivUnique(vocab + ranks - 1, ranks, q, ranks - 1);
    } else {
      MulStep(ranks, q);
      DivUnique(vocab + ranks - 1, ranks, q + 1, r - 1);
    }
  }

  /** A vocabulary that divides evenly is cut into equal shards. */
  lemma EvenShards(vocab: nat, ranks: nat, r: nat)
    requires ranks > 0 && vocab % ranks == 0 && r < ranks
    ensures Start(vocab, ranks, r) == (vocab / ranks) * r && Size(vocab, ranks, r) == vocab / ranks
  {
    ChunkIs(vocab, ranks);
    DigitsOf(vocab, ranks);
    MulStep(vocab / ranks, r);
    MulGrows(vocab / ranks, r + 1, ranks);
  }

  /** Shards are adjacent, begin at 0 and end at the vocabulary's end. */
  lemma ShardsAdjoin(vocab: nat, ranks: nat, r: nat)
    requires ranks > 0
    ensures Start(vocab, ranks, 0) == 0
    ensures End(vocab, ranks, r) == Start(vocab, ranks, r + 1)
    ensures End(vocab, ranks, ranks - 1) == vocab
  {
    MulStep(Chunk(vocab, ranks), r);
    MulStep(Chunk(vocab, ranks), ranks - 1);
    ChunkCovers(vocab, ranks);
  }

  lemma {:induction false} StartsAscend(vocab: nat, ranks: nat, q: nat, r: nat)
    requires ranks > 0 && q <= r
    ensures Start(vocab, ranks, q) <= Start(vocab, ranks, r)
  {
    MulGrows(Chunk(vocab, ranks), q, r);
  }

  ghost predicate Owns(vocab: nat, ranks: nat, r: nat, v: nat)
    requires ranks > 0
  {
    Start(vocab, ranks, r) <= v < End(vocab, ranks, r)
  }

  /** Every token of the vocabulary has exactly one owner. */
  lemma OneOwner(vocab: nat, ranks: nat, v: nat) returns (r: nat)
    requires ranks > 0 && v < vocab
    ensures r < ranks && Owns(vocab, ranks, r, v)
    ensures forall q: nat | q < ranks && Owns(vocab, ranks, q, v) :: q == r
  {
    r := OwnerFrom(vocab, ranks, v, ranks);
    forall q: nat | q < ranks && Owns(vocab, ranks, q, v)
      ensures q == r
    {
      ShardsAdjoin(vocab, ranks, q);
      ShardsAdjoin(vocab, ranks, r);
      if q < r {
        StartsAscend(vocab, ranks, q + 1, r);
      } else if r < q {
        StartsAscend(vocab, ranks, r + 1, q);
      }
    }
  }

  lemma {:induction false} OwnerFrom(vocab: nat, ranks: nat, v: nat, n: nat) returns (r: nat)
    requires 0 < n <= ranks && v < vocab && v < End(vocab, ranks, n - 1)
    ensures r < n && Owns(vocab, ranks, r, v)
    decreases n
  {
    if Start(vocab, ranks, n - 1) <= v {
      r := n - 1;
    } else {
      ShardsAdjoin(vocab, ranks, 0);
      if n > 1 {
        ShardsAdjoin(vocab, ranks, n - 2);
        r := OwnerFrom(vocab, ranks, v, n - 1);
      }
    }
  }

  /** A shard is empty exactly when the ranks before it already cover the vocabulary, so
      none is empty exactly when the last one is not. */
  lemma EmptyShards(vocab: nat, ranks: nat, r: nat)
    requires ranks > 0
    ensures Size(vocab, ranks, r) == 0 <==> Chunk(vocab, ranks) * r >= vocab
    ensures r < ranks && Chunk(vocab, ranks) * (ranks - 1) < vocab ==> Size(vocab, ranks, r) > 0
  {
    ChunkCovers(vocab, ranks);
    if Chunk(vocab, ranks) == 0 {
      assert vocab == 0;
    }
    if r < ranks {
      MulGrows(Chunk(vocab, ranks), r, ranks - 1);
    }
  }

  /** The rows of x held by the first n ranks. */
  function Shards<T>(x: seq<T>, ranks: nat, n: nat): (r: seq<seq<T>>)
    requires ranks > 0
    ensures |r| == n
    ensures forall k: nat | k < n :: r[k] == x[Start(|x|, ranks, k)..End(|x|, ranks, k)]
  {
    seq(n, (k: nat) requires k < n => x[Start(|x|, ranks, k)..End(|x|, ranks, k)])
  }

  lemma {:induction false} ShardsFlatten<T>(x: seq<T>, ranks: nat, n: nat)
    requires ranks > 0 && n <= ranks
    ensures Flatten(Shards(x, ranks, n)) == x[..Start(|x|, ranks, n)]
    decreases n
  {
    if n == 0 {
      ShardsAdjoin(|x|, ranks, 0);
    } else {
      ShardsAdjoin(|x|, ranks, n - 1);
      ShardsFlatten(x, ranks, n - 1);
      var last := Shards(x, ranks, n)[n - 1];
      assert Shards(x, ranks, n) == Shards(x, ranks, n - 1) + [last];
      FlattenJoin(Shards(x, ranks, n - 1), [last]);
      FlattenOne(last);
    }
  }

  /** The shards, put back together in rank order, are the whole row. */
  lemma ShardsRestore<T>(x: seq<T>, ranks: nat)
    requires ranks > 0
    ensures Flatten(Shards(x, ranks, ranks)) == x
  {
    ShardsFlatten(x, ranks, ranks);
    ShardsAdjoin(|x|, ranks, ranks - 1);
    assert x[..|x|] == x;
  }
}
