/** A map-style dataset as a stream of tokens: samples in a per-epoch order, each token
    with its position inside its own document. */
module TokenStreams {

  datatype Tok = Tok(id: int, pos: int)

  /** `samples[i]` is the i-th sample after tokenisation; `order(e)` is the order of
      epoch e (epoch 0 as stored, later ones shuffled with a seed per epoch). */
  datatype Corpus<S> = Corpus(samples: seq<S>, order: nat -> seq<nat>) {
    ghost predicate Valid() {
      forall e: nat :: IsPermutation(order(e), |samples|)
    }
  }

  ghost predicate IsPermutation(p: seq<nat>, n: nat) {
    && |p| == n
    && (forall i | 0 <= i < n :: p[i] < n)
    && (forall k: nat | k < n :: k in p)
  }

  function SampleAt<S>(c: Corpus<S>, e: nat, i: nat): S
    requires c.Valid() && i < |c.samples|
  {
    c.samples[c.order(e)[i]]
  }

  /** Every epoch visits every sample. */
  lemma EpochVisits<S>(c: Corpus<S>, e: nat, k: nat)
    requires c.Valid() && k < |c.samples|
    ensures exists i: nat :: i < |c.samples| && SampleAt(c, e, i) == c.samples[k]
  {
    var p := c.order(e);
    assert k in p;
    var i :| 0 <= i < |c.samples| && p[i] == k;
    assert SampleAt(c, e, i) == c.samples[k];
  }

  function Toks(doc: seq<int>): (r: seq<Tok>)
    ensures |r| == |doc|
    ensures forall i | 0 <= i < |doc| :: r[i] == Tok(doc[i], i)
  {
    seq(|doc|, i requires 0 <= i < |doc| => Tok(doc[i], i))
  }

  function Ids(ts: seq<Tok>): (r: seq<int>)
    ensures |r| == |ts| && forall i | 0 <= i < |ts| :: r[i] == ts[i].id
  {
    seq(|ts|, i requires 0 <= i < |ts| => ts[i].id)
  }

  function Positions(ts: seq<Tok>): (r: seq<int>)
    ensures |r| == |ts| && forall i | 0 <= i < |ts| :: r[i] == ts[i].pos
  {
    seq(|ts|, i requires 0 <= i < |ts| => ts[i].pos)
  }

  // ----- reading on from a place in the corpus -----

  /** What one reads after (epoch e, index i), taking up to k samples; reading stops at the
      end of the epoch unless the dataset re-loops. */
  ghost function Feed(c: Corpus<seq<int>>, loops: bool, e: nat, i: nat, k: nat): seq<Tok>
    requires c.Valid() && (loops ==> c.samples != [])
    decreases k, if i < |c.samples| then 0 else 1
  {
    if k == 0 then []
    else if i < |c.samples| then Toks(SampleAt(c, e, i)) + Feed(c, loops, e, i + 1, k - 1)
    else if loops then Feed(c, loops, e + 1, 0, k)
    else []
  }

  /** Up to the end of an epoch the reader takes, from place i on, the samples that the order
      of that epoch names, each in full; a re-looping one then starts the next epoch. */
  lemma {:induction false} EpochFeed(c: Corpus<seq<int>>, loops: bool, e: nat, i: nat, k: nat)
    requires c.Valid() && (loops ==> c.samples != []) && i + k < |c.samples|
    ensures Feed(c, loops, e, i, k + 1) == Feed(c, loops, e, i, k) + Toks(c.samples[c.order(e)[i + k]])
    ensures Feed(c, loops, e, i, 0) == []
    ensures Feed(c, true, e, |c.samples|, k) == Feed(c, true, e + 1, 0, k)
    decreases k
  {
    if k > 0 {
      EpochFeed(c, loops, e, i + 1, k - 1);
    } else {
      assert Feed(c, loops, e, i + 1, 0) == [];
    }
  }

  /** Where the reader stands after those k samples. */
  ghost function After(c: Corpus<seq<int>>, loops: bool, e: nat, i: nat, k: nat): (nat, nat)
    requires c.Valid() && (loops ==> c.samples != [])
    decreases k, if i < |c.samples| then 0 else 1
  {
    if k == 0 then (e, i)
    else if i < |c.samples| then After(c, loops, e, i + 1, k - 1)
    else if loops then After(c, loops, e + 1, 0, k)
    else (e, i)
  }

  lemma {:induction false} FeedSplit(c: Corpus<seq<int>>, loops: bool, e: nat, i: nat, j: nat, k: nat)
    requires c.Valid() && (loops ==> c.samples != [])
    ensures var a := After(c, loops, e, i, j);
      Feed(c, loops, e, i, j + k) == Feed(c, loops, e, i, j) + Feed(c, loops, a.0, a.1, k)
    decreases j, if i < |c.samples| then 0 else 1
  {
    if j == 0 {
    } else if i < |c.samples| {
      FeedSplit(c, loops, e, i + 1, j - 1, k);
      var t := Toks(SampleAt(c, e, i));
      var a := After(c, loops, e, i, j);
      calc {
        Feed(c, loops, e, i, j + k);
        t + Feed(c, loops, e, i + 1, j - 1 + k);
        t + (Feed(c, loops, e, i + 1, j - 1) + Feed(c, loops, a.0, a.1, k));
        (t + Feed(c, loops, e, i + 1, j - 1)) + Feed(c, loops, a.0, a.1, k);
        Feed(c, loops, e, i, j) + Feed(c, loops, a.0, a.1, k);
      }
    } else if loops {
      FeedSplit(c, loops, e + 1, 0, j, k);
    } else {
      assert Feed(c, loops, e, i, k) == [];
    }
  }

  /** A re-looping reader over a corpus with at least one non-empty sample never runs dry. */
  ghost predicate Flows(c: Corpus<seq<int>>) {
    exists k :: 0 <= k < |c.samples| && c.samples[k] != []
  }

  ghost predicate TokensAhead(c: Corpus<seq<int>>, e: nat, i: nat)
    requires c.Valid()
  {
    exists j: nat :: i <= j < |c.samples| && SampleAt(c, e, j) != []
  }

  lemma EpochHasTokens(c: Corpus<seq<int>>, e: nat)
    requires c.Valid() && Flows(c)
    ensures TokensAhead(c, e, 0)
  {
    var k :| 0 <= k < |c.samples| && c.samples[k] != [];
    EpochVisits(c, e, k);
  }

  /** How many samples the reader may still pass before it meets a non-empty one. */
  ghost function Patience(c: Corpus<seq<int>>, e: nat, i: nat): int
    requires c.Valid()
  {
    if TokensAhead(c, e, i) then |c.samples| - i else 2 * |c.samples| + 1 - i
  }

  /** Some number of samples yields at least `want` tokens. */
  lemma {:induction false} EnoughTokens(c: Corpus<seq<int>>, e: nat, i: nat, want: nat) returns (k: nat)
    requires c.Valid() && Flows(c) && i <= |c.samples|
    ensures |Feed(c, true, e, i, k)| >= want
    decreases want, Patience(c, e, i) + 1
  {
    if want == 0 {
      k := 0;
    } else if i == |c.samples| {
      EpochHasTokens(c, e + 1);
      assert !TokensAhead(c, e, i);
      k := EnoughTokens(c, e + 1, 0, want);
    } else {
      var n := |SampleAt(c, e, i)|;
      if n == 0 {
        assert TokensAhead(c, e, i) ==> TokensAhead(c, e, i + 1);
        k := EnoughTokens(c, e, i + 1, want);
      } else {
        k := EnoughTokens(c, e, i + 1, if n >= want then 0 else want - n);
      }
      k := k + 1;
    }
  }

  // ----- positions -----

  /** Neighbouring positions either count on or start a new document. */
  ghost predicate Chained(ps: seq<int>) {
    && (forall i | 0 <= i < |ps| :: ps[i] >= 0)
    && forall i, j | 0 <= i < j < |ps| && j == i + 1 :: ps[j] == ps[i] + 1 || ps[j] == 0
  }

  /** Distance back to the start of the document's part in this window. */
  function Offset(ps: seq<int>, i: nat): (r: nat)
    requires i < |ps|
    ensures r <= i
  {
    if i == 0 || ps[i] == 0 then 0 else Offset(ps, i - 1) + 1
  }

  lemma ChainedJoin(a: seq<int>, b: seq<int>)
    requires Chained(a) && Chained(b) && (b != [] ==> b[0] == 0)
    ensures Chained(a + b)
  {
  }

  lemma PositionsJoin(a: seq<Tok>, b: seq<Tok>)
    ensures Positions(a + b) == Positions(a) + Positions(b)
  {
  }

  /** The stream itself is chained and starts a document. */
  lemma {:induction false} FeedChained(c: Corpus<seq<int>>, loops: bool, e: nat, i: nat, k: nat)
    requires c.Valid() && (loops ==> c.samples != [])
    ensures var ps := Positions(Feed(c, loops, e, i, k)); Chained(ps) && (ps != [] ==> ps[0] == 0)
    decreases k, if i < |c.samples| then 0 else 1
  {
    if k == 0 {
    } else if i < |c.samples| {
      FeedChained(c, loops, e, i + 1, k - 1);
      var t, rest := Toks(SampleAt(c, e, i)), Feed(c, loops, e, i + 1, k - 1);
      PositionsJoin(t, rest);
      ChainedJoin(Positions(t), Positions(rest));
    } else if loops {
      FeedChained(c, loops, e + 1, 0, k);
    }
  }
}
