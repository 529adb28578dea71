/** Vocab-parallel cross entropy: forward and backward on vocabulary shards against the
    serial loss, over the reals, for any `exp` and `log`. */
module VocabLosses {
  import opened Sequences

  const IGNORE_INDEX: int := -100

  datatype Fns = Fns(exp: real -> real, log: real -> real)

  function Max2(a: real, b: real): real {
    if a < b then b else a
  }

  function Max(s: seq<real>): real
    requires s != []
  {
    if |s| == 1 then s[0] else Max2(s[0], Max(s[1..]))
  }

  lemma {:induction false} MaxBounds(s: seq<real>)
    requires s != []
    ensures Max(s) in s && forall x | x in s :: x <= Max(s)
  {
    if |s| > 1 {
      MaxBounds(s[1..]);
      assert s == [s[0]] + s[1..];
    }
  }

  function Sum(s: seq<real>): real {
    if s == [] then 0.0 else s[0] + Sum(s[1..])
  }

  function Shift(x: seq<real>, m: real): (r: seq<real>)
    ensures |r| == |x| && forall i | 0 <= i < |x| :: r[i] == x[i] - m
  {
    seq(|x|, i requires 0 <= i < |x| => x[i] - m)
  }

  function Exps(f: Fns, x: seq<real>): (r: seq<real>)
    ensures |r| == |x| && forall i | 0 <= i < |x| :: r[i] == f.exp(x[i])
  {
    seq(|x|, i requires 0 <= i < |x| => f.exp(x[i]))
  }

  // ----- the serial loss -----

  /** Max-shifted log-softmax of one token's logits. */
  function LogProbs(f: Fns, x: seq<real>): (r: seq<real>)
    requires x != []
    ensures |r| == |x|
  {
    var shifted := Shift(x, Max(x));
    Shift(shifted, f.log(Sum(Exps(f, shifted))))
  }

  /** Negative log likelihood of the label, 0 for an ignored one. */
  function Nll(f: Fns, x: seq<real>, lbl: int): real
    requires x != [] && (lbl != IGNORE_INDEX ==> 0 <= lbl < |x|)
  {
    if lbl == IGNORE_INDEX then 0.0 else -LogProbs(f, x)[lbl]
  }

  /** (softmax - one-hot) * upstream gradient, 0 for an ignored label, from the
      log-probabilities the forward pass saved. */
  function Gradient(f: Fns, logProbs: seq<real>, lbl: int, up: real): (r: seq<real>)
    ensures |r| == |logProbs|
  {
    seq(|logProbs|, v requires 0 <= v < |logProbs| =>
      if lbl == IGNORE_INDEX then 0.0
      else (f.exp(logProbs[v]) - (if v == lbl then 1.0 else 0.0)) * up)
  }

  // ----- what each rank holds and computes -----

  /** A rank's `vocab_start` and its slice of one token's logits. */
  datatype Shard = Shard(start: nat, row: seq<real>)

  ghost predicate NonEmpty(shards: seq<Shard>) {
    shards != [] && forall r | 0 <= r < |shards| :: shards[r].row != []
  }

  function Rows(shards: seq<Shard>): (s: seq<seq<real>>)
    ensures |s| == |shards| && forall r | 0 <= r < |shards| :: s[r] == shards[r].row
  {
    seq(|shards|, r requires 0 <= r < |shards| => shards[r].row)
  }

  function Maxima(rows: seq<seq<real>>): (s: seq<real>)
    requires forall r | 0 <= r < |rows| :: rows[r] != []
    ensures |s| == |rows| && forall r | 0 <= r < |rows| :: s[r] == Max(rows[r])
  {
    if rows == [] then [] else [Max(rows[0])] + Maxima(rows[1..])
  }

  /** all-reduce(MAX) of the local maxima. */
  function GlobalMax(shards: seq<Shard>): real
    requires NonEmpty(shards)
  {
    Max(Maxima(Rows(shards)))
  }

  function SumExps(f: Fns, rows: seq<seq<real>>, m: real): (s: seq<real>)
    ensures |s| == |rows| && forall r | 0 <= r < |rows| :: s[r] == Sum(Exps(f, Shift(rows[r], m)))
  {
    seq(|rows|, r requires 0 <= r < |rows| => Sum(Exps(f, Shift(rows[r], m))))
  }

  /** all-reduce(SUM) of the local sums of shifted exponentials. */
  function GlobalSumExp(f: Fns, shards: seq<Shard>): real
    requires NonEmpty(shards)
  {
    Sum(SumExps(f, Rows(shards), GlobalMax(shards)))
  }

  /** `log_probs` of rank r. */
  function LocalLogProbs(f: Fns, shards: seq<Shard>, r: nat): (s: seq<real>)
    requires NonEmpty(shards) && r < |shards|
    ensures |s| == |shards[r].row|
  {
    Shift(Shift(shards[r].row, GlobalMax(shards)), f.log(GlobalSumExp(f, shards)))
  }

  function Safe(lbl: int): int {
    if lbl != IGNORE_INDEX then lbl else 0
  }

  predicate OutOfRange(lbl: int, start: nat, size: nat) {
    Safe(lbl) < start || Safe(lbl) >= start + size
  }

  function LocalLabel(lbl: int, start: nat, size: nat): nat {
    if OutOfRange(lbl, start, size) then 0 else Safe(lbl) - start
  }

  /** An ignored label stands for token 0 until it is masked: only the first rank looks it up. */
  lemma IgnoredIsFirstToken(start: nat, size: nat)
    ensures OutOfRange(IGNORE_INDEX, start, size) <==> start > 0 || size == 0
    ensures LocalLabel(IGNORE_INDEX, start, size) == 0
  {
  }

  /** The masked gather of a rank from its log-probabilities. */
  function Gathered(start: nat, logProbs: seq<real>, lbl: int): real {
    if OutOfRange(lbl, start, |logProbs|) then 0.0 else logProbs[LocalLabel(lbl, start, |logProbs|)]
  }

  function Picked(f: Fns, shards: seq<Shard>, r: nat, lbl: int): real
    requires NonEmpty(shards) && r < |shards|
  {
    Gathered(shards[r].start, LocalLogProbs(f, shards, r), lbl)
  }

  function AllPicked(f: Fns, shards: seq<Shard>, lbl: int): (s: seq<real>)
    requires NonEmpty(shards)
    ensures |s| == |shards| && forall r | 0 <= r < |shards| :: s[r] == Picked(f, shards, r, lbl)
  {
    seq(|shards|, r requires 0 <= r < |shards| => Picked(f, shards, r, lbl))
  }

  /** The per-token result every rank computes. */
  function ParallelNll(f: Fns, shards: seq<Shard>, lbl: int): real
    requires NonEmpty(shards)
  {
    if lbl != IGNORE_INDEX then -Sum(AllPicked(f, shards, lbl)) else 0.0
  }

  /** `grad_input`: zeros but for one write, which is a zero too when the label is elsewhere. */
  function GradInput(start: nat, size: nat, lbl: int): (g: seq<real>)
    requires size > 0
    ensures |g| == size
  {
    var out, at := OutOfRange(lbl, start, size), LocalLabel(lbl, start, size);
    seq(size, _ => 0.0)[at := (if out then 1.0 else 0.0) - 1.0]
  }

  /** A rank's row of the backward pass: `grad_input` plus softmax, times the masked upstream
      gradient. */
  function LocalGradient(f: Fns, start: nat, logProbs: seq<real>, lbl: int, up: real): (s: seq<real>)
    requires logProbs != []
    ensures |s| == |logProbs|
  {
    var input := GradInput(start, |logProbs|, lbl);
    var grad := if lbl != IGNORE_INDEX then up else 0.0;
    seq(|input|, v requires 0 <= v < |input| => (input[v] + f.exp(logProbs[v])) * grad)
  }

  /** Away from its own label, and where the label is another rank's, nothing is written. */
  lemma GradInputAt(start: nat, size: nat, lbl: int, v: nat)
    requires v < size && lbl != IGNORE_INDEX
    ensures GradInput(start, size, lbl)[v] == if start + v == lbl then -1.0 else 0.0
  {
  }

  // ----- the collectives restore the serial quantities -----

  lemma {:induction false} SumJoin(a: seq<real>, b: seq<real>)
    ensures Sum(a + b) == Sum(a) + Sum(b)
  {
    if a == [] {
      assert a + b == b;
    } else {
      assert (a + b)[0] == a[0] && (a + b)[1..] == a[1..] + b;
      SumJoin(a[1..], b);
    }
  }

  lemma {:induction false} SumOfParts(parts: seq<seq<real>>, sums: seq<real>)
    requires |sums| == |parts| && forall k | 0 <= k < |parts| :: sums[k] == Sum(parts[k])
    ensures Sum(sums) == Sum(Flatten(parts))
  {
    if parts != [] {
      SumOfParts(parts[1..], sums[1..]);
      SumJoin(parts[0], Flatten(parts[1..]));
    }
  }

  lemma {:induction false} InFlatten<T>(parts: seq<seq<T>>, x: T)
    ensures x in Flatten(parts) <==> exists k :: 0 <= k < |parts| && x in parts[k]
  {
    if parts != [] {
      InFlatten(parts[1..], x);
      if x in Flatten(parts) && x !in parts[0] {
        var k :| 0 <= k < |parts[1..]| && x in parts[1..][k];
        assert x in parts[k + 1];
      }
      if k :| 0 <= k < |parts| && x in parts[k] {
        assert k > 0 ==> x in parts[1..][k - 1];
      }
    }
  }

  /** A maximum is determined by being a member and an upper bound. */
  lemma MaxIs(s: seq<real>, m: real)
    requires s != [] && m in s && forall x | x in s :: x <= m
    ensures Max(s) == m
  {
    MaxBounds(s);
  }

  // ----- shards of one row -----

  /** The shards, in rank order, make up the row. */
  ghost predicate Pieces(shards: seq<Shard>, x: seq<real>) {
    NonEmpty(shards) && Flatten(Rows(shards)) == x
  }

  /** Each token's logit is held by exactly one rank, where its `vocab_start` says. */
  ghost predicate Placed(shards: seq<Shard>, x: seq<real>) {
    && (forall r | 0 <= r < |shards| :: Within(shards[r], x))
    && (forall q, r | 0 <= q < r < |shards| :: shards[q].start + |shards[q].row| <= shards[r].start)
    && (forall v: nat | v < |x| :: HasOwner(shards, v))
  }

  ghost predicate Tiles(shards: seq<Shard>, x: seq<real>) {
    Pieces(shards, x) && Placed(shards, x)
  }

  ghost predicate HasOwner(shards: seq<Shard>, v: int) {
    exists r: nat :: r < |shards| && Owned(shards, r, v)
  }

  ghost predicate Within(s: Shard, x: seq<real>) {
    s.start + |s.row| <= |x| && s.row == x[s.start..s.start + |s.row|]
  }

  ghost predicate Owned(shards: seq<Shard>, r: nat, v: int)
    requires r < |shards|
  {
    shards[r].start <= v < shards[r].start + |shards[r].row|
  }

  lemma MaxRestored(shards: seq<Shard>, x: seq<real>)
    requires Pieces(shards, x) && x != []
    ensures GlobalMax(shards) == Max(x)
  {
    var rows, m := Rows(shards), Max(x);
    var maxima := Maxima(rows);
    MaxBounds(x);
    InFlatten(rows, m);
    var k :| 0 <= k < |rows| && m in rows[k];
    forall y | y in maxima
      ensures y <= m
    {
      var j :| 0 <= j < |rows| && y == maxima[j];
      MaxBounds(rows[j]);
      InFlatten(rows, y);
    }
    MaxBounds(rows[k]);
    InFlatten(rows, Max(rows[k]));
    assert maxima[k] == m;
    MaxIs(maxima, m);
  }

  lemma ExpsJoin(f: Fns, a: seq<real>, b: seq<real>, m: real)
    ensures Exps(f, Shift(a + b, m)) == Exps(f, Shift(a, m)) + Exps(f, Shift(b, m))
  {
  }

  lemma {:induction false} FlattenExps(f: Fns, rows: seq<seq<real>>, m: real)
    ensures Sum(SumExps(f, rows, m)) == Sum(Exps(f, Shift(Flatten(rows), m)))
  {
    if rows != [] {
      var rest := Flatten(rows[1..]);
      FlattenExps(f, rows[1..], m);
      assert SumExps(f, rows, m)[1..] == SumExps(f, rows[1..], m);
      ExpsJoin(f, rows[0], rest, m);
      SumJoin(Exps(f, Shift(rows[0], m)), Exps(f, Shift(rest, m)));
    }
  }

  lemma SliceShifts(x: seq<real>, a: nat, b: nat, m: real, c: real)
    requires a <= b <= |x|
    ensures Shift(Shift(x[a..b], m), c) == Shift(Shift(x, m), c)[a..b]
  {
  }

  lemma SumExpRestored(f: Fns, shards: seq<Shard>, x: seq<real>)
    requires Pieces(shards, x) && x != []
    ensures GlobalSumExp(f, shards) == Sum(Exps(f, Shift(x, Max(x))))
  {
    MaxRestored(shards, x);
    FlattenExps(f, Rows(shards), Max(x));
  }

  lemma LocalFromSerial(f: Fns, shards: seq<Shard>, x: seq<real>, r: nat)
    requires Pieces(shards, x) && x != [] && r < |shards|
    ensures LocalLogProbs(f, shards, r)
      == Shift(Shift(shards[r].row, Max(x)), f.log(Sum(Exps(f, Shift(x, Max(x))))))
  {
    MaxRestored(shards, x);
    SumExpRestored(f, shards, x);
  }

  /** Each rank's log-probabilities are its slice of the serial ones. */
  lemma LogProbsRestored(f: Fns, shards: seq<Shard>, x: seq<real>, r: nat)
    requires Pieces(shards, x) && x != [] && r < |shards| && Within(shards[r], x)
    ensures LocalLogProbs(f, shards, r) == LogProbs(f, x)[shards[r].start..shards[r].start + |shards[r].row|]
  {
    LocalFromSerial(f, shards, x, r);
    SliceShifts(x, shards[r].start, shards[r].start + |shards[r].row|, Max(x), f.log(Sum(Exps(f, Shift(x, Max(x))))));
  }

  // ----- forward -----

  lemma {:induction false} SumOfOne(s: seq<real>, k: nat)
    requires k < |s| && forall j | 0 <= j < |s| && j != k :: s[j] == 0.0
    ensures Sum(s) == s[k]
  {
    if k > 0 {
      SumOfOne(s[1..], k - 1);
    } else {
      SumOfZeros(s[1..]);
    }
  }

  lemma {:induction false} SumOfZeros(s: seq<real>)
    requires forall j | 0 <= j < |s| :: s[j] == 0.0
    ensures Sum(s) == 0.0
  {
    if s != [] {
      SumOfZeros(s[1..]);
    }
  }

  /** Two shards never hold the same token. */
  lemma OneHolder(shards: seq<Shard>, x: seq<real>, q: nat, r: nat, v: int)
    requires Tiles(shards, x) && q < |shards| && r < |shards| && Owned(shards, q, v) && Owned(shards, r, v)
    ensures q == r
  {
  }

  lemma GatheredSlice(logProbs: seq<real>, a: nat, b: nat, lbl: int)
    requires a <= lbl < b <= |logProbs| && lbl != IGNORE_INDEX
    ensures Gathered(a, logProbs[a..b], lbl) == logProbs[lbl]
  {
  }

  /** The holder of the label picks its log-probability. */
  lemma PickedByOwner(f: Fns, shards: seq<Shard>, x: seq<real>, lbl: int, r: nat)
    requires Pieces(shards, x) && x != [] && r < |shards| && Within(shards[r], x)
    requires lbl != IGNORE_INDEX && Owned(shards, r, lbl)
    ensures 0 <= lbl < |x| && Picked(f, shards, r, lbl) == LogProbs(f, x)[lbl]
  {
    LogProbsRestored(f, shards, x, r);
    GatheredSlice(LogProbs(f, x), shards[r].start, shards[r].start + |shards[r].row|, lbl);
  }

  /** Only the holder of the label contributes to the gather. */
  lemma PickedOnce(f: Fns, shards: seq<Shard>, x: seq<real>, lbl: int, r: nat)
    requires Tiles(shards, x) && lbl != IGNORE_INDEX && r < |shards| && Owned(shards, r, lbl)
    ensures Sum(AllPicked(f, shards, lbl)) == Picked(f, shards, r, lbl)
  {
    forall q | 0 <= q < |shards| && q != r
      ensures AllPicked(f, shards, lbl)[q] == 0.0
    {
      if Owned(shards, q, lbl) {
        OneHolder(shards, x, q, r, lbl);
      }
    }
    SumOfOne(AllPicked(f, shards, lbl), r);
  }

  /** Forward: every rank's per-token loss is the serial one, ignored labels included. */
  lemma ForwardIsSerial(f: Fns, shards: seq<Shard>, x: seq<real>, lbl: int)
    requires Tiles(shards, x) && x != [] && (lbl != IGNORE_INDEX ==> 0 <= lbl < |x|)
    ensures ParallelNll(f, shards, lbl) == Nll(f, x, lbl)
  {
    if lbl != IGNORE_INDEX {
      assert HasOwner(shards, lbl);
      var r: nat :| r < |shards| && Owned(shards, r, lbl);
      PickedOnce(f, shards, x, lbl, r);
      assert Within(shards[r], x);
      PickedByOwner(f, shards, x, lbl, r);
    }
  }

  /** A label outside the vocabulary is nobody's: it silently costs nothing, where the
      serial loss has no value. */
  lemma ForeignLabelCostsNothing(f: Fns, shards: seq<Shard>, x: seq<real>, lbl: int)
    requires Tiles(shards, x) && lbl != IGNORE_INDEX && !(0 <= lbl < |x|)
    ensures ParallelNll(f, shards, lbl) == 0.0
  {
    forall q | 0 <= q < |shards|
      ensures AllPicked(f, shards, lbl)[q] == 0.0
    {
      assert Within(shards[q], x);
    }
    SumOfZeros(AllPicked(f, shards, lbl));
  }

  // ----- backward -----

  lemma SameProduct(a: real, b: real, up: real)
    requires a == b
    ensures a * up == b * up
  {
  }

  /** A rank's gradient, from its slice of the log-probabilities, is its slice of the serial
      gradient. */
  lemma GradientSlices(f: Fns, logProbs: seq<real>, a: nat, b: nat, lbl: int, up: real)
    requires a < b <= |logProbs|
    ensures LocalGradient(f, a, logProbs[a..b], lbl, up) == Gradient(f, logProbs, lbl, up)[a..b]
  {
    forall v: nat | v < b - a
      ensures LocalGradient(f, a, logProbs[a..b], lbl, up)[v] == Gradient(f, logProbs, lbl, up)[a + v]
    {
      if lbl != IGNORE_INDEX {
        GradInputAt(a, b - a, lbl, v);
        var p := f.exp(logProbs[a + v]);
        SameProduct(GradInput(a, b - a, lbl)[v] + p, p - (if a + v == lbl then 1.0 else 0.0), up);
      }
    }
  }

  /** Backward: what rank r computes from the log-probabilities it saved is its slice of
      (softmax - one-hot) * upstream. */
  lemma BackwardIsSerial(f: Fns, shards: seq<Shard>, x: seq<real>, r: nat, lbl: int, up: real)
    requires Pieces(shards, x) && x != [] && r < |shards| && Within(shards[r], x)
    ensures LocalGradient(f, shards[r].start, LocalLogProbs(f, shards, r), lbl, up) ==
      Gradient(f, LogProbs(f, x), lbl, up)[shards[r].start..shards[r].start + |shards[r].row|]
  {
    LogProbsRestored(f, shards, x, r);
    GradientSlices(f, LogProbs(f, x), shards[r].start, shards[r].start + |shards[r].row|, lbl, up);
  }
}
