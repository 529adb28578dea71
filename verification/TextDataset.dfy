/** `HuggingFaceTextDataset`: fixed-size rows cut from the token stream, with state that
    can be saved at any yield and resumed by a fresh object. */
module TextDatasets {
  import opened Arithmetic
  import opened TokenStreams
  import opened Wrappers

  datatype Config = Config(corpus: Corpus<seq<int>>, seqLen: nat, infinite: bool) {
    /** A re-looping dataset has something to read. */
    ghost predicate Valid() {
      corpus.Valid() && (infinite ==> Flows(corpus))
    }

    function BlockLen(): nat { 1 + seqLen }
  }

  datatype Row = Row(input: seq<int>, positions: seq<int>, labels: seq<int>)

  /** Where the generator is suspended: not started, at a yield, or finished. */
  datatype Pc = Start | Draining | Stopped

  /** The dataset object and its generator. `dataEpoch` is the epoch whose order
      `self._data` holds; `buffer` pairs the two buffers of the source. */
  datatype Text = Text(sampleIdx: nat, epoch: nat, dataEpoch: nat, buffer: seq<Tok>, pc: Pc)

  const FRESH := Text(0, 0, 0, [], Start)

  ghost predicate WellFormed(c: Config, s: Text) {
    && s.sampleIdx <= |c.corpus.samples|
    && s.dataEpoch == s.epoch
    && Chained(Positions(s.buffer))
  }

  function Zip(ids: seq<int>, ps: seq<int>): (r: seq<Tok>)
    requires |ids| == |ps|
    ensures Ids(r) == ids && Positions(r) == ps
  {
    seq(|ids|, i requires 0 <= i < |ids| => Tok(ids[i], ps[i]))
  }

  // ----- one row -----

  /** `_normalize_positions`: the leading partial document is shifted to start at 0. */
  function NormalizeFrom(ps: seq<int>, offset: int): (r: seq<int>)
    ensures |r| == |ps|
  {
    if ps == [] || ps[0] == 0 then ps
    else [ps[0] - offset] + NormalizeFrom(ps[1..], offset)
  }

  function Normalize(ps: seq<int>): (r: seq<int>)
    ensures |r| == |ps|
  {
    if ps != [] && ps[0] > 0 then NormalizeFrom(ps, ps[0]) else ps
  }

  lemma {:induction false} NormalizeFromCounts(ps: seq<int>, offset: int, done: nat, i: nat)
    requires Chained(ps) && i < |ps| && offset > 0
    requires ps[0] == 0 || ps[0] == offset + done
    ensures NormalizeFrom(ps, offset)[i] == (if ps[0] == 0 then Offset(ps, i) else
      if forall k | 0 <= k <= i :: ps[k] != 0 then done + i else Offset(ps, i))
    decreases |ps|
  {
    if ps[0] != 0 && i > 0 {
      var rest := ps[1..];
      NormalizeFromCounts(rest, offset, done + 1, i - 1);
      OffsetShift(ps, i);
    } else if ps[0] == 0 {
      ChainedOffset(ps, i);
    }
  }

  lemma {:induction false} OffsetShift(ps: seq<int>, i: nat)
    requires 0 < i < |ps|
    ensures Offset(ps, i) == (if forall k | 0 < k <= i :: ps[k] != 0 then i else Offset(ps[1..], i - 1))
  {
    if i > 1 && ps[i] != 0 {
      OffsetShift(ps, i - 1);
    }
  }

  /** From a document's start on, the stored position is the offset. */
  lemma {:induction false} ChainedOffset(ps: seq<int>, i: nat)
    requires Chained(ps) && i < |ps| && ps[0] == 0
    ensures ps[i] == Offset(ps, i)
  {
    if i > 0 {
      ChainedOffset(ps, i - 1);
    }
  }

  /** Every normalised position is the distance to the start of its document's part. */
  lemma NormalizeIsOffset(ps: seq<int>, i: nat)
    requires Chained(ps) && i < |ps|
    ensures Normalize(ps)[i] == Offset(ps, i)
    ensures 0 <= Normalize(ps)[i] <= i
  {
    if ps[0] > 0 {
      NormalizeFromCounts(ps, ps[0], 0, i);
      if forall k | 0 <= k <= i :: ps[k] != 0 {
        AllNonZeroOffset(ps, i);
      }
    } else {
      ChainedOffset(ps, i);
    }
  }

  lemma {:induction false} AllNonZeroOffset(ps: seq<int>, i: nat)
    requires i < |ps| && forall k | 0 <= k <= i :: ps[k] != 0
    ensures Offset(ps, i) == i
  {
    if i > 0 {
      AllNonZeroOffset(ps, i - 1);
    }
  }

  function MakeRow(c: Config, block: seq<Tok>): (r: Row)
    requires |block| == c.BlockLen()
  {
    var ids := Ids(block);
    Row(ids[..c.seqLen], Normalize(Positions(block))[..c.seqLen], ids[1..])
  }

  // ----- the generator -----

  function Emit(c: Config, s: Text): (r: (Text, Option<seq<Tok>>))
    requires |s.buffer| >= c.BlockLen()
  {
    (s.(buffer := s.buffer[c.BlockLen()..], pc := Draining), Some(s.buffer[..c.BlockLen()]))
  }

  /** `reloop`. */
  function Reloop(s: Text): Text {
    s.(sampleIdx := 0, epoch := s.epoch + 1, dataEpoch := s.epoch + 1)
  }

  function Extend(c: Config, s: Text): Text
    requires c.Valid() && s.sampleIdx < |c.corpus.samples|
  {
    s.(buffer := s.buffer + Toks(SampleAt(c.corpus, s.dataEpoch, s.sampleIdx)), sampleIdx := s.sampleIdx + 1)
  }

  /** From the head of the sample loop to the next yield. */
  function Pull(c: Config, s: Text): (r: (Text, Option<seq<Tok>>))
    requires c.Valid() && s.sampleIdx <= |c.corpus.samples|
    decreases Lacking(c, s), Patience(c.corpus, s.dataEpoch, s.sampleIdx) + 1
  {
    if s.sampleIdx < |c.corpus.samples| then
      var t := Extend(c, s);
      PullsOn(c, s);
      if |t.buffer| >= c.BlockLen() then Emit(c, t) else Pull(c, t)
    else if !c.infinite then (s.(pc := Stopped), None)
    else
      EpochHasTokens(c.corpus, s.epoch + 1);
      Pull(c, Reloop(s))
  }

  /** How many tokens the next block lacks. */
  function Lacking(c: Config, s: Text): nat {
    if |s.buffer| < c.BlockLen() then c.BlockLen() - |s.buffer| else 0
  }

  /** Reading an empty sample keeps what is ahead. */
  lemma PullsOn(c: Config, s: Text)
    requires c.Valid() && s.sampleIdx < |c.corpus.samples|
    ensures |Extend(c, s).buffer| == |s.buffer| && TokensAhead(c.corpus, s.dataEpoch, s.sampleIdx) ==>
      TokensAhead(c.corpus, s.dataEpoch, s.sampleIdx + 1)
  {
  }

  /** `next()` on the generator. */
  function Next(c: Config, s: Text): (r: (Text, Option<seq<Tok>>))
    requires c.Valid() && s.sampleIdx <= |c.corpus.samples|
  {
    if s.pc == Stopped then (s, None)
    else if s.pc == Draining && |s.buffer| >= c.BlockLen() then Emit(c, s)
    else Pull(c, s)
  }

  /** The first m rows the generator yields from here on, as blocks of tokens; the tensors of
      a row are `MakeRow` of its block. */
  function Rows(c: Config, s: Text, m: nat): (r: seq<seq<Tok>>)
    requires c.Valid() && s.sampleIdx <= |c.corpus.samples|
    ensures |r| <= m
    decreases m
  {
    if m == 0 then []
    else
      var (t, row) := Next(c, s);
      NextInBounds(c, s);
      if row.None? then [] else [row.value] + Rows(c, t, m - 1)
  }

  lemma {:induction false} PullInBounds(c: Config, s: Text)
    requires c.Valid() && s.sampleIdx <= |c.corpus.samples|
    ensures Pull(c, s).0.sampleIdx <= |c.corpus.samples|
    ensures s.dataEpoch == s.epoch ==> Pull(c, s).0.dataEpoch == Pull(c, s).0.epoch
    decreases Lacking(c, s), Patience(c.corpus, s.dataEpoch, s.sampleIdx) + 1
  {
    if s.sampleIdx < |c.corpus.samples| {
      PullsOn(c, s);
      if |Extend(c, s).buffer| < c.BlockLen() { PullInBounds(c, Extend(c, s)); }
    } else if c.infinite {
      EpochHasTokens(c.corpus, s.epoch + 1);
      PullInBounds(c, Reloop(s));
    }
  }

  lemma NextInBounds(c: Config, s: Text)
    requires c.Valid() && s.sampleIdx <= |c.corpus.samples|
    ensures Next(c, s).0.sampleIdx <= |c.corpus.samples|
    ensures s.dataEpoch == s.epoch ==> Next(c, s).0.dataEpoch == Next(c, s).0.epoch
  {
    if s.pc != Stopped && !(s.pc == Draining && |s.buffer| >= c.BlockLen()) {
      PullInBounds(c, s);
    }
  }

  // ----- rows are blocks of the token stream -----

  ghost function StreamFrom(c: Config, s: Text, k: nat): seq<Tok>
    requires c.Valid()
  {
    s.buffer + Feed(c.corpus, c.infinite, s.epoch, s.sampleIdx, k)
  }

  /** What one `next()` does in terms of the stream: it takes j samples and cuts one block
      off the front, or it reports the end with everything read. */
  ghost predicate Reads(c: Config, s: Text, j: nat, t: Text, row: Option<seq<Tok>>)
    requires c.Valid()
  {
    && (t.epoch, t.sampleIdx) == After(c.corpus, c.infinite, s.epoch, s.sampleIdx, j)
    && t.sampleIdx <= |c.corpus.samples| && t.dataEpoch == t.epoch
    && (!c.infinite ==> s.sampleIdx + j == t.sampleIdx)
    && var ts := StreamFrom(c, s, j);
    && match row
       case Some(r) => |ts| >= c.BlockLen() && r == ts[..c.BlockLen()]
                       && t.buffer == ts[c.BlockLen()..] && t.pc == Draining
       case None => !c.infinite && t.pc == Stopped && t.buffer == ts && t.sampleIdx == |c.corpus.samples|
                    && (j > 0 || s.pc == Draining ==> |ts| < c.BlockLen())
  }

  lemma ReadsWithOneMore(c: Config, s: Text, j: nat, t: Text, row: Option<seq<Tok>>)
    requires c.Valid() && s.sampleIdx < |c.corpus.samples| && s.dataEpoch == s.epoch
    requires Reads(c, Extend(c, s), j, t, row) && |Extend(c, s).buffer| < c.BlockLen()
    ensures Reads(c, s, j + 1, t, row)
  {
    var u := Extend(c, s);
    assert StreamFrom(c, s, j + 1) == StreamFrom(c, u, j);
    if j == 0 {
      assert StreamFrom(c, u, 0) == u.buffer;
    }
  }

  lemma ReadsOne(c: Config, s: Text)
    requires c.Valid() && s.sampleIdx < |c.corpus.samples| && s.dataEpoch == s.epoch
    requires |Extend(c, s).buffer| >= c.BlockLen()
    ensures Reads(c, s, 1, Emit(c, Extend(c, s)).0, Emit(c, Extend(c, s)).1)
  {
    var u := Extend(c, s);
    assert Feed(c.corpus, c.infinite, s.epoch, s.sampleIdx + 1, 0) == [];
    assert StreamFrom(c, s, 1) == u.buffer;
  }

  lemma ReadsAcrossEpochs(c: Config, s: Text, j: nat, t: Text, row: Option<seq<Tok>>)
    requires c.Valid() && c.infinite && s.sampleIdx == |c.corpus.samples| && j > 0
    requires Reads(c, Reloop(s), j, t, row)
    ensures Reads(c, s, j, t, row)
  {
    assert StreamFrom(c, s, j) == StreamFrom(c, Reloop(s), j);
  }

  lemma {:induction false} PullReads(c: Config, s: Text) returns (j: nat)
    requires c.Valid() && s.sampleIdx <= |c.corpus.samples| && s.dataEpoch == s.epoch
    requires s.pc == Draining ==> |s.buffer| < c.BlockLen()
    ensures Reads(c, s, j, Pull(c, s).0, Pull(c, s).1)
    ensures c.infinite || s.sampleIdx < |c.corpus.samples| ==> j > 0
    decreases Lacking(c, s), Patience(c.corpus, s.dataEpoch, s.sampleIdx) + 1
  {
    if s.sampleIdx < |c.corpus.samples| {
      var t := Extend(c, s);
      if |t.buffer| >= c.BlockLen() {
        ReadsOne(c, s);
        j := 1;
      } else {
        PullsOn(c, s);
        j := PullReads(c, t);
        ReadsWithOneMore(c, s, j, Pull(c, t).0, Pull(c, t).1);
        j := j + 1;
      }
    } else if !c.infinite {
      j := 0;
      assert StreamFrom(c, s, 0) == s.buffer;
    } else {
      EpochHasTokens(c.corpus, s.epoch + 1);
      j := PullReads(c, Reloop(s));
      ReadsAcrossEpochs(c, s, j, Pull(c, Reloop(s)).0, Pull(c, Reloop(s)).1);
    }
  }

  lemma NextReads(c: Config, s: Text) returns (j: nat)
    requires c.Valid() && s.sampleIdx <= |c.corpus.samples| && s.dataEpoch == s.epoch && s.pc != Stopped
    ensures Reads(c, s, j, Next(c, s).0, Next(c, s).1)
    ensures Next(c, s).1.None? && s.sampleIdx < |c.corpus.samples| ==> j > 0
  {
    if s.pc == Draining && |s.buffer| >= c.BlockLen() {
      j := 0;
      assert StreamFrom(c, s, 0) == s.buffer;
    } else {
      j := PullReads(c, s);
    }
  }

  /** The first m consecutive blocks of a token sequence. */
  ghost function Blocks(c: Config, ts: seq<Tok>, m: nat): (r: seq<seq<Tok>>)
    requires |ts| >= m * c.BlockLen()
    ensures |r| == m
    decreases m
  {
    if m == 0 then [] else
      assert m * c.BlockLen() == c.BlockLen() + (m - 1) * c.BlockLen();
      [ts[..c.BlockLen()]] + Blocks(c, ts[c.BlockLen()..], m - 1)
  }

  lemma {:induction false} BlocksPrefix(c: Config, ts: seq<Tok>, more: seq<Tok>, m: nat)
    requires |ts| >= m * c.BlockLen()
    ensures Blocks(c, ts + more, m) == Blocks(c, ts, m)
    decreases m
  {
    if m > 0 {
      assert m * c.BlockLen() == c.BlockLen() + (m - 1) * c.BlockLen();
      assert (ts + more)[..c.BlockLen()] == ts[..c.BlockLen()];
      assert (ts + more)[c.BlockLen()..] == ts[c.BlockLen()..] + more;
      BlocksPrefix(c, ts[c.BlockLen()..], more, m - 1);
    }
  }

  lemma CutFront<T>(a: seq<T>, b: seq<T>, n: nat)
    requires n <= |a|
    ensures (a + b)[..n] == a[..n] && (a + b)[n..] == a[n..] + b
  {
  }

  /** The tokens read with j + k samples: those of the first j, then those of the next k. */
  lemma StreamSplits(c: Config, s: Text, j: nat, t: Text, k: nat)
    requires c.Valid()
    requires (t.epoch, t.sampleIdx) == After(c.corpus, c.infinite, s.epoch, s.sampleIdx, j)
    ensures StreamFrom(c, s, j + k) == StreamFrom(c, s, j) + Feed(c.corpus, c.infinite, t.epoch, t.sampleIdx, k)
  {
    FeedSplit(c.corpus, c.infinite, s.epoch, s.sampleIdx, j, k);
  }

  lemma ReadsCuts(c: Config, s: Text, j: nat, t: Text, row: Option<seq<Tok>>)
    requires c.Valid() && Reads(c, s, j, t, row) && row.Some?
    ensures (t.epoch, t.sampleIdx) == After(c.corpus, c.infinite, s.epoch, s.sampleIdx, j)
    ensures var ts := StreamFrom(c, s, j);
      |ts| >= c.BlockLen() && row.value == ts[..c.BlockLen()] && t.buffer == ts[c.BlockLen()..]
  {
  }

  /** After one row the generator stands one block further along the same stream. */
  lemma StreamAdvances(c: Config, s: Text, j: nat, t: Text, row: Option<seq<Tok>>, k: nat)
    requires c.Valid() && Reads(c, s, j, t, row) && row.Some?
    ensures var whole := StreamFrom(c, s, j + k);
      |whole| >= c.BlockLen() && row.value == whole[..c.BlockLen()] &&
      whole[c.BlockLen()..] == StreamFrom(c, t, k)
  {
    ReadsCuts(c, s, j, t, row);
    StreamSplits(c, s, j, t, k);
    CutFront(StreamFrom(c, s, j), Feed(c.corpus, c.infinite, t.epoch, t.sampleIdx, k), c.BlockLen());
  }

  lemma StreamExtends(c: Config, s: Text, k: nat, j: nat) returns (more: seq<Tok>)
    requires c.Valid()
    ensures StreamFrom(c, s, j + k) == StreamFrom(c, s, k) + more
  {
    FeedSplit(c.corpus, c.infinite, s.epoch, s.sampleIdx, k, j);
    var a := After(c.corpus, c.infinite, s.epoch, s.sampleIdx, k);
    more := Feed(c.corpus, c.infinite, a.0, a.1, j);
  }

  /** Re-looping: the rows are the consecutive blocks of what is buffered followed by the
      rest of the epochs, whatever way the generator is suspended. */
  lemma {:induction false} RowsAreBlocks(c: Config, s: Text, m: nat, k: nat)
    requires c.Valid() && c.infinite && s.pc != Stopped
    requires s.sampleIdx <= |c.corpus.samples| && s.dataEpoch == s.epoch
    requires |StreamFrom(c, s, k)| >= m * c.BlockLen()
    ensures Rows(c, s, m) == Blocks(c, StreamFrom(c, s, k), m)
    decreases m
  {
    if m > 0 {
      var b := c.BlockLen();
      assert m * b == b + (m - 1) * b;
      var (t, row) := Next(c, s);
      var j := NextReads(c, s);
      StreamAdvances(c, s, j, t, row, k);
      var more := StreamExtends(c, s, k, j);
      RowsAreBlocks(c, t, m - 1, k);
      BlocksPrefix(c, StreamFrom(c, s, k), more, m);
    }
  }

  // ----- positions of the rows -----

  lemma StreamChained(c: Config, s: Text, k: nat)
    requires c.Valid() && WellFormed(c, s)
    ensures Chained(Positions(StreamFrom(c, s, k)))
  {
    var rest := Feed(c.corpus, c.infinite, s.epoch, s.sampleIdx, k);
    FeedChained(c.corpus, c.infinite, s.epoch, s.sampleIdx, k);
    PositionsJoin(s.buffer, rest);
    ChainedJoin(Positions(s.buffer), Positions(rest));
  }

  lemma ChainedCut(ts: seq<Tok>, n: nat)
    requires n <= |ts| && Chained(Positions(ts))
    ensures Chained(Positions(ts[..n])) && Chained(Positions(ts[n..]))
  {
  }

  /** Every position of a row is the distance to the start of its document's part in the
      row, hence below `seqLen`; inputs and labels are the block without its last and its
      first token. */
  lemma RowOfBlock(c: Config, block: seq<Tok>, i: nat)
    requires |block| == c.BlockLen() && Chained(Positions(block)) && i < c.seqLen
    ensures var row := MakeRow(c, block);
      && |row.input| == |row.positions| == |row.labels| == c.seqLen
      && row.input[i] == block[i].id && row.labels[i] == block[i + 1].id
      && row.positions[i] == Offset(Positions(block), i) && 0 <= row.positions[i] < c.seqLen
  {
    NormalizeIsOffset(Positions(block), i);
  }

  /** Every step of the generator keeps the object well formed, and what it yields is a
      full, chained block. */
  lemma NextKeeps(c: Config, s: Text)
    requires c.Valid() && WellFormed(c, s)
    ensures WellFormed(c, Next(c, s).0)
    ensures Next(c, s).1.Some? ==> |Next(c, s).1.value| == c.BlockLen() && Chained(Positions(Next(c, s).1.value))
  {
    if s.pc != Stopped {
      var (t, row) := Next(c, s);
      var j := NextReads(c, s);
      StreamChained(c, s, j);
      if row.Some? {
        ReadsCuts(c, s, j, t, row);
        ChainedCut(StreamFrom(c, s, j), c.BlockLen());
      }
    }
  }

  // ----- saving and resuming -----

  datatype Snapshot = Snapshot(sampleIdx: nat, epoch: nat, buffer: seq<Tok>)

  function StateDict(s: Text): Snapshot {
    Snapshot(s.sampleIdx, s.epoch, s.buffer)
  }

  /** `load_state_dict` on an object that has not been iterated yet: the shuffled order is
      replayed for a positive epoch only. */
  function LoadStateDict(obj: Text, sd: Snapshot): Text {
    Text(sd.sampleIdx, sd.epoch, if sd.epoch > 0 then sd.epoch else obj.dataEpoch, sd.buffer, Start)
  }

  function Resumed(s: Text): Text {
    LoadStateDict(FRESH, StateDict(s))
  }

  /** Re-looping over non-empty data, resume is exact from every yield, in the middle of
      draining a long sample and after earlier resumes included. */
  lemma ResumeExactInfinite(c: Config, s: Text, m: nat)
    requires c.Valid() && c.infinite && WellFormed(c, s) && s.pc != Stopped
    ensures Rows(c, Resumed(s), m) == Rows(c, s, m)
  {
    var k := EnoughTokens(c.corpus, s.epoch, s.sampleIdx, m * c.BlockLen());
    assert StreamFrom(c, Resumed(s), k) == StreamFrom(c, s, k);
    RowsAreBlocks(c, s, m, k);
    RowsAreBlocks(c, Resumed(s), m, k);
  }

  // ----- loading into an object that is not fresh -----

  /** The object reads the saved epoch's order after the load. */
  predicate OrderFits(obj: Text, sd: Snapshot) {
    sd.epoch > 0 || obj.dataEpoch == 0
  }

  /** Whatever the object read before, loading gives the rows that a fresh object would give,
      on every dataset, exactly when the snapshot is of a shuffled epoch or the object does
      not hold a shuffled order. */
  lemma LoadRestoresOrder(obj: Text, sd: Snapshot)
    ensures (forall c: Config, m: nat | c.Valid() && sd.sampleIdx <= |c.corpus.samples| ::
               Rows(c, LoadStateDict(obj, sd), m) == Rows(c, LoadStateDict(FRESH, sd), m)) <==> OrderFits(obj, sd)
  {
    if !OrderFits(obj, sd) {
      var n := sd.sampleIdx;
      var c := Config(TwoOrders(n), |sd.buffer|, false);
      TwoOrdersValid(n);
      FirstRow(c, LoadStateDict(obj, sd), n + 1);
      FirstRow(c, LoadStateDict(FRESH, sd), n);
      assert Rows(c, LoadStateDict(obj, sd), 1)[0][|sd.buffer|] != Rows(c, LoadStateDict(FRESH, sd), 1)[0][|sd.buffer|];
    }
  }

  /** One-token samples, read in order in epoch 0 and with samples n and n + 1 exchanged
      in all others. */
  function TwoOrders(n: nat): Corpus<seq<int>> {
    Corpus(seq(n + 2, i requires 0 <= i < n + 2 => [i]), e => OrderOf(n, e))
  }

  function OrderOf(n: nat, e: nat): (r: seq<nat>)
    ensures |r| == n + 2 && forall i | 0 <= i < n + 2 :: r[i] == Turned(n, e, i)
  {
    seq(n + 2, i requires 0 <= i < n + 2 => Turned(n, e, i))
  }

  function Turned(n: nat, e: nat, i: nat): nat {
    if e > 0 && i == n then n + 1 else if e > 0 && i == n + 1 then n else i
  }

  lemma TwoOrdersValid(n: nat)
    ensures TwoOrders(n).Valid()
  {
    forall e: nat, k: nat | k < n + 2
      ensures k in OrderOf(n, e)
    {
      assert OrderOf(n, e)[Turned(n, e, k)] == k;
    }
    assert forall e: nat :: IsPermutation(OrderOf(n, e), n + 2);
    assert forall e: nat :: TwoOrders(n).order(e) == OrderOf(n, e);
  }

  /** A block that lacks one token ends with the next sample of the order that is read. */
  lemma FirstRow(c: Config, s: Text, id: nat)
    requires c.Valid() && s.pc == Start && s.sampleIdx < |c.corpus.samples| && |s.buffer| == c.seqLen
    requires SampleAt(c.corpus, s.dataEpoch, s.sampleIdx) == [id]
    ensures Rows(c, s, 1) == [s.buffer + [Tok(id, 0)]]
  {
    var t := Extend(c, s);
    assert t.buffer == s.buffer + [Tok(id, 0)];
    assert t.buffer[..c.BlockLen()] == t.buffer;
    OneRow(c, s);
  }

  lemma OneRow(c: Config, s: Text)
    requires c.Valid() && s.sampleIdx <= |c.corpus.samples| && Next(c, s).1.Some?
    ensures Rows(c, s, 1) == [Next(c, s).1.value]
  {
    NextInBounds(c, s);
    assert Rows(c, Next(c, s).0, 0) == [];
  }

  /** So a re-looping run goes on exactly where it was saved. */
  lemma LoadContinues(c: Config, obj: Text, s: Text, m: nat)
    requires c.Valid() && c.infinite && WellFormed(c, s) && s.pc != Stopped && OrderFits(obj, StateDict(s))
    ensures Rows(c, LoadStateDict(obj, StateDict(s)), m) == Rows(c, s, m)
  {
    ResumeExactInfinite(c, s, m);
    LoadRestoresOrder(obj, StateDict(s));
  }

  /** An object that had loaded a snapshot of epoch 1 loads one taken in epoch 0, after the
      first of two samples: it gives that sample again instead of the other one. */
  lemma OrderLostExample() returns (c: Config, s: Text, obj: Text)
    ensures c == Config(Corpus([[1, 2], [3, 4]], (e: nat) => if e == 0 then [0, 1] else [1, 0]), 1, true) && c.Valid()
    ensures s == Next(c, FRESH).0 && s.epoch == 0 && s.sampleIdx == 1 && WellFormed(c, s)
    ensures Rows(c, FRESH, 1) == [[Tok(1, 0), Tok(2, 1)]] && Rows(c, s, 1) == [[Tok(3, 0), Tok(4, 1)]]
    ensures obj == LoadStateDict(FRESH, Snapshot(0, 1, []))
    ensures Rows(c, LoadStateDict(obj, StateDict(s)), 1) == [[Tok(1, 0), Tok(2, 1)]]
  {
    c := Config(Corpus([[1, 2], [3, 4]], (e: nat) => if e == 0 then [0, 1] else [1, 0]), 1, true);
    assert c.corpus.samples[0] != [];
    s := Next(c, FRESH).0;
    obj := LoadStateDict(FRESH, Snapshot(0, 1, []));
    assert Toks([1, 2]) == [Tok(1, 0), Tok(2, 1)] && Toks([3, 4]) == [Tok(3, 0), Tok(4, 1)];
    WholeRow(c, FRESH, 0);
    WholeRow(c, s, 1);
    WholeRow(c, LoadStateDict(obj, StateDict(s)), 0);
  }

  /** With an empty buffer, a sample of a block's length is the next row. */
  lemma WholeRow(c: Config, s: Text, i: nat)
    requires c.Valid() && s.pc != Stopped && s.sampleIdx < |c.corpus.samples| && s.buffer == []
    requires i < |c.corpus.samples| && c.corpus.order(s.dataEpoch)[s.sampleIdx] == i
    requires |c.corpus.samples[i]| == c.BlockLen()
    ensures Next(c, s) == (s.(sampleIdx := s.sampleIdx + 1, pc := Draining), Some(Toks(c.corpus.samples[i])))
    ensures Rows(c, s, 1) == [Toks(c.corpus.samples[i])]
  {
    var t := Extend(c, s);
    assert t.buffer == Toks(c.corpus.samples[i]);
    assert t.buffer[..c.BlockLen()] == t.buffer && t.buffer[c.BlockLen()..] == [];
    OneRow(c, s);
  }

  /** Everything a finite dataset still has to give. */
  ghost function Remaining(c: Config, s: Text): seq<Tok>
    requires c.Valid() && s.sampleIdx <= |c.corpus.samples|
  {
    StreamFrom(c, s, |c.corpus.samples| - s.sampleIdx)
  }

  /** How many rows a finite run still yields: a generator that is started afresh with no
      sample left never reaches its drain loop. */
  ghost function RowsLeft(c: Config, s: Text): nat
    requires c.Valid() && s.sampleIdx <= |c.corpus.samples|
  {
    if s.pc == Start && s.sampleIdx == |c.corpus.samples| then 0
    else |Remaining(c, s)| / c.BlockLen()
  }

  function Min(a: nat, b: nat): nat {
    if a < b then a else b
  }

  lemma RemainingBlocks(c: Config, s: Text, m: nat)
    requires c.Valid() && s.sampleIdx <= |c.corpus.samples|
    ensures Min(m, RowsLeft(c, s)) * c.BlockLen() <= |Remaining(c, s)|
  {
    DivDown(|Remaining(c, s)|, c.BlockLen());
    MulGrows(c.BlockLen(), Min(m, RowsLeft(c, s)), |Remaining(c, s)| / c.BlockLen());
  }

  /** A finite run yields a row exactly while a full block remains and it can reach it. */
  lemma FiniteEnds(c: Config, s: Text)
    requires c.Valid() && !c.infinite && s.pc != Stopped
    requires s.sampleIdx <= |c.corpus.samples| && s.dataEpoch == s.epoch
    ensures Next(c, s).1.None? ==> RowsLeft(c, s) == 0
    ensures Next(c, s).1.Some? ==> RowsLeft(c, s) == |Remaining(c, s)| / c.BlockLen()
  {
    var j := NextReads(c, s);
    DivDown(|Remaining(c, s)|, c.BlockLen());
  }

  /** A yielded row of a finite run is cut off the front of what remains. */
  lemma FiniteCut(c: Config, s: Text)
    requires c.Valid() && !c.infinite && s.pc != Stopped
    requires s.sampleIdx <= |c.corpus.samples| && s.dataEpoch == s.epoch && Next(c, s).1.Some?
    ensures var t := Next(c, s).0;
      && t.sampleIdx <= |c.corpus.samples| && t.dataEpoch == t.epoch && t.pc == Draining
      && |Remaining(c, s)| >= c.BlockLen()
      && Next(c, s).1.value == Remaining(c, s)[..c.BlockLen()]
      && Remaining(c, t) == Remaining(c, s)[c.BlockLen()..]
  {
    var j := NextReads(c, s);
    var t := Next(c, s).0;
    StreamAdvances(c, s, j, t, Next(c, s).1, |c.corpus.samples| - t.sampleIdx);
  }

  /** One `next()` of a finite run: one row fewer is left. */
  lemma FiniteNext(c: Config, s: Text)
    requires c.Valid() && !c.infinite && s.pc != Stopped
    requires s.sampleIdx <= |c.corpus.samples| && s.dataEpoch == s.epoch
    ensures Next(c, s).1.Some? <==> RowsLeft(c, s) > 0
    ensures Next(c, s).1.Some? ==>
      && Next(c, s).0.sampleIdx <= |c.corpus.samples|
      && RowsLeft(c, Next(c, s).0) == RowsLeft(c, s) - 1
  {
    FiniteEnds(c, s);
    if Next(c, s).1.Some? {
      FiniteCut(c, s);
      DivDown(|Remaining(c, s)|, c.BlockLen());
    }
  }

  lemma {:induction false} FiniteRows(c: Config, s: Text, m: nat)
    requires c.Valid() && !c.infinite && s.pc != Stopped
    requires s.sampleIdx <= |c.corpus.samples| && s.dataEpoch == s.epoch
    ensures Min(m, RowsLeft(c, s)) * c.BlockLen() <= |Remaining(c, s)|
    ensures Rows(c, s, m) == Blocks(c, Remaining(c, s), Min(m, RowsLeft(c, s)))
    decreases m
  {
    RemainingBlocks(c, s, m);
    if m > 0 {
      FiniteNext(c, s);
      if Next(c, s).1.Some? {
        FiniteCut(c, s);
        FiniteRows(c, Next(c, s).0, m - 1);
      }
    }
  }

  /** A finite resume yields either everything the uninterrupted run still would, or, when
      the last sample was already read, nothing: full rows still buffered are lost. */
  lemma ResumeFinite(c: Config, s: Text, m: nat)
    requires c.Valid() && !c.infinite && WellFormed(c, s) && s.pc != Stopped
    ensures Rows(c, Resumed(s), m) == if s.sampleIdx < |c.corpus.samples| then Rows(c, s, m) else []
  {
    var r := Resumed(s);
    assert Remaining(c, r) == Remaining(c, s);
    FiniteRows(c, s, m);
    FiniteRows(c, r, m);
  }

  /** Exactly when a finite resume is exact: a sample is unread, no full row is buffered,
      or the generator had not been advanced since an earlier load. */
  lemma ResumeExactFiniteIff(c: Config, s: Text)
    requires c.Valid() && !c.infinite && WellFormed(c, s) && s.pc != Stopped
    ensures (forall m: nat :: Rows(c, Resumed(s), m) == Rows(c, s, m))
      <==> (s.sampleIdx < |c.corpus.samples| || |s.buffer| < c.BlockLen() || s.pc == Start)
  {
    forall m: nat
      ensures Rows(c, Resumed(s), m) == if s.sampleIdx < |c.corpus.samples| then Rows(c, s, m) else []
      ensures |Rows(c, s, m)| == Min(m, RowsLeft(c, s))
    {
      ResumeFinite(c, s, m);
      FiniteRows(c, s, m);
    }
    if s.sampleIdx == |c.corpus.samples| {
      assert Remaining(c, s) == s.buffer;
      DivDown(|s.buffer|, c.BlockLen());
      assert |Rows(c, s, 1)| == Min(1, RowsLeft(c, s));
      if |s.buffer| < c.BlockLen() || s.pc == Start {
        assert RowsLeft(c, s) == 0;
      }
    }
  }

  /** The loss happens: one sample of four tokens, rows of one token, saved after the first
      of the two rows. */
  lemma FiniteLossExample()
    ensures var c := Config(Corpus([[5, 6, 7, 8]], e => [0]), 1, false);
      && c.Valid() && Next(c, FRESH).0.sampleIdx == 1 && Next(c, FRESH).0.epoch == Next(c, FRESH).0.dataEpoch
      && |Rows(c, Next(c, FRESH).0, 1)| == 1 && |Rows(c, Resumed(Next(c, FRESH).0), 1)| == 0
  {
    var c := Config(Corpus([[5, 6, 7, 8]], e => [0]), 1, false);
    assert c.Valid();
    var u := Extend(c, FRESH);
    assert |u.buffer| == 4;
    var s := Next(c, FRESH).0;
    assert s == Emit(c, u).0 && |s.buffer| == 2;
    assert Next(c, s) == Emit(c, s);
  }
}
