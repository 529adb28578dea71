/** `ChatDataset`: whole conversations packed greedily into rows, resumable from every
    yield. */
module ChatDatasets {
  import opened ChatSamples
  import opened GreedyPacking
  import opened Sequences
  import opened TokenStreams
  import opened Wrappers

  /** `corpus.samples[k]` is the k-th sample after tokenisation, `None` when dropped. */
  datatype Config = Config(corpus: Corpus<Option<Doc>>, seqLen: nat, eos: int, infinite: bool) {
    ghost predicate Valid() {
      && corpus.Valid()
      && DocsFit(seqLen, corpus.samples)
      && (infinite ==> SomeFills(seqLen, corpus.samples))
    }
  }

  ghost predicate DocsFit(seqLen: nat, samples: seq<Option<Doc>>) {
    forall k | 0 <= k < |samples| && samples[k].Some? :: |samples[k].value| <= seqLen
  }

  /** The sample puts a token into a row (or rows hold none). */
  predicate Fills(seqLen: nat, sample: Option<Doc>) {
    sample.Some? && (sample.value != [] || seqLen == 0)
  }

  /** A re-looping dataset has a sample to emit. */
  ghost predicate SomeFills(seqLen: nat, samples: seq<Option<Doc>>) {
    exists k :: 0 <= k < |samples| && Fills(seqLen, samples[k])
  }

  // ----- rows -----

  /** One column of a row: input token, label, position. */
  datatype Cell = Cell(id: int, lbl: int, pos: int)

  type Row = seq<Cell>

  function Place(doc: Doc): (r: seq<Cell>)
    ensures |r| == |doc|
  {
    seq(|doc|, i requires 0 <= i < |doc| => Cell(doc[i].id, doc[i].lbl, i))
  }

  function Pad(c: Config, n: nat): (r: seq<Cell>)
    ensures |r| == n
  {
    seq(n, i => Cell(c.eos, IGNORE_INDEX, i))
  }

  function Padded(c: Config, buffer: seq<Cell>): seq<Cell>
    requires |buffer| <= c.seqLen
  {
    buffer + Pad(c, c.seqLen - |buffer|)
  }

  function Cells(b: Bin<Target>): (r: seq<Cell>)
    ensures |r| == Fill(b)
  {
    if b == [] then [] else Place(b[0]) + Cells(b[1..])
  }

  function Render(c: Config, b: Bin<Target>): Row
    requires Fill(b) <= c.seqLen
  {
    Padded(c, Cells(b))
  }

  lemma {:induction false} CellsJoin(a: Bin<Target>, doc: Doc)
    ensures Cells(a + [doc]) == Cells(a) + Place(doc)
  {
    if a == [] {
      assert Cells([doc]) == Place(doc) + Cells([]);
      assert a + [doc] == [doc];
    } else {
      CellsJoin(a[1..], doc);
      assert (a + [doc])[1..] == a[1..] + [doc];
    }
  }

  lemma {:induction false} CellAt(b: Bin<Target>, k: nat, i: nat)
    requires k < |b| && i < |b[k]|
    ensures Fill(b[..k]) + i < Fill(b)
    ensures Cells(b)[Fill(b[..k]) + i] == Cell(b[k][i].id, b[k][i].lbl, i)
  {
    if k > 0 {
      CellAt(b[1..], k - 1, i);
      assert b[..k][1..] == b[1..][..k - 1];
    }
  }

  /** A row holds its documents whole, one behind the other, positions restarting at 0 in
      each; the rest is ignored padding. */
  lemma RowHoldsDocuments(c: Config, b: Bin<Target>, k: nat, i: nat)
    requires Fill(b) <= c.seqLen && k < |b| && i < |b[k]|
    ensures var r, at := Render(c, b), Fill(b[..k]) + i;
      |r| == c.seqLen > at && r[at] == Cell(b[k][i].id, b[k][i].lbl, i)
  {
    CellAt(b, k, i);
  }

  lemma RowPadding(c: Config, b: Bin<Target>, at: nat)
    requires Fill(b) <= at < c.seqLen
    ensures |Render(c, b)| == c.seqLen && Render(c, b)[at] == Cell(c.eos, IGNORE_INDEX, at - Fill(b))
  {
  }

  // ----- the generator -----

  /** Where `_iter_greedy_packed` is suspended: before its first statement, or at one of its
      yields (a sample is pending, a row was filled exactly, or the epoch's rest was
      flushed), or it has finished. */
  datatype Pc = Start | AfterPending | AfterFull | AfterFlush | Stopped

  datatype Chat = Chat(sampleIdx: nat, epoch: nat, dataEpoch: nat, buffer: seq<Cell>, pending: Doc, pc: Pc)

  const FRESH := Chat(0, 0, 0, [], [], Start)

  ghost predicate InRange(c: Config, s: Chat) {
    && s.sampleIdx <= |c.corpus.samples| && s.dataEpoch == s.epoch
    && (|s.buffer| < c.seqLen || s.buffer == [])
  }

  function Reloop(s: Chat): Chat {
    s.(sampleIdx := 0, epoch := s.epoch + 1, dataEpoch := s.epoch + 1)
  }

  function Flush(c: Config, s: Chat, pc: Pc): (Chat, Option<Row>)
    requires |s.buffer| <= c.seqLen
  {
    (s.(buffer := [], pc := pc), Some(Padded(c, s.buffer)))
  }

  function Add(s: Chat, doc: Doc): Chat {
    s.(buffer := s.buffer + Place(doc), sampleIdx := s.sampleIdx + 1, pending := [])
  }

  ghost predicate FillsAhead(c: Config, e: nat, i: nat)
    requires c.Valid()
  {
    exists j: nat :: i <= j < |c.corpus.samples| && FillsAt(c, e, j)
  }

  ghost predicate FillsAt(c: Config, e: nat, j: nat)
    requires c.Valid() && j < |c.corpus.samples|
  {
    Fills(c.seqLen, SampleAt(c.corpus, e, j))
  }

  lemma EpochFills(c: Config, e: nat)
    requires c.Valid() && c.infinite
    ensures FillsAhead(c, e, 0)
  {
    var k :| 0 <= k < |c.corpus.samples| && Fills(c.seqLen, c.corpus.samples[k]);
    EpochVisits(c.corpus, e, k);
    var i: nat :| i < |c.corpus.samples| && SampleAt(c.corpus, e, i) == c.corpus.samples[k];
    assert FillsAt(c, e, i);
  }

  ghost function Patience(c: Config, e: nat, i: nat): int
    requires c.Valid()
  {
    if FillsAhead(c, e, i) then |c.corpus.samples| - i else 2 * |c.corpus.samples| + 1 - i
  }

  /** Bounds the samples looked at before the next yield: with an open row the rest of the
      epoch, otherwise also those up to the next sample that opens one. */
  ghost function Rank(c: Config, s: Chat): nat
    requires c.Valid() && InRange(c, s)
  {
    if s.buffer != [] then |c.corpus.samples| - s.sampleIdx
    else |c.corpus.samples| + 1 + Patience(c, s.epoch, s.sampleIdx)
  }

  lemma PatienceDrops(c: Config, e: nat, i: nat)
    requires c.Valid() && i < |c.corpus.samples|
    ensures !FillsAt(c, e, i) ==> Patience(c, e, i + 1) < Patience(c, e, i)
  {
    if !FillsAt(c, e, i) && FillsAhead(c, e, i) {
      var j: nat :| i <= j < |c.corpus.samples| && FillsAt(c, e, j);
      assert i + 1 <= j;
    }
  }

  /** Every way the loop goes on lowers the rank. */
  lemma RankDrops(c: Config, s: Chat)
    requires c.Valid() && InRange(c, s)
    ensures s.sampleIdx < |c.corpus.samples| ==>
      match SampleAt(c.corpus, s.epoch, s.sampleIdx)
      case None => Rank(c, s.(sampleIdx := s.sampleIdx + 1)) < Rank(c, s)
      case Some(doc) => var t := Add(s, doc);
        |t.buffer| < c.seqLen ==> InRange(c, t) && Rank(c, t) < Rank(c, s)
    ensures s.sampleIdx == |c.corpus.samples| && s.buffer == [] && c.infinite ==> Rank(c, Reloop(s)) < Rank(c, s)
  {
    if s.sampleIdx < |c.corpus.samples| {
      PatienceDrops(c, s.epoch, s.sampleIdx);
    } else if c.infinite {
      EpochFills(c, s.epoch + 1);
    }
  }

  /** From the head of the sample loop to the next yield. */
  function Loop(c: Config, s: Chat): (Chat, Option<Row>)
    requires c.Valid() && InRange(c, s)
    decreases Rank(c, s), 0
  {
    RankDrops(c, s);
    if s.sampleIdx < |c.corpus.samples| then
      match SampleAt(c.corpus, s.dataEpoch, s.sampleIdx)
      case None => Loop(c, s.(sampleIdx := s.sampleIdx + 1))
      case Some(doc) =>
        if |doc| > c.seqLen - |s.buffer| && |s.buffer| > 0 then
          Flush(c, s.(pending := doc), AfterPending)
        else
          var t := Add(s, doc);
          if |t.buffer| == c.seqLen then Flush(c, t, AfterFull) else Loop(c, t)
    else if |s.buffer| > 0 then Flush(c, s, AfterFlush)
    else if !c.infinite then (s.(pc := Stopped), None)
    else Loop(c, Reloop(s))
  }

  /** One round of the loop over a sample, case by case. */
  lemma LoopSkips(c: Config, s: Chat)
    requires c.Valid() && InRange(c, s) && s.sampleIdx < |c.corpus.samples|
    requires SampleAt(c.corpus, s.epoch, s.sampleIdx) == None
    ensures Loop(c, s) == Loop(c, s.(sampleIdx := s.sampleIdx + 1))
  {
  }

  lemma LoopYields(c: Config, s: Chat, doc: Doc)
    requires c.Valid() && InRange(c, s) && s.sampleIdx < |c.corpus.samples|
    requires SampleAt(c.corpus, s.epoch, s.sampleIdx) == Some(doc)
    ensures |doc| > c.seqLen - |s.buffer| && |s.buffer| > 0 ==>
      Loop(c, s) == Flush(c, s.(pending := doc), AfterPending)
    ensures (|doc| <= c.seqLen - |s.buffer| || s.buffer == []) && |Add(s, doc).buffer| == c.seqLen ==>
      Loop(c, s) == Flush(c, Add(s, doc), AfterFull)
  {
  }

  lemma LoopAdds(c: Config, s: Chat, doc: Doc)
    requires c.Valid() && InRange(c, s) && s.sampleIdx < |c.corpus.samples|
    requires SampleAt(c.corpus, s.epoch, s.sampleIdx) == Some(doc)
    requires |doc| <= c.seqLen - |s.buffer| || s.buffer == []
    requires |Add(s, doc).buffer| < c.seqLen
    ensures InRange(c, Add(s, doc)) && Loop(c, s) == Loop(c, Add(s, doc))
  {
    RankDrops(c, s);
  }

  /** The pending sample goes into the empty buffer; then the loop goes on. */
  function TakePending(c: Config, s: Chat): (Chat, Option<Row>)
    requires c.Valid() && InRange(c, s) && s.buffer == [] && |s.pending| <= c.seqLen
    requires s.sampleIdx < |c.corpus.samples|
  {
    var t := Add(s, s.pending);
    if |t.buffer| == c.seqLen then Flush(c, t, AfterFull) else Loop(c, t)
  }

  /** Reached by fresh objects, by loading, and at every yield. */
  ghost predicate WellFormed(c: Config, s: Chat)
    requires c.Valid()
  {
    && s.sampleIdx <= |c.corpus.samples| && s.dataEpoch == s.epoch && s.buffer == []
    && (s.pending != [] ==>
          && s.sampleIdx < |c.corpus.samples|
          && SampleAt(c.corpus, s.epoch, s.sampleIdx) == Some(s.pending))
    && (s.pc == AfterPending ==> s.pending != [])
    && (s.pending != [] ==> s.pc == Start || s.pc == AfterPending)
    && (s.pc == AfterFlush || s.pc == Stopped ==> s.sampleIdx == |c.corpus.samples|)
    && (s.pc == Stopped ==> !c.infinite)
  }

  /** `next()` on the generator. */
  function Next(c: Config, s: Chat): (Chat, Option<Row>)
    requires c.Valid() && WellFormed(c, s)
  {
    var r := s.(pc := Start);
    match s.pc
    case Start => if s.pending != [] then TakePending(c, r) else Loop(c, r)
    case AfterPending => TakePending(c, r)
    case AfterFull => Loop(c, r)
    case AfterFlush => if !c.infinite then (s.(pc := Stopped), None) else Loop(c, Reloop(r))
    case Stopped => (s, None)
  }

  /** Where there is no pending sample to place, the generator enters its loop, in the next
      epoch after a flush. */
  lemma NextLoops(c: Config, s: Chat)
    requires c.Valid() && WellFormed(c, s) && s.pending == [] && s.pc != Stopped && (s.pc == AfterFlush ==> c.infinite)
    ensures var r := if s.pc == AfterFlush then Reloop(s.(pc := Start)) else s.(pc := Start);
      InRange(c, r) && Next(c, s) == Loop(c, r)
  {
  }

  /** The first m rows the generator yields from here on. */
  function Rows(c: Config, s: Chat, m: nat): (r: seq<Row>)
    requires c.Valid() && WellFormed(c, s)
    ensures |r| <= m
    decreases m
  {
    if m == 0 then []
    else
      var (t, row) := Next(c, s);
      NextWellFormed(c, s);
      if row.None? then [] else [row.value] + Rows(c, t, m - 1)
  }

  // ----- the rows of an epoch -----

  /** The documents of epoch e from index i on that are short enough, in order. */
  ghost function Kept(c: Config, e: nat, i: nat): (r: seq<Doc>)
    requires c.Valid()
    ensures AllFit(c.seqLen, r)
    decreases |c.corpus.samples| - i
  {
    if i >= |c.corpus.samples| then []
    else match SampleAt(c.corpus, e, i)
      case None => Kept(c, e, i + 1)
      case Some(doc) => [doc] + Kept(c, e, i + 1)
  }

  /** The bins still to come in this epoch. */
  ghost function Plan(c: Config, s: Chat): seq<Bin<Target>>
    requires c.Valid() && WellFormed(c, s)
  {
    if s.pending != [] then Put(c.seqLen, Kept(c, s.epoch, s.sampleIdx + 1), [s.pending])
    else NextFit(c.seqLen, Kept(c, s.epoch, s.sampleIdx), [])
  }

  /** What a step yields, given the bins of this epoch and of the next. */
  ghost predicate Follows(c: Config, e: nat, bins: seq<Bin<Target>>, t: Chat, row: Option<Row>)
    requires c.Valid()
  {
    && WellFormed(c, t)
    && if bins != [] then
         Fill(bins[0]) <= c.seqLen && row == Some(Render(c, bins[0])) && Plan(c, t) == bins[1..] && t.epoch == e
       else if c.infinite then FollowsNextEpoch(c, e, t, row)
       else row == None && t.pc == Stopped && t.epoch == e
  }

  ghost predicate FollowsNextEpoch(c: Config, e: nat, t: Chat, row: Option<Row>)
    requires c.Valid() && WellFormed(c, t)
  {
    var next := NextFit(c.seqLen, Kept(c, e + 1, 0), []);
    && next != [] && Fill(next[0]) <= c.seqLen && row == Some(Render(c, next[0]))
    && Plan(c, t) == next[1..] && t.epoch == e + 1
  }

  lemma FlushFollows(c: Config, s: Chat, open: Bin<Target>, pc: Pc, rest: seq<Bin<Target>>)
    requires c.Valid() && s.buffer == Cells(open) && Fill(open) <= c.seqLen
    requires WellFormed(c, Flush(c, s, pc).0) && Plan(c, Flush(c, s, pc).0) == rest
    ensures Follows(c, s.epoch, [open] + rest, Flush(c, s, pc).0, Flush(c, s, pc).1)
  {
  }

  /** The loop follows the packing of what is left of the epoch, `open` being the documents
      in the buffer. */
  lemma {:induction false} LoopFollows(c: Config, s: Chat, open: Bin<Target>)
    requires c.Valid() && InRange(c, s) && s.buffer == Cells(open) && s.pending == [] && HasRoom(c.seqLen, open)
    ensures Follows(c, s.epoch, NextFit(c.seqLen, Kept(c, s.epoch, s.sampleIdx), open), Loop(c, s).0, Loop(c, s).1)
    decreases Rank(c, s), 0
  {
    RankDrops(c, s);
    if s.sampleIdx < |c.corpus.samples| {
      match SampleAt(c.corpus, s.dataEpoch, s.sampleIdx) {
        case None => LoopFollows(c, s.(sampleIdx := s.sampleIdx + 1), open);
        case Some(doc) =>
          if |doc| > c.seqLen - |s.buffer| && |s.buffer| > 0 {
            FlushFollows(c, s.(pending := doc), open, AfterPending,
              Put(c.seqLen, Kept(c, s.epoch, s.sampleIdx + 1), [doc]));
          } else {
            AddFollows(c, s, doc, open);
          }
      }
    } else if |s.buffer| > 0 {
      FlushFollows(c, s, open, AfterFlush, []);
    } else if c.infinite {
      EpochFills(c, s.epoch + 1);
      EpochEmits(c, s.epoch + 1);
      LoopFollows(c, Reloop(s), []);
    }
  }

  /** Placing a document that fits, then going on. */
  lemma {:induction false} AddFollows(c: Config, s: Chat, doc: Doc, open: Bin<Target>)
    requires c.Valid() && InRange(c, s) && s.buffer == Cells(open) && HasRoom(c.seqLen, open)
    requires s.sampleIdx < |c.corpus.samples| && |doc| <= c.seqLen
    requires SampleAt(c.corpus, s.epoch, s.sampleIdx) == Some(doc)
    requires |doc| <= c.seqLen - |s.buffer| || s.buffer == []
    ensures var t := Add(s, doc);
      var step := if |t.buffer| == c.seqLen then Flush(c, t, AfterFull) else Loop(c, t);
      Follows(c, s.epoch, Put(c.seqLen, Kept(c, s.epoch, s.sampleIdx + 1), open + [doc]), step.0, step.1)
    decreases Rank(c, s) - 1, 1
  {
    RankDrops(c, s);
    CellsJoin(open, doc);
    FillJoin(open, [doc]);
    var t := Add(s, doc);
    if |t.buffer| == c.seqLen {
      FlushFollows(c, t, open + [doc], AfterFull, NextFit(c.seqLen, Kept(c, s.epoch, s.sampleIdx + 1), []));
    } else {
      var bins := NextFit(c.seqLen, Kept(c, s.epoch, t.sampleIdx), open + [doc]);
      assert Follows(c, s.epoch, bins, Loop(c, t).0, Loop(c, t).1) by { LoopFollows(c, t, open + [doc]); }
      assert Put(c.seqLen, Kept(c, s.epoch, s.sampleIdx + 1), open + [doc]) == bins;
    }
  }

  lemma {:induction false} KeptHas(c: Config, e: nat, i: nat, j: nat) returns (k: nat)
    requires c.Valid() && i <= j < |c.corpus.samples| && FillsAt(c, e, j)
    ensures k < |Kept(c, e, i)| && (Kept(c, e, i)[k] != [] || c.seqLen == 0)
    decreases j - i
  {
    if i == j {
      k := 0;
    } else {
      k := KeptHas(c, e, i + 1, j);
      if SampleAt(c.corpus, e, i).Some? {
        k := k + 1;
      }
    }
  }

  lemma EpochEmits(c: Config, e: nat)
    requires c.Valid() && FillsAhead(c, e, 0)
    ensures NextFit(c.seqLen, Kept(c, e, 0), []) != []
  {
    var j: nat :| j < |c.corpus.samples| && FillsAt(c, e, j);
    var k := KeptHas(c, e, 0, j);
    PackingEmits(c.seqLen, Kept(c, e, 0), [], k);
  }

  /** One `next()` yields the next planned row of the epoch; when the epoch is done it goes
      on to the first row of the next epoch, or stops. */
  lemma NextPlan(c: Config, s: Chat)
    requires c.Valid() && WellFormed(c, s)
    ensures s.pc != Stopped ==> Follows(c, s.epoch, Plan(c, s), Next(c, s).0, Next(c, s).1)
    ensures WellFormed(c, Next(c, s).0)
  {
    var r := s.(pc := Start);
    if s.pc == Stopped {
    } else if s.pending != [] {
      AddFollows(c, r.(pending := []), s.pending, []);
      assert [] + [s.pending] == [s.pending];
      assert Add(r.(pending := []), s.pending) == Add(r, s.pending);
    } else if s.pc == AfterFlush {
      if c.infinite {
        EpochFills(c, s.epoch + 1);
        EpochEmits(c, s.epoch + 1);
        LoopFollows(c, Reloop(r), []);
      }
    } else {
      LoopFollows(c, r, []);
    }
  }

  lemma NextWellFormed(c: Config, s: Chat)
    requires c.Valid() && WellFormed(c, s)
    ensures WellFormed(c, Next(c, s).0)
  {
    NextPlan(c, s);
  }

  // ----- whole runs -----

  /** The rows show the first |rows| bins, one row per bin. */
  ghost predicate Shows(c: Config, rows: seq<Row>, bins: seq<Bin<Target>>)
    requires BinsFit(c.seqLen, bins)
  {
    |rows| <= |bins| && forall i | 0 <= i < |rows| :: rows[i] == Render(c, bins[i])
  }

  /** The packing of k whole epochs, from epoch e on. */
  ghost function Ahead(c: Config, e: nat, k: nat): seq<Bin<Target>>
    requires c.Valid()
    decreases k
  {
    if k == 0 then [] else NextFit(c.seqLen, Kept(c, e, 0), []) + Ahead(c, e + 1, k - 1)
  }

  lemma {:induction false} AheadFits(c: Config, e: nat, k: nat)
    requires c.Valid()
    ensures BinsFit(c.seqLen, Ahead(c, e, k))
    decreases k
  {
    if k > 0 {
      PackingFits(c.seqLen, Kept(c, e, 0), []);
      AheadFits(c, e + 1, k - 1);
    }
  }

  lemma PlanFits(c: Config, s: Chat, k: nat)
    requires c.Valid() && WellFormed(c, s)
    ensures BinsFit(c.seqLen, Plan(c, s) + Ahead(c, s.epoch + 1, k))
  {
    AheadFits(c, s.epoch + 1, k);
    if s.pending != [] {
      PutFits(c.seqLen, Kept(c, s.epoch, s.sampleIdx + 1), [s.pending]);
    } else {
      PackingFits(c.seqLen, Kept(c, s.epoch, s.sampleIdx), []);
    }
  }

  /** The bins of the rest of this epoch and of the k epochs after it. */
  ghost function Bins(c: Config, s: Chat, k: nat): (r: seq<Bin<Target>>)
    requires c.Valid() && WellFormed(c, s)
    ensures BinsFit(c.seqLen, r)
  {
    PlanFits(c, s, k);
    Plan(c, s) + Ahead(c, s.epoch + 1, k)
  }

  function Min(a: nat, b: nat): nat {
    if a < b then a else b
  }

  /** The rows are those of the first m bins, or of all bins if there are fewer. */
  ghost predicate PackedAs(c: Config, rows: seq<Row>, bins: seq<Bin<Target>>, m: nat) {
    BinsFit(c.seqLen, bins) && |rows| == Min(m, |bins|) && Shows(c, rows, bins)
  }

  lemma ShowsCons(c: Config, row: Row, rows: seq<Row>, bins: seq<Bin<Target>>, m: nat)
    requires BinsFit(c.seqLen, bins) && bins != [] && row == Render(c, bins[0]) && m > 0
    requires PackedAs(c, rows, bins[1..], m - 1)
    ensures PackedAs(c, [row] + rows, bins, m)
  {
    forall i | 0 < i <= |rows|
      ensures ([row] + rows)[i] == Render(c, bins[i])
    {
      assert rows[i - 1] == Render(c, bins[1..][i - 1]);
    }
  }

  lemma NextBinHere(c: Config, s: Chat, k: nat)
    requires c.Valid() && WellFormed(c, s) && Plan(c, s) != []
    ensures Next(c, s).1 == Some(Render(c, Bins(c, s, k)[0]))
    ensures WellFormed(c, Next(c, s).0) && Bins(c, Next(c, s).0, k) == Bins(c, s, k)[1..]
  {
    NextPlan(c, s);
  }

  lemma NextBinLater(c: Config, s: Chat, k: nat)
    requires c.Valid() && c.infinite && WellFormed(c, s) && Plan(c, s) == [] && k > 0
    ensures Bins(c, s, k) != [] && Next(c, s).1 == Some(Render(c, Bins(c, s, k)[0]))
    ensures WellFormed(c, Next(c, s).0) && Bins(c, Next(c, s).0, k - 1) == Bins(c, s, k)[1..]
  {
    NextPlan(c, s);
  }

  /** One `next()` renders the first bin and leaves the others. */
  lemma NextBin(c: Config, s: Chat, k: nat) returns (k': nat)
    requires c.Valid() && WellFormed(c, s) && Bins(c, s, k) != [] && (k > 0 ==> c.infinite)
    ensures k' <= k && Next(c, s).1 == Some(Render(c, Bins(c, s, k)[0]))
    ensures WellFormed(c, Next(c, s).0) && Bins(c, Next(c, s).0, k') == Bins(c, s, k)[1..]
  {
    if Plan(c, s) != [] {
      k' := k;
      NextBinHere(c, s, k);
    } else {
      k' := k - 1;
      NextBinLater(c, s, k);
    }
  }

  lemma RowsStep(c: Config, s: Chat, m: nat)
    requires c.Valid() && WellFormed(c, s) && m > 0
    ensures WellFormed(c, Next(c, s).0)
    ensures Rows(c, s, m) ==
      if Next(c, s).1.None? then [] else [Next(c, s).1.value] + Rows(c, Next(c, s).0, m - 1)
  {
    NextPlan(c, s);
  }

  lemma NoBins(c: Config, s: Chat, k: nat)
    requires c.Valid() && WellFormed(c, s) && Bins(c, s, k) == [] && !c.infinite
    ensures Next(c, s).1 == None
  {
    NextPlan(c, s);
  }

  /** What the generator yields, from any yield on: the rows of the packing of the rest of
      this epoch, followed by those of the later epochs when it re-loops. */
  lemma {:induction false} RowsArePacked(c: Config, s: Chat, k: nat, m: nat)
    requires c.Valid() && WellFormed(c, s)
    requires if c.infinite then m <= |Bins(c, s, k)| else k == 0
    ensures PackedAs(c, Rows(c, s, m), Bins(c, s, k), m)
    decreases m
  {
    var bins := Bins(c, s, k);
    if m > 0 && bins == [] {
      NoBins(c, s, k);
      RowsStep(c, s, m);
    } else if m > 0 {
      var k' := NextBin(c, s, k);
      var t := Next(c, s).0;
      assert PackedAs(c, Rows(c, t, m - 1), bins[1..], m - 1) by { RowsArePacked(c, t, k', m - 1); }
      RowsStep(c, s, m);
      ShowsCons(c, Render(c, bins[0]), Rows(c, t, m - 1), bins, m);
    }
  }

  /** The rows of one epoch, read from its start: every kept conversation is in exactly one
      row, whole and in order; only conversations without a token are in none; rows never
      overflow, two neighbours would not fit in one row, and there are few rows. */
  lemma EpochPacked(c: Config, s: Chat) returns (leftover: seq<Doc>)
    requires c.Valid() && WellFormed(c, s) && s.sampleIdx == 0 && s.pending == []
    ensures var bins, kept := Bins(c, s, 0), Kept(c, s.epoch, 0);
      && Flatten(bins) + leftover == kept && AllEmpty(leftover)
      && BinsFit(c.seqLen, bins)
      && (c.seqLen > 0 ==> NeighboursOverflow(c.seqLen, bins) && |bins| <= 2 * Fill(kept) / c.seqLen + 1)
    ensures forall m: nat | m == |Bins(c, s, 0)| || (!c.infinite && m >= |Bins(c, s, 0)|) ::
      |Rows(c, s, m)| == |Bins(c, s, 0)| && Shows(c, Rows(c, s, m), Bins(c, s, 0))
  {
    var bins, kept := Bins(c, s, 0), Kept(c, s.epoch, 0);
    assert bins == NextFit(c.seqLen, kept, []);
    leftover := PackingConserves(c.seqLen, kept, []);
    assert [] + kept == kept;
    PackingFits(c.seqLen, kept, []);
    if c.seqLen > 0 {
      PackingBound(c.seqLen, kept);
    }
    forall m: nat | m == |bins| || (!c.infinite && m >= |bins|)
      ensures |Rows(c, s, m)| == |bins| && Shows(c, Rows(c, s, m), bins)
    {
      RowsArePacked(c, s, 0, m);
    }
  }

  // ----- saving and resuming -----

  datatype Snapshot = Snapshot(sampleIdx: nat, epoch: nat, buffer: seq<Cell>, pending: Doc)

  function StateDict(s: Chat): Snapshot {
    Snapshot(s.sampleIdx, s.epoch, s.buffer, s.pending)
  }

  /** `load_state_dict`; the order of a positive epoch is replayed. */
  function LoadStateDict(obj: Chat, sd: Snapshot): Chat {
    Chat(sd.sampleIdx, sd.epoch, if sd.epoch > 0 then sd.epoch else obj.dataEpoch, sd.buffer, sd.pending, Start)
  }

  function Resumed(s: Chat): Chat {
    LoadStateDict(FRESH, StateDict(s))
  }

  /** A fresh object loaded with a snapshot makes the very step the original would make,
      whichever yield the snapshot was taken at. */
  lemma ResumeStep(c: Config, s: Chat)
    requires c.Valid() && WellFormed(c, s)
    ensures WellFormed(c, Resumed(s)) && Next(c, Resumed(s)) == Next(c, s)
  {
  }

  /** Resume is exact, finite or re-looping, across epochs and from every yield. */
  lemma ResumeExact(c: Config, s: Chat, m: nat)
    requires c.Valid() && WellFormed(c, s)
    ensures WellFormed(c, Resumed(s)) && Rows(c, Resumed(s), m) == Rows(c, s, m)
  {
    ResumeStep(c, s);
  }
}
