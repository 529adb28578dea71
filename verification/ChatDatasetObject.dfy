/** The `ChatDataset` object, its five lists updated in place by the generator, which holds an
    iterator over the data of its own. */
module ChatDatasetObjects {
  import opened ChatDatasets
  import opened ChatSamples
  import opened TokenStreams
  import opened Wrappers
  import C = ChatDatasets

  function Pairs(ids: seq<int>, labels: seq<int>): (r: Doc)
    requires |ids| == |labels|
    ensures |r| == |ids|
  {
    seq(|ids|, i requires 0 <= i < |ids| => Target(ids[i], labels[i]))
  }

  function Triples(ids: seq<int>, labels: seq<int>, positions: seq<int>): (r: seq<Cell>)
    requires |ids| == |labels| == |positions|
    ensures |r| == |ids|
  {
    seq(|ids|, i requires 0 <= i < |ids| => Cell(ids[i], labels[i], positions[i]))
  }

  function Range(n: nat): (r: seq<int>)
    ensures |r| == n
  {
    seq(n, i => i)
  }

  function Repeat(x: int, n: nat): (r: seq<int>)
    ensures |r| == n
  {
    seq(n, _ => x)
  }

  lemma TriplesJoin(ids: seq<int>, labels: seq<int>, positions: seq<int>, doc: Doc)
    requires |ids| == |labels| == |positions|
    ensures forall a, b | |a| == |b| && Pairs(a, b) == doc ::
      Triples(ids + a, labels + b, positions + Range(|a|)) == Triples(ids, labels, positions) + Place(doc)
  {
    forall a, b | |a| == |b| && Pairs(a, b) == doc
      ensures Triples(ids + a, labels + b, positions + Range(|a|)) == Triples(ids, labels, positions) + Place(doc)
    {
      forall i | 0 <= i < |a|
        ensures a[i] == doc[i].id && b[i] == doc[i].lbl
      {
        assert Pairs(a, b)[i] == Target(a[i], b[i]);
      }
    }
  }

  class ChatDataset {
    const data: Corpus<Sample>
    const seqLen: nat
    const eosId: int
    const infinite: bool
    var inputsBuffer: seq<int>
    var labelsBuffer: seq<int>
    var positionsBuffer: seq<int>
    var pendingInputIds: seq<int>
    var pendingLabelIds: seq<int>
    var sampleIdx: nat
    var epoch: nat
    var dataEpoch: nat
    var pc: Pc
    var inLoop: bool            // the generator is inside its sample loop
    var iterOrder: nat          // the epoch whose order the loop's iterator follows
    var cursor: nat             // the sample it gives next

    ghost const conf: Config

    /** Every tokenised text has at least one token, and `conf` describes the tokenised data. */
    ghost predicate Described() {
      && (forall k | 0 <= k < |data.samples| :: data.samples[k].full != [])
      && conf == Config(Tokenised(seqLen, eosId, data), seqLen, eosId, infinite)
    }

    ghost predicate ListsMatch()
      reads this
    {
      |inputsBuffer| == |labelsBuffer| == |positionsBuffer| && |pendingInputIds| == |pendingLabelIds|
    }

    ghost predicate Valid()
      reads this
    {
      && Described() && conf.Valid() && ListsMatch() && WellFormed(conf, View())
      && IteratorFits() && (pc == AfterPending ==> inLoop) && (pc == Start ==> !inLoop)
    }

    /** A live iterator stands where the read position says, one further while the sample it
        gave last is pending. */
    ghost predicate IteratorFits()
      reads this
    {
      inLoop ==> iterOrder == dataEpoch && cursor == sampleIdx + if pc == AfterPending then 1 else 0
    }

    ghost function View(): Chat
      reads this
      requires ListsMatch()
    {
      Chat(sampleIdx, epoch, dataEpoch, Triples(inputsBuffer, labelsBuffer, positionsBuffer),
           Pairs(pendingInputIds, pendingLabelIds), pc)
    }

    constructor (data: Corpus<Sample>, seqLen: nat, eosId: int, infinite: bool)
      requires data.Valid() && forall k | 0 <= k < |data.samples| :: data.samples[k].full != []
      requires infinite ==> SomeFills(seqLen, Tokenised(seqLen, eosId, data).samples)
      ensures Valid() && View() == FRESH
      ensures this.data == data && this.seqLen == seqLen && this.eosId == eosId && this.infinite == infinite
    {
      this.data, this.seqLen, this.eosId, this.infinite := data, seqLen, eosId, infinite;
      conf := Config(Tokenised(seqLen, eosId, data), seqLen, eosId, infinite);
      inputsBuffer, labelsBuffer, positionsBuffer, pendingInputIds, pendingLabelIds := [], [], [], [], [];
      sampleIdx, epoch, dataEpoch, pc := 0, 0, 0, Start;
      inLoop, iterOrder, cursor := false, 0, 0;
    }

    /** `_tokenize_sample`: close with EOS, drop what is too long, shift, mask the prompt. */
    method TokenizeSample(sample: Sample) returns (r: Option<(seq<int>, seq<int>)>)
      requires sample.full != []
      ensures match Tokenize(seqLen, eosId, sample)
        case None => r == None
        case Some(doc) => r.Some? && |r.value.0| == |r.value.1| && Pairs(r.value.0, r.value.1) == doc
    {
      var fullTokens := sample.full;
      if fullTokens[|fullTokens| - 1] != eosId {
        fullTokens := fullTokens + [eosId];
      }
      if |fullTokens| - 1 > seqLen {
        return None;
      }
      var inputIds := fullTokens[..|fullTokens| - 1];
      var labelIds := fullTokens[1..];
      var maskEnd := MaskEnd(sample.promptLen, |labelIds|);
      labelIds := Repeat(IGNORE_INDEX, maskEnd) + labelIds[maskEnd..];
      assert fullTokens == Closed(eosId, sample.full);
      assert Pairs(inputIds, labelIds) == Tokenize(seqLen, eosId, sample).value;
      r := Some((inputIds, labelIds));
    }

    method FlushBuffers() returns (row: Row)
      requires ListsMatch()
      modifies this`inputsBuffer, this`labelsBuffer, this`positionsBuffer
      ensures ListsMatch() && View() == old(View()).(buffer := [])
      ensures row == old(View()).buffer
    {
      row := Triples(inputsBuffer, labelsBuffer, positionsBuffer);
      inputsBuffer, labelsBuffer, positionsBuffer := [], [], [];
    }

    method PadBuffers()
      requires Described() && ListsMatch() && |inputsBuffer| <= seqLen
      modifies this`inputsBuffer, this`labelsBuffer, this`positionsBuffer
      ensures ListsMatch() && View() == old(View()).(buffer := Padded(conf, old(View()).buffer))
    {
      var padLen := seqLen - |inputsBuffer|;
      inputsBuffer := inputsBuffer + Repeat(eosId, padLen);
      labelsBuffer := labelsBuffer + Repeat(IGNORE_INDEX, padLen);
      positionsBuffer := positionsBuffer + Range(padLen);
      assert View().buffer == Padded(conf, old(View()).buffer);
    }

    /** Append one example, positions restarting at 0. */
    method AddToBuffer(inputIds: seq<int>, labelIds: seq<int>)
      requires ListsMatch() && |inputIds| == |labelIds| && pendingInputIds == pendingLabelIds == []
      modifies this`inputsBuffer, this`labelsBuffer, this`positionsBuffer, this`sampleIdx
      ensures ListsMatch() && View() == Add(old(View()), Pairs(inputIds, labelIds))
    {
      TriplesJoin(inputsBuffer, labelsBuffer, positionsBuffer, Pairs(inputIds, labelIds));
      inputsBuffer := inputsBuffer + inputIds;
      labelsBuffer := labelsBuffer + labelIds;
      positionsBuffer := positionsBuffer + Range(|inputIds|);
      sampleIdx := sampleIdx + 1;
    }

    method Reloop()
      requires ListsMatch()
      modifies this`sampleIdx, this`epoch, this`dataEpoch
      ensures ListsMatch() && View() == C.Reloop(old(View()))
    {
      sampleIdx := 0;
      epoch := epoch + 1;
      dataEpoch := epoch;
    }

    /** `_get_data_iter`: a new iterator skips to the read position. */
    method GetDataIter()
      modifies this`inLoop, this`iterOrder, this`cursor
      ensures InLoop()
    {
      inLoop, iterOrder, cursor := true, dataEpoch, sampleIdx;
    }

    /** At the head of the sample loop. */
    ghost predicate InLoop()
      reads this
    {
      inLoop && iterOrder == dataEpoch && cursor == sampleIdx
    }

    /** One `next()` on the generator. */
    method Next() returns (row: Option<Row>)
      requires Valid()
      modifies this
      ensures Valid() && (View(), row) == C.Next(conf, old(View()))
    {
      NextWellFormed(conf, View());
      row := Advance();
    }

    /** What every step leaves besides the new state: an iterator that fits it. */
    ghost predicate Suspended()
      reads this
    {
      ListsMatch() && IteratorFits() && (pc == AfterPending ==> inLoop) && pc != Start
    }

    /** Go on after the yield the generator is suspended at. */
    method Advance() returns (row: Option<Row>)
      requires Valid()
      modifies this
      ensures Suspended() && (View(), row) == C.Next(conf, old(View()))
    {
      if pc == Stopped || (pc == AfterFlush && !infinite) {
        pc, inLoop := Stopped, false;
        row := None;
      } else if |pendingInputIds| > 0 {
        row := TakePending();
      } else {
        row := EnterLoop();
      }
    }

    /** Back into the sample loop, or into a new one. */
    method EnterLoop() returns (row: Option<Row>)
      requires Valid() && pendingInputIds == [] && pc != Stopped && (pc == AfterFlush ==> infinite)
      modifies this
      ensures Suspended() && (View(), row) == C.Next(conf, old(View()))
    {
      ghost var s := View();
      NextLoops(conf, s);
      if pc == AfterFlush {
        Reloop();
        inLoop := false;
      }
      pc := Start;
      assert View() == (if s.pc == AfterFlush then C.Reloop(s.(pc := Start)) else s.(pc := Start));
      row := ContinueLoop();
    }

    /** The pending sample first: a row if it fills one exactly. After that yield a generator
        that was resumed still has no iterator, one that was not is in its loop. */
    method TakePending() returns (row: Option<Row>)
      requires Valid() && pendingInputIds != []
      modifies this
      ensures Suspended() && (View(), row) == C.TakePending(conf, old(View()).(pc := Start))
    {
      ghost var r := View().(pc := Start);
      RankDrops(conf, r);
      PlacePending();
      if |inputsBuffer| == seqLen {
        row := YieldPadded(AfterFull);
      } else {
        row := ContinueLoop();
      }
    }

    /** The pending sample goes into the buffers; a live iterator has given it already. */
    method PlacePending()
      requires ListsMatch() && IteratorFits() && pendingInputIds != [] && (pc == AfterPending || !inLoop)
      modifies this
      ensures ListsMatch() && View() == Add(old(View()).(pc := Start), old(View()).pending)
      ensures inLoop ==> InLoop()
    {
      pc := Start;
      var inputIds, labelIds := pendingInputIds, pendingLabelIds;
      pendingInputIds, pendingLabelIds := [], [];
      AddToBuffer(inputIds, labelIds);
    }

    /** On with the live iterator, or with a new one. */
    method ContinueLoop() returns (row: Option<Row>)
      requires Described() && conf.Valid() && ListsMatch() && InRange(conf, View())
      requires pendingInputIds == [] && pc == Start && (inLoop ==> InLoop())
      modifies this
      ensures Suspended() && (View(), row) == Loop(conf, old(View()))
    {
      if !inLoop {
        GetDataIter();
      }
      row := LoopNext();
    }

    /** The next sample of the loop's iterator. */
    method ReadSample() returns (r: Option<(seq<int>, seq<int>)>)
      requires Described() && conf.corpus.Valid() && cursor < |data.samples| == |conf.corpus.samples|
      modifies this`cursor
      ensures cursor == old(cursor) + 1
      ensures match SampleAt(conf.corpus, iterOrder, old(cursor))
        case None => r == None
        case Some(doc) => r.Some? && |r.value.0| == |r.value.1| && Pairs(r.value.0, r.value.1) == doc
    {
      assert SampleAt(conf.corpus, iterOrder, cursor) == Tokenize(seqLen, eosId, SampleAt(data, iterOrder, cursor));
      r := TokenizeSample(SampleAt(data, iterOrder, cursor));
      cursor := cursor + 1;
    }

    /** Pad the open row and yield it. */
    method YieldPadded(at: Pc) returns (row: Option<Row>)
      requires Described() && ListsMatch() && |inputsBuffer| <= seqLen
      modifies this`inputsBuffer, this`labelsBuffer, this`positionsBuffer, this`pc
      ensures ListsMatch() && (View(), row) == Flush(conf, old(View()), at)
    {
      PadBuffers();
      pc := at;
      var r := FlushBuffers();
      row := Some(r);
    }

    /** Place one tokenised sample: yield first when it does not fit, after when it fills the
        row. */
    method PlaceSample(inputIds: seq<int>, labelIds: seq<int>) returns (row: Option<Row>)
      requires Described() && ListsMatch() && |inputsBuffer| <= seqLen && |inputIds| == |labelIds| <= seqLen
      requires pendingInputIds == [] && pc == Start
      modifies this`inputsBuffer, this`labelsBuffer, this`positionsBuffer, this`pendingInputIds, this`pendingLabelIds,
        this`sampleIdx, this`pc
      ensures ListsMatch()
      ensures var doc, was := Pairs(inputIds, labelIds), old(View()); var t := Add(was, doc);
        if |doc| > seqLen - |was.buffer| && |was.buffer| > 0 then
          (View(), row) == Flush(conf, was.(pending := doc), AfterPending)
        else if |t.buffer| == seqLen then (View(), row) == Flush(conf, t, AfterFull)
        else row == None && View() == t
    {
      if |inputIds| > seqLen - |inputsBuffer| && |inputsBuffer| > 0 {
        pendingInputIds, pendingLabelIds := inputIds, labelIds;
        row := YieldPadded(AfterPending);
      } else {
        AddToBuffer(inputIds, labelIds);
        row := None;
        if |inputsBuffer| == seqLen {
          row := YieldPadded(AfterFull);
        }
      }
    }

    /** One round of the sample loop: either the generator yields, or it goes on from a place
        where the loop would give the same. */
    method OneSample() returns (row: Option<Row>)
      requires Described() && conf.Valid() && ListsMatch() && InRange(conf, View())
      requires pendingInputIds == [] && pc == Start && InLoop() && cursor < |data.samples|
      modifies this
      ensures ListsMatch() && inLoop && iterOrder == dataEpoch
      ensures row.Some? ==> (View(), row) == Loop(conf, old(View())) && IteratorFits() && pc != Start
      ensures row.None? ==> InRange(conf, View()) && pendingInputIds == [] && pc == Start && InLoop()
      ensures row.None? ==>
        Loop(conf, View()) == Loop(conf, old(View())) && Rank(conf, View()) < Rank(conf, old(View()))
    {
      ghost var s := View();
      RankDrops(conf, s);
      var result := ReadSample();
      if result.None? {
        LoopSkips(conf, s);
        sampleIdx := sampleIdx + 1;
        row := None;
        assert View() == s.(sampleIdx := s.sampleIdx + 1);
      } else {
        ghost var doc := Pairs(result.value.0, result.value.1);
        LoopYields(conf, s, doc);
        row := PlaceSample(result.value.0, result.value.1);
        if row.None? {
          LoopAdds(conf, s, doc);
        }
      }
    }

    /** The sample loop, the flush when its iterator is exhausted, and the next epoch. */
    method LoopNext() returns (row: Option<Row>)
      requires Described() && conf.Valid() && ListsMatch() && InRange(conf, View())
      requires pendingInputIds == [] && pc == Start && InLoop()
      modifies this
      ensures Suspended() && (View(), row) == Loop(conf, old(View()))
    {
      while true
        invariant ListsMatch() && InRange(conf, View()) && pendingInputIds == [] && pc == Start && InLoop()
        invariant Loop(conf, View()) == Loop(conf, old(View()))
        decreases Rank(conf, View())
      {
        if cursor < |data.samples| {
          row := OneSample();
          if row.Some? {
            return;
          }
        } else if |inputsBuffer| > 0 {
          inLoop := false;
          row := YieldPadded(AfterFlush);
          return;
        } else if !infinite {
          pc, inLoop := Stopped, false;
          return None;
        } else {
          RankDrops(conf, View());
          Reloop();
          GetDataIter();
        }
      }
    }

    method StateDict() returns (sd: Snapshot)
      requires Valid()
      ensures sd == C.StateDict(View())
    {
      sd := Snapshot(sampleIdx, epoch, Triples(inputsBuffer, labelsBuffer, positionsBuffer),
                     Pairs(pendingInputIds, pendingLabelIds));
    }

    method LoadStateDict(sd: Snapshot)
      requires Valid()
      modifies this
      ensures ListsMatch() && View() == C.LoadStateDict(old(View()), sd)
      ensures WellFormed(conf, View()) ==> Valid()
    {
      inputsBuffer := seq(|sd.buffer|, i requires 0 <= i < |sd.buffer| => sd.buffer[i].id);
      labelsBuffer := seq(|sd.buffer|, i requires 0 <= i < |sd.buffer| => sd.buffer[i].lbl);
      positionsBuffer := seq(|sd.buffer|, i requires 0 <= i < |sd.buffer| => sd.buffer[i].pos);
      pendingInputIds := seq(|sd.pending|, i requires 0 <= i < |sd.pending| => sd.pending[i].id);
      pendingLabelIds := seq(|sd.pending|, i requires 0 <= i < |sd.pending| => sd.pending[i].lbl);
      assert Triples(inputsBuffer, labelsBuffer, positionsBuffer) == sd.buffer;
      assert Pairs(pendingInputIds, pendingLabelIds) == sd.pending;
      sampleIdx, epoch := sd.sampleIdx, sd.epoch;
      if epoch > 0 {
        dataEpoch := epoch;
      }
      pc, inLoop := Start, false;
    }
  }
}
