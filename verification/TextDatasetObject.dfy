/** The `HuggingFaceTextDataset` object, its fields updated in place by the generator, which
    holds an iterator over the data of its own. */
module TextDatasetObjects {
  import opened TextDatasets
  import opened TokenStreams
  import opened Wrappers
  import T = TextDatasets

  /** The first i positions are normalised, the others as they were. */
  ghost predicate PartNormalized(was: seq<int>, now: seq<int>, i: nat, offset: int) {
    && i <= |was| == |now| && now[i..] == was[i..]
    && now[..i] + NormalizeFrom(was[i..], offset) == NormalizeFrom(was, offset)
  }

  lemma NormalizeStep(was: seq<int>, now: seq<int>, i: nat, offset: int)
    requires PartNormalized(was, now, i, offset) && i < |was| && now[i] != 0
    ensures PartNormalized(was, now[i := now[i] - offset], i + 1, offset)
  {
    assert was[i] == was[i..][0] == now[i..][0] == now[i] && was[i..][1..] == was[i + 1..];
    var next := now[i := now[i] - offset];
    assert next[..i + 1] == now[..i] + [now[i] - offset];
    assert next[i + 1..] == now[i..][1..];
  }

  lemma NormalizeEnd(was: seq<int>, now: seq<int>, i: nat, offset: int)
    requires PartNormalized(was, now, i, offset) && (i == |was| || now[i] == 0)
    ensures now == NormalizeFrom(was, offset)
  {
    assert now == now[..i] + now[i..];
    assert i < |was| ==> was[i..][0] == now[i..][0];
  }

  class HuggingFaceTextDataset {
    const config: Config
    var inputsBuffer: seq<int>
    var positionsBuffer: seq<int>
    var sampleIdx: nat
    var epoch: nat
    var dataEpoch: nat
    var pc: Pc
    var iterOrder: nat          // the epoch whose order the live iterator follows
    var cursor: nat             // the sample it gives next

    ghost predicate Valid()
      reads this
    {
      && config.Valid()
      && |inputsBuffer| == |positionsBuffer|
      && WellFormed(config, View())
      && (pc == Draining ==> IteratorFits())
    }

    /** The live iterator stands where the read position says. */
    ghost predicate IteratorFits()
      reads this
    {
      iterOrder == dataEpoch && cursor == sampleIdx
    }

    ghost function View(): Text
      reads this
      requires |inputsBuffer| == |positionsBuffer|
    {
      Text(sampleIdx, epoch, dataEpoch, Zip(inputsBuffer, positionsBuffer), pc)
    }

    constructor (c: Config)
      requires c.Valid()
      ensures Valid() && config == c && View() == FRESH
    {
      config := c;
      inputsBuffer, positionsBuffer, sampleIdx, epoch, dataEpoch, pc := [], [], 0, 0, 0, Start;
      iterOrder, cursor := 0, 0;
    }

    /** The in-place loop of `_normalize_positions`, with its early exit. */
    static method NormalizePositions(positions: array<int>)
      requires positions.Length > 0
      modifies positions
      ensures positions[..] == Normalize(old(positions[..]))
    {
      ghost var was := positions[..];
      var offset := positions[0];
      if offset > 0 {
        var i := 0;
        while i < positions.Length
          invariant i <= positions.Length && PartNormalized(was, positions[..], i, offset)
        {
          if positions[i] == 0 {
            break;
          }
          NormalizeStep(was, positions[..], i, offset);
          ghost var now := positions[..][i := positions[i] - offset];
          positions[i] := positions[i] - offset;
          assert positions[..] == now;
          i := i + 1;
        }
        NormalizeEnd(was, positions[..], i, offset);
      }
    }

    /** Cut one row off the buffers. */
    method YieldRow() returns (row: Row)
      requires config.Valid() && |inputsBuffer| == |positionsBuffer| >= config.BlockLen()
      modifies this`inputsBuffer, this`positionsBuffer, this`pc
      ensures |inputsBuffer| == |positionsBuffer|
      ensures View() == Emit(config, old(View())).0
      ensures row == MakeRow(config, Emit(config, old(View())).1.value)
    {
      var b := config.BlockLen();
      var x := inputsBuffer[..b];
      var pos := new int[b](i requires 0 <= i < |positionsBuffer| reads this => positionsBuffer[i]);
      assert pos[..] == positionsBuffer[..b];
      NormalizePositions(pos);
      ghost var block := View().buffer[..b];
      assert Ids(block) == x && Positions(block) == positionsBuffer[..b];
      inputsBuffer := inputsBuffer[b..];
      positionsBuffer := positionsBuffer[b..];
      pc := Draining;
      assert View().buffer == old(View()).buffer[b..];
      row := Row(x[..config.seqLen], pos[..config.seqLen], x[1..]);
      assert pos[..config.seqLen] == pos[..][..config.seqLen];
    }

    /** `reloop`: the next epoch, in its own order. */
    method Reloop()
      requires |inputsBuffer| == |positionsBuffer|
      modifies this`sampleIdx, this`epoch, this`dataEpoch
      ensures View() == T.Reloop(old(View()))
    {
      sampleIdx := 0;
      epoch := epoch + 1;
      dataEpoch := epoch;
    }

    /** `_get_data_iter`: a new iterator skips to the read position. */
    method GetDataIter()
      modifies this`iterOrder, this`cursor
      ensures IteratorFits()
    {
      iterOrder, cursor := dataEpoch, sampleIdx;
    }

    /** The next sample of the live iterator goes into the buffers. */
    method ExtendBuffers()
      requires config.Valid() && |inputsBuffer| == |positionsBuffer| && cursor < |config.corpus.samples|
      requires IteratorFits()
      modifies this`inputsBuffer, this`positionsBuffer, this`sampleIdx, this`cursor
      ensures |inputsBuffer| == |positionsBuffer| && View() == Extend(config, old(View())) && IteratorFits()
    {
      var tokens := SampleAt(config.corpus, iterOrder, cursor);
      cursor := cursor + 1;
      inputsBuffer := inputsBuffer + tokens;
      positionsBuffer := positionsBuffer + seq(|tokens|, i requires 0 <= i < |tokens| => i);
      sampleIdx := sampleIdx + 1;
      assert View().buffer == old(View()).buffer + Toks(tokens);
    }

    /** One `next()` on the generator: resume after the last yield, run to the next one. */
    method Next() returns (row: Option<Row>)
      requires Valid()
      modifies this
      ensures Valid() && View() == T.Next(config, old(View())).0
      ensures match T.Next(config, old(View())).1
        case Some(block) => |block| == config.BlockLen() && row == Some(MakeRow(config, block))
        case None => row == None
    {
      NextKeeps(config, View());
      row := None;
      if pc != Stopped {
        var full := pc == Draining && |inputsBuffer| >= config.BlockLen();
        if !full {
          if pc == Start {
            GetDataIter();
          }
          full := FillBlock();
        }
        if full {
          var r := YieldRow();
          row := Some(r);
        }
      }
    }

    /** The two nested loops of `__iter__`, from the head of the inner one up to the point
        where a full block is buffered. */
    method FillBlock() returns (full: bool)
      requires Valid() && IteratorFits()
      modifies this
      ensures |inputsBuffer| == |positionsBuffer| && IteratorFits()
      ensures full ==> |inputsBuffer| >= config.BlockLen() && Emit(config, View()) == Pull(config, old(View()))
      ensures !full ==> (View(), None) == Pull(config, old(View()))
    {
      while true
        invariant |inputsBuffer| == |positionsBuffer| && sampleIdx <= |config.corpus.samples| && dataEpoch == epoch
        invariant IteratorFits()
        invariant Pull(config, View()) == Pull(config, old(View()))
        decreases if |inputsBuffer| < config.BlockLen() then config.BlockLen() - |inputsBuffer| else 0,
          Patience(config.corpus, epoch, sampleIdx) + 1
      {
        if cursor < |config.corpus.samples| {
          assert SampleAt(config.corpus, epoch, sampleIdx) == [] ==>
            (TokensAhead(config.corpus, epoch, sampleIdx) ==> TokensAhead(config.corpus, epoch, sampleIdx + 1));
          ExtendBuffers();
          if |inputsBuffer| >= config.BlockLen() {
            return true;
          }
        } else if !config.infinite {
          pc := Stopped;
          return false;
        } else {
          EpochHasTokens(config.corpus, epoch + 1);
          Reloop();
          GetDataIter();
        }
      }
    }

    method StateDict() returns (sd: Snapshot)
      requires Valid()
      ensures sd == T.StateDict(View())
    {
      sd := Snapshot(sampleIdx, epoch, Zip(inputsBuffer, positionsBuffer));
    }

    /** `load_state_dict`: epoch 0 leaves the data in whatever order the object holds. */
    method LoadStateDict(sd: Snapshot)
      requires Valid()
      modifies this
      ensures |inputsBuffer| == |positionsBuffer| && View() == T.LoadStateDict(old(View()), sd)
      ensures WellFormed(config, View()) ==> Valid()
    {
      inputsBuffer := Ids(sd.buffer);
      positionsBuffer := Positions(sd.buffer);
      epoch := sd.epoch;
      sampleIdx := sd.sampleIdx;
      if epoch > 0 {
        dataEpoch := epoch;
      }
      pc := Start;
      assert Zip(inputsBuffer, positionsBuffer) == sd.buffer;
    }
  }
}
