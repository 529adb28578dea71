/** `GradAccumulator`: chunk gradients copied into one buffer along the sequence. */
module GradAccumulators {
  import opened Arithmetic
  import opened Sequences
  import opened Wrappers

  datatype Error = TooManyChunks | OtherPlacement | PlainAfterPlaced | NothingPlaced

  /** A chunk's gradient by sequence position; a DTensor chunk carries its placement. */
  datatype Chunk<T, P> = Chunk(grad: seq<T>, placement: Option<P>)

  class GradAccumulator<T(0), P(==)> {
    const numChunks: nat
    const hasMesh: bool
    const buffer: array<T>
    var nextIdx: nat
    var placements: Option<P>
    ghost var added: seq<seq<T>>

    /** Equal chunks fill the buffer from the left, in the order they were added. */
    ghost predicate Valid()
      reads this, buffer
    {
      && nextIdx == |added| <= numChunks
      && |Flatten(added)| <= buffer.Length
      && (EqualLengths(added) ==> Flatten(added) <= buffer[..])
    }

    constructor (length: nat, numChunks: nat, hasMesh: bool, zero: T)
      ensures Valid() && fresh(buffer) && buffer.Length == length && added == [] && placements == None
      ensures this.numChunks == numChunks && this.hasMesh == hasMesh
    {
      this.numChunks := numChunks;
      this.hasMesh := hasMesh;
      buffer := new T[length](_ => zero);
      nextIdx, placements, added := 0, None, [];
    }

    /** Writes a slice of the buffer. */
    method CopyIn(start: nat, grad: seq<T>)
      requires start + |grad| <= buffer.Length
      modifies buffer
      ensures buffer[..] == old(buffer[..start]) + grad + old(buffer[start + |grad|..])
    {
      forall i | 0 <= i < |grad| {
        buffer[start + i] := grad[i];
      }
    }

    /** The checks of `add`, remembering the first placement. */
    method CheckPlacement(placement: Option<P>) returns (e: Option<Error>)
      modifies this`placements
      ensures e == None <==> old(placements) == None || placement == old(placements)
      ensures placements == if e == None && old(placements) == None then placement else old(placements)
      ensures e != Some(TooManyChunks)
    {
      if placement.Some? {
        if placements.None? {
          placements := placement;
        } else if placement != placements {
          return Some(OtherPlacement);
        }
      } else if placements.Some? {
        return Some(PlainAfterPlaced);
      }
      return None;
    }

    /** `add`: refused past the last chunk or on a placement that differs from the first;
        otherwise written at the offset its own length and number give. */
    method Add(chunk: Chunk<T, P>) returns (e: Option<Error>)
      requires Valid() && (nextIdx + 1) * |chunk.grad| <= buffer.Length
      requires |Flatten(added)| + |chunk.grad| <= buffer.Length
      modifies this, buffer
      ensures Valid()
      ensures e == Some(TooManyChunks) <==> old(nextIdx) >= numChunks
      ensures e == None <==> old(nextIdx) < numChunks && (old(placements) == None || chunk.placement == old(placements))
      ensures e == None ==> added == old(added) + [chunk.grad]
      ensures e != None ==> added == old(added) && buffer[..] == old(buffer[..])
      ensures placements == if e == None && old(placements) == None then chunk.placement else old(placements)
    {
      if nextIdx >= numChunks {
        return Some(TooManyChunks);
      }
      e := CheckPlacement(chunk.placement);
      if e.None? {
        var start := nextIdx * |chunk.grad|;
        MulStep(|chunk.grad|, nextIdx);
        ghost var was := buffer[..];
        CopyIn(start, chunk.grad);
        Appends(added, chunk.grad, was, buffer[..]);
        nextIdx := nextIdx + 1;
        added := added + [chunk.grad];
      }
    }

    /** `result`: the concatenation of all chunks once equal chunks have filled the buffer. */
    method Result() returns (r: Result<seq<T>, Error>)
      requires Valid()
      ensures r == Err(NothingPlaced) <==> hasMesh && placements == None
      ensures r.Ok? ==> r.value == buffer[..]
      ensures r.Ok? && EqualLengths(added) && |Flatten(added)| == buffer.Length ==> r.value == Flatten(added)
    {
      if hasMesh && placements.None? {
        return Err(NothingPlaced);
      }
      return Ok(buffer[..]);
    }
  }

  ghost predicate EqualLengths<T>(chunks: seq<seq<T>>) {
    forall i, j | 0 <= i < |chunks| && 0 <= j < |chunks| :: |chunks[i]| == |chunks[j]|
  }

  /** Among equal chunks the write offset is where the earlier ones end. */
  lemma {:induction false} EqualStart<T>(added: seq<seq<T>>, grad: seq<T>)
    requires EqualLengths(added + [grad])
    ensures |Flatten(added)| == |added| * |grad| && EqualLengths(added)
  {
    var all := added + [grad];
    forall i, j | 0 <= i < |added| && 0 <= j < |added|
      ensures |added[i]| == |added[j]|
    {
      assert |all[i]| == |all[j]|;
    }
    if added != [] {
      assert |all[0]| == |all[|added|]|;
      forall i, j | 0 <= i < |added[1..] + [grad]| && 0 <= j < |added[1..] + [grad]|
        ensures |(added[1..] + [grad])[i]| == |(added[1..] + [grad])[j]|
      {
        assert |all[i + 1]| == |all[j + 1]|;
      }
      EqualStart(added[1..], grad);
      MulStep(|grad|, |added| - 1);
    }
  }

  /** Writing the next equal chunk at its offset extends the concatenation. */
  lemma Appends<T>(added: seq<seq<T>>, grad: seq<T>, was: seq<T>, now: seq<T>)
    requires |added| * |grad| + |grad| <= |was| && |Flatten(added)| + |grad| <= |was|
    requires EqualLengths(added) ==> Flatten(added) <= was
    requires now == was[..|added| * |grad|] + grad + was[|added| * |grad| + |grad|..]
    ensures |Flatten(added + [grad])| == |Flatten(added)| + |grad|
    ensures EqualLengths(added + [grad]) ==> Flatten(added + [grad]) <= now
  {
    FlattenJoin(added, [grad]);
    FlattenOne(grad);
    if EqualLengths(added + [grad]) {
      EqualStart(added, grad);
    }
  }
}
