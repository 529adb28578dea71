/** `_tokenize_sample`: one conversation as inputs and shifted, prompt-masked labels. */
module ChatSamples {
  import opened TokenStreams
  import opened Wrappers

  const IGNORE_INDEX: int := -100

  /** A validated [user, assistant] pair after tokenisation: the whole text, and the number
      of tokens of the prompt alone. */
  datatype Sample = Sample(full: seq<int>, promptLen: nat)

  datatype Target = Target(id: int, lbl: int)

  type Doc = seq<Target>

  /** The token list always ends with the end-of-sequence token, once. */
  function Closed(eos: int, full: seq<int>): (r: seq<int>)
    requires full != []
    ensures r != [] && r[|r| - 1] == eos
    ensures full <= r && |r| <= |full| + 1
    ensures full[|full| - 1] == eos ==> r == full
  {
    if full[|full| - 1] != eos then full + [eos] else full
  }

  function MaskEnd(promptLen: nat, n: nat): nat {
    var m := if promptLen == 0 then 0 else promptLen - 1;
    if m < n then m else n
  }

  /** `_tokenize_sample`: inputs and shifted labels, or nothing for a sample that is too
      long. */
  function Tokenize(seqLen: nat, eos: int, s: Sample): (r: Option<Doc>)
    requires s.full != []
    ensures r.Some? <==> |Closed(eos, s.full)| - 1 <= seqLen
    ensures r.Some? ==> |r.value| <= seqLen
  {
    var full := Closed(eos, s.full);
    var n := |full| - 1;
    if n > seqLen then None
    else Some(seq(n, i requires 0 <= i < n =>
      Target(full[i], if i < MaskEnd(s.promptLen, n) then IGNORE_INDEX else full[i + 1])))
  }

  /** A label is a token of the response exactly where the next token lies past the prompt;
      the first response token is never masked. */
  lemma MaskedPrompt(seqLen: nat, eos: int, s: Sample, i: nat)
    requires s.full != [] && Tokenize(seqLen, eos, s).Some? && i < |Tokenize(seqLen, eos, s).value|
    requires forall t | t in s.full :: t != IGNORE_INDEX
    requires eos != IGNORE_INDEX
    ensures |Tokenize(seqLen, eos, s).value| == |Closed(eos, s.full)| - 1
    ensures Tokenize(seqLen, eos, s).value[i].id == Closed(eos, s.full)[i]
    ensures Tokenize(seqLen, eos, s).value[i].lbl == IGNORE_INDEX <==> i + 1 < s.promptLen
    ensures i + 1 >= s.promptLen ==> Tokenize(seqLen, eos, s).value[i].lbl == Closed(eos, s.full)[i + 1]
  {
    var full := Closed(eos, s.full);
    assert full[i + 1] in s.full || full[i + 1] == eos;
    assert full[i + 1] != IGNORE_INDEX;
    assert i < MaskEnd(s.promptLen, |full| - 1) <==> i + 1 < s.promptLen;
    assert Tokenize(seqLen, eos, s).value[i] ==
      Target(full[i], if i < MaskEnd(s.promptLen, |full| - 1) then IGNORE_INDEX else full[i + 1]);
  }

  /** A dataset with every sample run through `_tokenize_sample`. */
  function Tokenised(seqLen: nat, eos: int, raw: Corpus<Sample>): (r: Corpus<Option<Doc>>)
    requires forall k | 0 <= k < |raw.samples| :: raw.samples[k].full != []
    ensures |r.samples| == |raw.samples| && r.order == raw.order
    ensures forall k | 0 <= k < |raw.samples| :: r.samples[k] == Tokenize(seqLen, eos, raw.samples[k])
  {
    Corpus(seq(|raw.samples|, k requires 0 <= k < |raw.samples| => Tokenize(seqLen, eos, raw.samples[k])), raw.order)
  }
}
