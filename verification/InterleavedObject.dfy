/** The `InterleavedDataset` object, and the mix of text sources it is used for. */
module InterleavedObjects {
  import opened Interleaving
  import opened TokenStreams
  import opened Wrappers
  import T = TextDatasets

  class InterleavedDataset<S(!new), R, D, G(!new)> {
    const config: Config<S, R, D, G>
    var rng: G
    var states: seq<S>
    var exhausted: seq<bool>
    var stopped: bool

    ghost predicate Valid()
      reads this
    {
      config.Valid() && WellFormed(config, View())
    }

    ghost function View(): Mixer<S, G>
      reads this
    {
      Mixer(rng, states, exhausted, stopped)
    }

    constructor (c: Config<S, R, D, G>, seeded: G)
      requires c.Valid()
      ensures Valid() && config == c && View() == Fresh(c, seeded)
    {
      config := c;
      rng := seeded;
      states := seq(|c.sources|, i requires 0 <= i < |c.sources| => c.sources[i].initial);
      exhausted := seq(|c.sources|, _ => false);
      stopped := false;
    }

    method AllFlags() returns (r: bool)
      ensures r == All(exhausted)
    {
      for i := 0 to |exhausted|
        invariant forall j | 0 <= j < i :: exhausted[j]
      {
        if !exhausted[i] {
          return false;
        }
      }
      return true;
    }

    /** One pass of the endless loop in `__iter__`. */
    method OnePass() returns (e: Event<R>)
      requires Valid()
      modifies this
      ensures Valid() && (View(), e) == Round(config, old(View()))
    {
      if stopped {
        return Over;
      }
      var (idx, g) := config.pick(rng);
      rng := g;
      var (s, out) := config.sources[idx].next(states[idx]);
      states := states[idx := s];
      if out.Some? {
        return Yield(idx, out.value);
      }
      if config.strategy == OnFirstExhausted {
        stopped := true;
        return Drained(idx);
      }
      exhausted := exhausted[idx := true];
      var all := AllFlags();
      if all {
        stopped := true;
        return Drained(idx);
      }
      states := states[idx := config.sources[idx].reloop(s)];
      assert states == old(states)[idx := config.sources[idx].reloop(s)];
      return Relooped(idx);
    }
  }

  // ----- text sources -----

  type TextMixSource = Source<T.Text, seq<Tok>, T.Snapshot>

  ghost predicate InBounds(c: T.Config, s: T.Text) {
    s.sampleIdx <= |c.corpus.samples| && s.dataEpoch == s.epoch
  }

  /** The source answers, saves and loads as `HuggingFaceTextDataset` does. */
  ghost predicate IsText(c: T.Config, src: TextMixSource)
    requires c.Valid()
  {
    && src.initial == T.FRESH
    && (forall s | InBounds(c, s) :: src.next(s) == T.Next(c, s))
    && (forall s :: src.load(src.initial, src.save(s)) == T.Resumed(s))
  }

  ghost function TextSource(c: T.Config): (r: TextMixSource)
    requires c.Valid()
    ensures IsText(c, r)
  {
    Source(T.FRESH,
           (s: T.Text) => if InBounds(c, s) then T.Next(c, s) else (s, None),
           (s: T.Text) => T.Reloop(s).(pc := T.Start),
           (s: T.Text) => T.StateDict(s),
           (obj: T.Text, sd: T.Snapshot) => T.LoadStateDict(obj, sd))
  }

  function RowOrEnd(rows: seq<seq<Tok>>, n: nat): (r: seq<Option<seq<Tok>>>)
    ensures |r| == n
  {
    seq(n, i => if 0 <= i < |rows| then Some(rows[i]) else None)
  }

  lemma RowOrEndStep(rows: seq<seq<Tok>>, n: nat)
    ensures rows != [] && n > 0 ==> RowOrEnd(rows, n) == [Some(rows[0])] + RowOrEnd(rows[1..], n - 1)
    ensures rows == [] && n > 0 ==> RowOrEnd(rows, n) == [None] + RowOrEnd([], n - 1)
  {
  }

  lemma AnswersStep(c: T.Config, src: TextMixSource, s: T.Text, n: nat)
    requires c.Valid() && IsText(c, src) && InBounds(c, s) && n > 0
    ensures Answers(src, s, n) == [T.Next(c, s).1] + Answers(src, T.Next(c, s).0, n - 1)
  {
  }

  lemma RowsStep(c: T.Config, s: T.Text, n: nat)
    requires c.Valid() && InBounds(c, s) && n > 0
    ensures InBounds(c, T.Next(c, s).0)
    ensures match T.Next(c, s).1
      case None => T.Rows(c, s, n) == [] && T.Rows(c, T.Next(c, s).0, n - 1) == []
      case Some(r) => T.Rows(c, s, n) == [r] + T.Rows(c, T.Next(c, s).0, n - 1)
  {
    T.NextInBounds(c, s);
    if T.Next(c, s).1.None? && s.pc != T.Stopped {
      var j := T.NextReads(c, s);
    }
  }

  lemma {:induction false} AnswersAreRows(c: T.Config, src: TextMixSource, s: T.Text, n: nat)
    requires c.Valid() && IsText(c, src) && InBounds(c, s)
    ensures Answers(src, s, n) == RowOrEnd(T.Rows(c, s, n), n)
    decreases n
  {
    if n > 0 {
      RowsStep(c, s, n);
      AnswersStep(c, src, s, n);
      AnswersAreRows(c, src, T.Next(c, s).0, n - 1);
      RowOrEndStep(T.Rows(c, s, n), n);
    }
  }

  /** Where a text dataset's own resume is exact. */
  ghost predicate TextResumes(c: T.Config, s: T.Text)
    requires c.Valid()
  {
    && T.WellFormed(c, s) && s.pc != T.Stopped
    && (c.infinite || s.sampleIdx < |c.corpus.samples| || |s.buffer| < c.BlockLen() || s.pc == T.Start)
  }

  lemma TextRowsResume(c: T.Config, s: T.Text, n: nat)
    requires c.Valid() && TextResumes(c, s)
    ensures T.Rows(c, T.Resumed(s), n) == T.Rows(c, s, n)
  {
    if c.infinite {
      T.ResumeExactInfinite(c, s, n);
    } else {
      T.ResumeExactFiniteIff(c, s);
    }
  }

  lemma TextResumesExactly(c: T.Config, src: TextMixSource, s: T.Text)
    requires c.Valid() && IsText(c, src) && TextResumes(c, s)
    ensures ResumesExactly(src, s)
  {
    forall n: nat
      ensures Answers(src, T.Resumed(s), n) == Answers(src, s, n)
    {
      TextRowsResume(c, s, n);
      AnswersAreRows(c, src, s, n);
      AnswersAreRows(c, src, T.Resumed(s), n);
    }
  }

  /** A mix of text datasets resumes exactly when none of them is past its last sample with
      full rows still buffered; re-looping ones never are. */
  lemma TextMixResumes<G(!new)>(c: Config<T.Text, seq<Tok>, T.Snapshot, G>, texts: seq<T.Config>,
                                m: Mixer<T.Text, G>, k: nat)
    requires c.Valid() && c.strategy == OnFirstExhausted && WellFormed(c, m) && !m.stopped
    requires |texts| == |c.sources| && forall i | 0 <= i < |texts| :: texts[i].Valid()
    requires forall i | 0 <= i < |texts| :: IsText(texts[i], c.sources[i])
    requires forall i | 0 <= i < |texts| :: TextResumes(texts[i], m.states[i])
    ensures Run(c, LoadStateDict(c, StateDict(c, m)), k) == Run(c, m, k)
  {
    forall i | 0 <= i < |c.sources|
      ensures ResumesExactly(c.sources[i], m.states[i])
    {
      TextResumesExactly(texts[i], c.sources[i], m.states[i]);
    }
    ResumeExact(c, m, k);
  }
}
