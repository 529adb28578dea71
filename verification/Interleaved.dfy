/** `InterleavedDataset`: a weighted random mix of several resumable sources. */
module Interleaving {
  import opened Wrappers

  /** What the mixer uses of a source: `next()` on its current iterator, `reloop()` followed
      by a new `iter()`, and its saved state. */
  datatype Source<!S(!new), !R, !D> = Source(
    initial: S, next: S -> (S, Option<R>), reloop: S -> S, save: S -> D, load: (S, D) -> S)

  datatype Strategy = OnFirstExhausted | AllExhausted

  /** `pick` is the weighted draw of the seeded generator. */
  datatype Config<!S(!new), !R, !D, !G(!new)> = Config(
    sources: seq<Source<S, R, D>>, pick: G -> (nat, G), strategy: Strategy)
  {
    ghost predicate Valid() {
      sources != [] && forall g :: pick(g).0 < |sources|
    }
  }

  datatype Mixer<S, G> = Mixer(rng: G, states: seq<S>, exhausted: seq<bool>, stopped: bool)

  ghost predicate WellFormed<S(!new), R, D, G(!new)>(c: Config<S, R, D, G>, m: Mixer<S, G>) {
    |m.states| == |m.exhausted| == |c.sources|
  }

  function Fresh<S(!new), R, D, G(!new)>(c: Config<S, R, D, G>, rng: G): (m: Mixer<S, G>)
    ensures WellFormed(c, m)
  {
    Mixer(rng, seq(|c.sources|, i requires 0 <= i < |c.sources| => c.sources[i].initial),
          seq(|c.sources|, _ => false), false)
  }

  /** What one pass of the `while True` does. */
  datatype Event<R> = Yield(source: nat, row: R) | Relooped(source: nat) | Drained(source: nat) | Over

  predicate All(flags: seq<bool>) {
    forall i | 0 <= i < |flags| :: flags[i]
  }

  function Round<S(!new), R, D, G(!new)>(c: Config<S, R, D, G>, m: Mixer<S, G>): (r: (Mixer<S, G>, Event<R>))
    requires c.Valid() && WellFormed(c, m)
    ensures WellFormed(c, r.0)
  {
    if m.stopped then (m, Over)
    else
      var (i, g) := c.pick(m.rng);
      var (s, out) := c.sources[i].next(m.states[i]);
      var drawn := m.(rng := g, states := m.states[i := s]);
      if out.Some? then (drawn, Yield(i, out.value))
      else if c.strategy == OnFirstExhausted then (drawn.(stopped := true), Drained(i))
      else
        var flags := m.exhausted[i := true];
        if All(flags) then (drawn.(exhausted := flags, stopped := true), Drained(i))
        else (drawn.(exhausted := flags, states := m.states[i := c.sources[i].reloop(s)]), Relooped(i))
  }

  /** The events of k passes, and the mixer after them. */
  function Run<S(!new), R, D, G(!new)>(c: Config<S, R, D, G>, m: Mixer<S, G>, k: nat): (r: seq<Event<R>>)
    requires c.Valid() && WellFormed(c, m)
    ensures |r| == k
    decreases k
  {
    if k == 0 then [] else [Round(c, m).1] + Run(c, Round(c, m).0, k - 1)
  }

  function Later<S(!new), R, D, G(!new)>(c: Config<S, R, D, G>, m: Mixer<S, G>, k: nat): (r: Mixer<S, G>)
    requires c.Valid() && WellFormed(c, m)
    ensures WellFormed(c, r)
    decreases k
  {
    if k == 0 then m else Later(c, Round(c, m).0, k - 1)
  }

  // ----- which source comes when -----

  /** The generator after k draws. */
  function RngAfter<S(!new), R, D, G(!new)>(c: Config<S, R, D, G>, rng: G, k: nat): G {
    if k == 0 then rng else RngAfter(c, c.pick(rng).1, k - 1)
  }

  function SourceOf<R>(e: Event<R>): nat
    requires !e.Over?
  {
    match e
    case Yield(i, _) => i
    case Relooped(i) => i
    case Drained(i) => i
  }

  /** As long as the mix goes on, each pass turns to the source of the next draw, one draw a
      pass whatever the sources answer. */
  lemma {:induction false} PassesFollowDraws<S(!new), R, D, G(!new)>(c: Config<S, R, D, G>, m: Mixer<S, G>, k: nat,
                                                                     j: nat)
    requires c.Valid() && WellFormed(c, m) && j < k && !Later(c, m, j).stopped
    ensures !Run(c, m, k)[j].Over? && SourceOf(Run(c, m, k)[j]) == c.pick(RngAfter(c, m.rng, j)).0
    decreases j
  {
    if j > 0 {
      if m.stopped {
        StaysStopped(c, m, j);
      } else {
        PassesFollowDraws(c, Round(c, m).0, k - 1, j - 1);
      }
    }
  }

  // ----- one source among the others -----

  /** The rows source i contributes. */
  function Of<R>(events: seq<Event<R>>, i: nat): seq<R> {
    if events == [] then []
    else (if events[0].Yield? && events[0].source == i then [events[0].row] else []) + Of(events[1..], i)
  }

  /** How often source i is drawn. */
  function Draws<R>(events: seq<Event<R>>, i: nat): nat {
    if events == [] then 0
    else (if !events[0].Over? && events[0].source == i then 1 else 0) + Draws(events[1..], i)
  }

  /** The source on its own, asked n times and re-looped whenever it runs out. */
  function Solo<S(!new), R, D>(src: Source<S, R, D>, s: S, n: nat): seq<R>
    decreases n
  {
    if n == 0 then []
    else
      var (t, out) := src.next(s);
      if out.Some? then [out.value] + Solo(src, t, n - 1) else Solo(src, src.reloop(t), n - 1)
  }

  lemma {:induction false} SoloGrows<S(!new), R, D>(src: Source<S, R, D>, s: S, n: nat, k: nat)
    requires n <= k
    ensures Solo(src, s, n) <= Solo(src, s, k)
    decreases n
  {
    if n > 0 {
      var (t, out) := src.next(s);
      SoloGrows(src, if out.Some? then t else src.reloop(t), n - 1, k - 1);
    }
  }

  lemma {:induction false} NoDrawsAfterStop<S(!new), R, D, G(!new)>(c: Config<S, R, D, G>, m: Mixer<S, G>, k: nat,
                                                                    i: nat)
    requires c.Valid() && WellFormed(c, m) && m.stopped
    ensures Of(Run(c, m, k), i) == [] && Draws(Run(c, m, k), i) == 0
    decreases k
  {
    if k > 0 {
      var rest := Run(c, Round(c, m).0, k - 1);
      assert Run(c, m, k)[1..] == rest;
      NoDrawsAfterStop(c, m, k - 1, i);
    }
  }

  /** Whatever the draws, the rows of one source are a prefix of its own re-looped stream:
      as many of it as it was drawn, independent of every other source. */
  lemma {:induction false} SourceStream<S(!new), R, D, G(!new)>(c: Config<S, R, D, G>, m: Mixer<S, G>, k: nat, i: nat)
    requires c.Valid() && WellFormed(c, m) && i < |c.sources| && !m.stopped
    ensures Of(Run(c, m, k), i) == Solo(c.sources[i], m.states[i], Draws(Run(c, m, k), i))
    decreases k
  {
    if k > 0 {
      var (t, e) := Round(c, m);
      var rest := Run(c, t, k - 1);
      assert Run(c, m, k) == [e] + rest && ([e] + rest)[1..] == rest;
      if t.stopped {
        NoDrawsAfterStop(c, t, k - 1, i);
      } else {
        SourceStream(c, t, k - 1, i);
      }
    }
  }

  lemma StreamPrefix<S(!new), R, D, G(!new)>(c: Config<S, R, D, G>, m: Mixer<S, G>, k: nat, n: nat, i: nat)
    requires c.Valid() && WellFormed(c, m) && i < |c.sources| && !m.stopped
    requires Draws(Run(c, m, k), i) <= n
    ensures Of(Run(c, m, k), i) <= Solo(c.sources[i], m.states[i], n)
  {
    SourceStream(c, m, k, i);
    SoloGrows(c.sources[i], m.states[i], Draws(Run(c, m, k), i), n);
  }

  // ----- when the mix ends -----

  /** Source i ran out at pass j. */
  ghost predicate RanOut<R>(events: seq<Event<R>>, i: nat) {
    exists j :: 0 <= j < |events| && (events[j] == Relooped(i) || events[j] == Drained(i))
  }

  lemma RanOutLater<R>(e: Event<R>, rest: seq<Event<R>>, i: nat)
    ensures RanOut([e] + rest, i) <==> e == Relooped(i) || e == Drained(i) || RanOut(rest, i)
  {
    var all := [e] + rest;
    assert all[0] == e;
    assert forall j | 0 <= j < |rest| :: all[j + 1] == rest[j];
    if RanOut(all, i) {
      var j :| 0 <= j < |all| && (all[j] == Relooped(i) || all[j] == Drained(i));
      assert j > 0 ==> all[j] == rest[j - 1];
    }
  }

  lemma {:induction false} FlagsMeanDrained<S(!new), R, D, G(!new)>(c: Config<S, R, D, G>, m: Mixer<S, G>, k: nat,
                                                                    i: nat)
    requires c.Valid() && WellFormed(c, m) && c.strategy == AllExhausted && i < |c.sources|
    ensures Later(c, m, k).exhausted[i] <==> m.exhausted[i] || RanOut(Run(c, m, k), i)
    decreases k
  {
    if k > 0 {
      var (t, e) := Round(c, m);
      FlagsMeanDrained(c, t, k - 1, i);
      RanOutLater(e, Run(c, t, k - 1), i);
    }
  }

  lemma {:induction false} StoppedHasAllFlags<S(!new), R, D, G(!new)>(c: Config<S, R, D, G>, m: Mixer<S, G>, k: nat)
    requires c.Valid() && WellFormed(c, m) && c.strategy == AllExhausted
    requires m.stopped <==> All(m.exhausted)
    ensures Later(c, m, k).stopped <==> All(Later(c, m, k).exhausted)
    decreases k
  {
    if k > 0 {
      StoppedHasAllFlags(c, Round(c, m).0, k - 1);
    }
  }

  /** `all_exhausted` stops exactly when every source has run out at least once. */
  lemma AllExhaustedStops<S(!new), R, D, G(!new)>(c: Config<S, R, D, G>, rng: G, k: nat)
    requires c.Valid() && c.strategy == AllExhausted
    ensures Later(c, Fresh(c, rng), k).stopped
      <==> forall i: nat | i < |c.sources| :: RanOut(Run(c, Fresh(c, rng), k), i)
  {
    var m := Fresh(c, rng);
    assert !m.exhausted[0];
    StoppedHasAllFlags(c, m, k);
    var flags := Later(c, m, k).exhausted;
    if All(flags) {
      forall i: nat | i < |c.sources|
        ensures RanOut(Run(c, m, k), i)
      {
        FlagsMeanDrained(c, m, k, i);
        assert flags[i];
      }
    } else {
      var i :| 0 <= i < |flags| && !flags[i];
      FlagsMeanDrained(c, m, k, i);
    }
  }

  /** `on_first_exhausted` stops exactly when some source has run out. */
  lemma {:induction false} FirstExhaustedStops<S(!new), R, D, G(!new)>(c: Config<S, R, D, G>, m: Mixer<S, G>, k: nat)
    requires c.Valid() && WellFormed(c, m) && c.strategy == OnFirstExhausted && !m.stopped
    ensures Later(c, m, k).stopped <==> exists i: nat :: RanOut(Run(c, m, k), i)
    decreases k
  {
    if k > 0 {
      var (t, e) := Round(c, m);
      var rest := Run(c, t, k - 1);
      forall i: nat
        ensures RanOut(Run(c, m, k), i) <==> e == Relooped(i) || e == Drained(i) || RanOut(rest, i)
      {
        RanOutLater(e, rest, i);
      }
      if t.stopped {
        assert RanOut(Run(c, m, k), e.source);
        StaysStopped(c, t, k - 1);
      } else {
        FirstExhaustedStops(c, t, k - 1);
      }
    }
  }

  lemma {:induction false} StaysStopped<S(!new), R, D, G(!new)>(c: Config<S, R, D, G>, m: Mixer<S, G>, k: nat)
    requires c.Valid() && WellFormed(c, m) && m.stopped
    ensures Later(c, m, k).stopped
    decreases k
  {
    if k > 0 {
      StaysStopped(c, m, k - 1);
    }
  }

  // ----- saving and resuming -----

  datatype Snapshot<D, G> = Snapshot(rng: G, sources: seq<D>)

  function StateDict<S(!new), R, D, G(!new)>(c: Config<S, R, D, G>, m: Mixer<S, G>): Snapshot<D, G>
    requires WellFormed(c, m)
  {
    Snapshot(m.rng, seq(|c.sources|, i requires 0 <= i < |c.sources| => c.sources[i].save(m.states[i])))
  }

  function LoadStateDict<S(!new), R, D, G(!new)>(c: Config<S, R, D, G>, sd: Snapshot<D, G>): (m: Mixer<S, G>)
    requires |sd.sources| == |c.sources|
    ensures WellFormed(c, m)
  {
    Mixer(sd.rng,
          seq(|c.sources|, i requires 0 <= i < |c.sources| => c.sources[i].load(c.sources[i].initial, sd.sources[i])),
          seq(|c.sources|, _ => false), false)
  }

  /** The next n answers of a source. */
  function Answers<S(!new), R, D>(src: Source<S, R, D>, s: S, n: nat): (r: seq<Option<R>>)
    ensures |r| == n
    decreases n
  {
    if n == 0 then [] else [src.next(s).1] + Answers(src, src.next(s).0, n - 1)
  }

  ghost predicate SameAnswers<S(!new), R, D>(src: Source<S, R, D>, s: S, t: S) {
    forall n: nat :: Answers(src, s, n) == Answers(src, t, n)
  }

  /** Loading a fresh source with the state of s gives the answers of s. */
  ghost predicate ResumesExactly<S(!new), R, D>(src: Source<S, R, D>, s: S) {
    SameAnswers(src, src.load(src.initial, src.save(s)), s)
  }

  lemma SameAfterOne<S(!new), R, D>(src: Source<S, R, D>, s: S, t: S)
    requires SameAnswers(src, s, t)
    ensures src.next(s).1 == src.next(t).1 && SameAnswers(src, src.next(s).0, src.next(t).0)
  {
    assert Answers(src, s, 1)[0] == Answers(src, t, 1)[0];
    forall n: nat
      ensures Answers(src, src.next(s).0, n) == Answers(src, src.next(t).0, n)
    {
      assert Answers(src, s, n + 1)[1..] == Answers(src, src.next(s).0, n);
      assert Answers(src, t, n + 1)[1..] == Answers(src, src.next(t).0, n);
    }
  }

  ghost predicate Alike<S(!new), R, D, G(!new)>(c: Config<S, R, D, G>, m: Mixer<S, G>, n: Mixer<S, G>)
    requires WellFormed(c, m) && WellFormed(c, n)
  {
    && m.rng == n.rng && m.stopped == n.stopped
    && forall i | 0 <= i < |c.sources| :: SameAnswers(c.sources[i], m.states[i], n.states[i])
  }

  lemma {:induction false} AlikeRuns<S(!new), R, D, G(!new)>(c: Config<S, R, D, G>, m: Mixer<S, G>, n: Mixer<S, G>,
                                                             k: nat)
    requires c.Valid() && WellFormed(c, m) && WellFormed(c, n) && Alike(c, m, n)
    requires c.strategy == OnFirstExhausted
    ensures Run(c, m, k) == Run(c, n, k)
    decreases k
  {
    if k > 0 && !m.stopped {
      var i := c.pick(m.rng).0;
      SameAfterOne(c.sources[i], m.states[i], n.states[i]);
      AlikeRuns(c, Round(c, m).0, Round(c, n).0, k - 1);
    } else if k > 0 {
      AlikeRuns(c, m, n, k - 1);
    }
  }

  /** `on_first_exhausted`: a snapshot of a running mixer resumes to the very same events
      whenever each source's own resume is exact. */
  lemma ResumeExact<S(!new), R, D, G(!new)>(c: Config<S, R, D, G>, m: Mixer<S, G>, k: nat)
    requires c.Valid() && WellFormed(c, m) && c.strategy == OnFirstExhausted && !m.stopped
    requires forall i | 0 <= i < |c.sources| :: ResumesExactly(c.sources[i], m.states[i])
    ensures Run(c, LoadStateDict(c, StateDict(c, m)), k) == Run(c, m, k)
  {
    AlikeRuns(c, LoadStateDict(c, StateDict(c, m)), m, k);
  }
}
