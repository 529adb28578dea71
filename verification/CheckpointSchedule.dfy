/** The save schedule, and how many steps a crash can cost. */
module CheckpointSchedule {
  import opened Arithmetic
  import opened CheckpointProtocol
  import opened CheckpointSafety

  /** Without the first-step checkpoint the loop saves at the multiples of the interval and at
      the last step; with it, at step 1 besides. */
  lemma ScheduleIs(interval: nat, trainingSteps: nat)
    requires interval >= 1
    ensures SaveSchedule(interval, false, trainingSteps) ==
      set m: nat | 1 <= m <= trainingSteps && (m % interval == 0 || m == trainingSteps)
    ensures trainingSteps >= 1 ==>
      SaveSchedule(interval, true, trainingSteps) == SaveSchedule(interval, false, trainingSteps) + {1}
    ensures SaveSchedule(interval, true, 0) == {}
  {
  }

  /** The last multiple of the interval up to `step`. */
  lemma LastMultiple(interval: nat, step: nat) returns (m: nat)
    requires interval >= 1
    ensures m <= step < m + interval && m % interval == 0
  {
    m := step - step % interval;
    assert step == interval * (step / interval) + step % interval;
    DivUnique(m, interval, step / interval, 0);
  }

  /** Any `interval` consecutive steps of the run hold a save. */
  lemma SaveInWindow(interval: nat, first: bool, trainingSteps: nat, from: nat) returns (m: nat)
    requires interval >= 1 && from + interval <= trainingSteps
    ensures from < m <= from + interval && m in SaveSchedule(interval, first, trainingSteps)
  {
    ScheduleIs(interval, trainingSteps);
    m := LastMultiple(interval, from + interval);
  }

  /** How many steps' worth of work a crash here would cost: the completed steps since the
      newest complete checkpoint. */
  function Completed(s: State): int {
    if s.trainer.phase.Computing? || s.trainer.phase.Updating? then s.trainer.step - 1 else s.trainer.step
  }

  function LostSteps(s: State): int {
    var l := FindLoadStep(s.disk);
    Completed(s) - if l >= 0 then l else 0
  }

  ghost predicate Training(s: State) {
    s.trainer.phase != Down && s.trainer.phase != Done
  }

  lemma GapShort(c: Config, interval: nat, first: bool, lo: nat, hi: nat)
    requires interval >= 1 && c.saves == SaveSchedule(interval, first, c.trainingSteps)
    requires hi <= c.trainingSteps && NoSaveWithin(c, lo, hi)
    ensures hi < lo + interval
  {
    if hi >= lo + interval {
      var m := SaveInWindow(interval, first, c.trainingSteps, lo);
      assert c.SavesAt(m);
    }
  }

  /** With its uploads done, a run that saves by the schedule loses fewer steps than the
      interval to a crash, and fewer than twice as many while an upload is under way. Just
      before a save its own step is at stake too. */
  lemma CrashCosts(c: Config, interval: nat, first: bool, s: State)
    requires c.Valid() && c.enabled && interval >= 1 && c.saves == SaveSchedule(interval, first, c.trainingSteps)
    requires Inv(c, s) && Training(s) && s.trainer.step <= c.trainingSteps
    ensures !Open(s.saver) ==> LostSteps(s) <= interval
    ensures !Open(s.saver) && s.trainer.phase != AtSave ==> LostSteps(s) < interval
    ensures LostSteps(s) <= 2 * interval
  {
    var l := FindLoadStep(s.disk);
    var from: nat := if l >= 0 then l else 0;
    var f := Frontier(s.disk, s.saver);
    var upto: nat := if f >= 0 then f else 0;
    var done: nat := if s.trainer.phase == AtSave then s.trainer.step - 1 else Completed(s);
    assert NoSaveWithin(c, upto, done) by {
      UpToNow(c, s);
    }
    GapShort(c, interval, first, upto, done);
    if Open(s.saver) {
      assert NoSaveWithin(c, from, f - 1);
      GapShort(c, interval, first, from, f - 1);
    }
  }

  lemma UpToNow(c: Config, s: State)
    requires c.Valid() && c.enabled && Inv(c, s) && Training(s)
    ensures var f := Frontier(s.disk, s.saver); var upto := if f >= 0 then f else 0;
      && 0 <= upto && NoSaveWithin(c, upto, if s.trainer.phase == AtSave then s.trainer.step - 1 else Completed(s))
  {
  }
}
