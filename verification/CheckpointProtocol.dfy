/** The checkpoint protocol as a step relation: the trainer, the background stager and
    uploader, and the purge thread share one folder, and the process may crash between
    any two steps and start again from the folder it left behind. */
module CheckpointProtocol {
  import opened Wrappers
  import opened StepSets

  /** One rank's part of the saved state; its bytes do not matter here. */
  type Tensor(==, 0, !new)

  datatype AsyncMode = Disabled | Async | AsyncWithPinnedMem

  /** `_should_save` for an enabled manager that is not load-only. */
  predicate ShouldSave(interval: nat, enableFirstStep: bool, step: nat, lastStep: bool)
    requires interval >= 1
  {
    || (step == 1 && enableFirstStep)
    || lastStep
    || step % interval == 0
  }

  /** What the train loop asks at each step. */
  predicate LoopSaves(interval: nat, enableFirstStep: bool, trainingSteps: nat, step: nat)
    requires interval >= 1
  {
    ShouldSave(interval, enableFirstStep, step, step == trainingSteps)
  }

  /** The steps at which the train loop saves. */
  function SaveSchedule(interval: nat, enableFirstStep: bool, trainingSteps: nat): set<nat>
    requires interval >= 1
  {
    set step: nat | 1 <= step <= trainingSteps && LoopSaves(interval, enableFirstStep, trainingSteps, step)
  }

  /** The state to save is `shards` pieces, the model's first; the others are the optimizer,
      the learning-rate schedule, the data position and the train state with the step. `saves`
      is the save schedule; the protocol is safe for any schedule. */
  datatype Config = Config(
    enabled: bool, mode: AsyncMode, keepLatestK: nat, trainingSteps: nat,
    modelShards: nat, otherShards: nat, lastModelOnly: bool, saves: set<nat>)
  {
    const shards: nat := modelShards + otherShards

    /** `keep_latest_k` may be 0 (keep everything) but not 1; the train state is always there,
        and a manager that is switched off never saves. */
    predicate Valid() {
      keepLatestK != 1 && otherShards > 0 && (!enabled ==> saves == {})
    }

    /** How many shards the save of a step writes: the last step, and the seed checkpoint of
        step 0, go through `_save_last_step`. */
    function Written(step: nat): nat {
      if lastModelOnly && (step == trainingSteps || step == 0) then modelShards else shards
    }

    /** How many shards `load` asks of a step's directory. */
    function Needed(step: nat): nat {
      if step == 0 then modelShards else shards
    }

    predicate SavesAt(step: nat) {
      1 <= step <= trainingSteps && step in saves
    }

    /** The save of this step runs to completion before the trainer goes on. */
    predicate Blocking(step: nat) {
      mode == Disabled || step == trainingSteps
    }
  }

  /** A step directory: the shard files written so far and the metadata file that
      the writer adds last. */
  datatype Dir = Dir(shards: map<nat, Tensor>, metadata: bool)

  type Folder = map<nat, Dir>

  function CompleteSteps(disk: Folder): (r: set<nat>)
    ensures forall s :: s in r <==> s in disk && disk[s].metadata
  {
    set s | s in disk && disk[s].metadata
  }

  /** `_find_load_step`: the largest step whose directory holds metadata, or -1. */
  function FindLoadStep(disk: Folder): (r: int)
    ensures r >= -1
    ensures r >= 0 ==> r in disk && disk[r].metadata
    ensures forall s | s in disk && disk[s].metadata :: s <= r
  {
    Largest(CompleteSteps(disk))
  }

  /** The step whose directory a starting process loads, or -1. */
  function LoadedStep(c: Config, disk: Folder): int {
    if c.enabled then FindLoadStep(disk) else -1
  }

  /** One dispatched save. `staged` is the host copy, `uploaded` the shard files on disk. */
  datatype Job = Job(step: nat, staged: map<nat, Tensor>, uploaded: set<nat>, committed: bool)

  datatype Phase =
    | Down                        // no process
    | Ready                       // top of the train loop
    | Computing                   // forward and backward
    | Updating(next: nat)         // inside the optimizer step
    | AtSave                      // about to call save
    | Saving                      // inside dcp_save
    | Purging                     // putting stale directories on the purge queue
    | Done

  datatype Trainer = Trainer(phase: Phase, step: nat, params: seq<Tensor>)

  /** Every save dispatched by this process, and the two futures the manager holds
      (as indices into `jobs`). */
  datatype Saver = Saver(jobs: seq<Job>, stagingFuture: Option<nat>, saveFuture: Option<nat>)

  /** Whether a purge was listed and no deletion failed since; and if so, whether another
      save has begun since that listing. */
  datatype Sweep = NotSwept | Listed | SaveSince

  /** `pending`: stale directories listed but not yet put on the queue. */
  datatype Purger = Purger(pending: seq<nat>, queue: seq<nat>, purging: Option<nat>, swept: Sweep)

  /** `history` records the parameters at the end of each step. */
  datatype State = State(disk: Folder, history: map<nat, seq<Tensor>>, trainer: Trainer, saver: Saver, purger: Purger)

  const IDLE_SAVER := Saver([], None, None)
  const IDLE_PURGER := Purger([], [], None, NotSwept)

  predicate AllStaged(c: Config, j: Job) {
    forall i | 0 <= i < c.Written(j.step) :: i in j.staged
  }

  predicate AllUploaded(c: Config, j: Job) {
    forall i | 0 <= i < c.Written(j.step) :: i in j.uploaded
  }

  function LastJob(sv: Saver): Job
    requires |sv.jobs| > 0
  {
    sv.jobs[|sv.jobs| - 1]
  }

  /** A future is clear, or its job got far enough for `result()` to return. */
  predicate StagingResolved(c: Config, sv: Saver) {
    sv.stagingFuture.Some? ==>
      sv.stagingFuture.value < |sv.jobs| && AllStaged(c, sv.jobs[sv.stagingFuture.value])
  }

  predicate SavingResolved(sv: Saver) {
    sv.saveFuture.Some? ==>
      sv.saveFuture.value < |sv.jobs| && sv.jobs[sv.saveFuture.value].committed
  }

  // ----- the trainer -----

  /** A process starts with the parameters `init`: what `load` asks for comes from the
      directory, which must hold it; the rest is as initialised. */
  ghost predicate Load(c: Config, s: State, init: seq<Tensor>, t: State) {
    var l := LoadedStep(c, s.disk);
    && s.trainer.phase == Down
    && |init| == c.shards
    && (l >= 0 ==> forall i | 0 <= i < c.Needed(l) :: i in s.disk[l].shards && init[i] == s.disk[l].shards[i])
    && t == State(s.disk, s.history, Trainer(Ready, if l >= 0 then l else 0, init), IDLE_SAVER, IDLE_PURGER)
  }

  ghost predicate BeginStep(c: Config, s: State, t: State) {
    && s.trainer.phase == Ready && s.trainer.step < c.trainingSteps
    && t == s.(trainer := s.trainer.(phase := Computing, step := s.trainer.step + 1))
  }

  /** The loop ends, or the data runs out in the middle of a step. */
  ghost predicate Finish(c: Config, s: State, t: State) {
    && (s.trainer.phase == Computing || (s.trainer.phase == Ready && s.trainer.step >= c.trainingSteps))
    && t == s.(trainer := s.trainer.(phase := Done))
  }

  /** `maybe_wait_for_staging`, just before the optimizer step. */
  ghost predicate WaitForStaging(c: Config, s: State, t: State) {
    && s.trainer.phase == Computing && StagingResolved(c, s.saver)
    && t == s.(trainer := s.trainer.(phase := Updating(0)), saver := s.saver.(stagingFuture := None))
  }

  ghost predicate UpdateShard(s: State, v: Tensor, t: State) {
    && s.trainer.phase.Updating? && s.trainer.phase.next < |s.trainer.params|
    && var i := s.trainer.phase.next;
    && t == s.(trainer := s.trainer.(phase := Updating(i + 1), params := s.trainer.params[i := v]))
  }

  ghost predicate EndUpdate(s: State, t: State) {
    && s.trainer.phase == Updating(|s.trainer.params|)
    && t == s.(trainer := s.trainer.(phase := AtSave), history := s.history[s.trainer.step := s.trainer.params])
  }

  ghost predicate SkipSave(c: Config, s: State, t: State) {
    && s.trainer.phase == AtSave && s.trainer.step !in c.saves
    && t == s.(trainer := s.trainer.(phase := Ready))
  }

  /** `maybe_wait_for_saving`, first thing in a save. */
  ghost predicate WaitForSaving(c: Config, s: State, t: State) {
    && s.trainer.phase == AtSave && s.trainer.step in c.saves && SavingResolved(s.saver)
    && t == s.(saver := s.saver.(saveFuture := None))
  }

  /** The dispatch of a save. */
  ghost predicate BeginSave(c: Config, s: State, t: State) {
    && s.trainer.phase == AtSave && s.trainer.step in c.saves && s.saver.saveFuture.None?
    && t == s.(trainer := s.trainer.(phase := Saving),
               saver := s.saver.(jobs := s.saver.jobs + [Job(s.trainer.step, map[], {}, false)]),
               purger := s.purger.(swept := AfterSaveBegins(s.purger.swept)))
  }

  function AfterSaveBegins(swept: Sweep): Sweep {
    if swept == Listed then SaveSince else NotSwept
  }

  /** When dcp_save hands control back to the trainer. */
  predicate SaveReturns(c: Config, step: nat, j: Job) {
    if c.Blocking(step) then j.committed
    else c.mode == Async ==> AllStaged(c, j)
  }

  function SaverAfterDispatch(c: Config, step: nat, sv: Saver): Saver
    requires |sv.jobs| > 0
  {
    if c.Blocking(step) then sv
    else sv.(saveFuture := Some(|sv.jobs| - 1),
             stagingFuture := if c.mode == AsyncWithPinnedMem then Some(|sv.jobs| - 1) else sv.stagingFuture)
  }

  /** The final save returns without purging. */
  predicate Purges(c: Config, step: nat) {
    step != c.trainingSteps && c.keepLatestK > 0
  }

  ghost predicate EndSave(c: Config, s: State, t: State) {
    && s.trainer.phase == Saving && |s.saver.jobs| > 0 && SaveReturns(c, s.trainer.step, LastJob(s.saver))
    && t == s.(saver := SaverAfterDispatch(c, s.trainer.step, s.saver),
               trainer := s.trainer.(phase := if Purges(c, s.trainer.step) then Purging else Ready),
               purger := if Purges(c, s.trainer.step)
                         then s.purger.(pending := DropLargest(s.disk.Keys, c.keepLatestK), swept := Listed)
                         else s.purger)
  }

  ghost predicate Enqueue(s: State, t: State) {
    && s.trainer.phase == Purging && |s.purger.pending| > 0
    && t == s.(purger := s.purger.(queue := s.purger.queue + [s.purger.pending[0]], pending := s.purger.pending[1..]))
  }

  ghost predicate EndPurge(s: State, t: State) {
    && s.trainer.phase == Purging && s.purger.pending == []
    && t == s.(trainer := s.trainer.(phase := Ready))
  }

  // ----- the background stager and uploader -----

  /** Copies shard i of the live parameters, whatever they are at this moment. */
  ghost predicate Stage(c: Config, s: State, j: nat, i: nat, t: State) {
    && s.trainer.phase != Down && j < |s.saver.jobs| && i < |s.trainer.params|
    && var job := s.saver.jobs[j];
    && i < c.Written(job.step) && i !in job.staged
    && t == s.(saver := s.saver.(jobs := s.saver.jobs[j := job.(staged := job.staged[i := s.trainer.params[i]])]))
  }

  ghost predicate MakeDir(s: State, j: nat, t: State) {
    && s.trainer.phase != Down && j < |s.saver.jobs| && !s.saver.jobs[j].committed
    && s.saver.jobs[j].step !in s.disk
    && t == s.(disk := s.disk[s.saver.jobs[j].step := Dir(map[], false)])
  }

  ghost predicate Upload(s: State, j: nat, i: nat, t: State) {
    && s.trainer.phase != Down && j < |s.saver.jobs|
    && var job := s.saver.jobs[j];
    && !job.committed && i in job.staged && job.step in s.disk
    && var d := s.disk[job.step];
    && t == s.(disk := s.disk[job.step := d.(shards := d.shards[i := job.staged[i]])],
               saver := s.saver.(jobs := s.saver.jobs[j := job.(uploaded := job.uploaded + {i})]))
  }

  ghost predicate Commit(c: Config, s: State, j: nat, t: State) {
    && s.trainer.phase != Down && j < |s.saver.jobs|
    && var job := s.saver.jobs[j];
    && !job.committed && AllUploaded(c, job) && job.step in s.disk
    && t == s.(disk := s.disk[job.step := s.disk[job.step].(metadata := true)],
               saver := s.saver.(jobs := s.saver.jobs[j := job.(committed := true)]))
  }

  // ----- the purge thread: one path at a time, its files in any order -----

  ghost predicate TakePurge(s: State, t: State) {
    && s.trainer.phase != Down && s.purger.purging.None? && |s.purger.queue| > 0
    && t == s.(purger := s.purger.(purging := Some(s.purger.queue[0]), queue := s.purger.queue[1..]))
  }

  ghost predicate RemoveFile(s: State, d: Dir, t: State) {
    && s.trainer.phase != Down && s.purger.purging.Some? && s.purger.purging.value in s.disk
    && var was := s.disk[s.purger.purging.value];
    && d.shards.Keys <= was.shards.Keys && d.shards == (map i | i in d.shards && i in was.shards :: was.shards[i])
    && (d.metadata ==> was.metadata)
    && t == s.(disk := s.disk[s.purger.purging.value := d])
  }

  ghost predicate RemoveDir(s: State, t: State) {
    && s.trainer.phase != Down && s.purger.purging.Some?
    && (s.purger.purging.value in s.disk ==> s.disk[s.purger.purging.value] == Dir(map[], false))
    && t == s.(disk := s.disk - {s.purger.purging.value}, purger := s.purger.(purging := None))
  }

  /** A failed deletion is logged and skipped. */
  ghost predicate FailPurge(s: State, t: State) {
    && s.trainer.phase != Down && s.purger.purging.Some?
    && t == s.(purger := s.purger.(purging := None, swept := NotSwept))
  }

  /** Everything in memory is lost; the folder stays as it is. */
  ghost predicate Crash(s: State, t: State) {
    && s.trainer.phase != Down
    && t == State(s.disk, s.history, Trainer(Down, 0, []), IDLE_SAVER, IDLE_PURGER)
  }

  // ----- runs -----

  ghost predicate TrainerStep(c: Config, s: State, t: State)
  {
    || (exists init :: Load(c, s, init, t))
    || BeginStep(c, s, t) || Finish(c, s, t) || WaitForStaging(c, s, t)
    || (exists v :: UpdateShard(s, v, t))
    || EndUpdate(s, t) || SkipSave(c, s, t) || WaitForSaving(c, s, t) || BeginSave(c, s, t) || EndSave(c, s, t)
    || Enqueue(s, t) || EndPurge(s, t)
  }

  ghost predicate UploaderStep(c: Config, s: State, t: State) {
    || (exists j, i :: Stage(c, s, j, i, t))
    || (exists j :: MakeDir(s, j, t))
    || (exists j, i :: Upload(s, j, i, t))
    || (exists j :: Commit(c, s, j, t))
  }

  ghost predicate PurgerStep(s: State, t: State) {
    TakePurge(s, t) || (exists d :: RemoveFile(s, d, t)) || RemoveDir(s, t) || FailPurge(s, t)
  }

  ghost predicate Next(c: Config, s: State, t: State)
  {
    TrainerStep(c, s, t) || UploaderStep(c, s, t) || PurgerStep(s, t) || Crash(s, t)
  }

  ghost predicate IsRun(c: Config, run: seq<State>)
  {
    |run| > 0 && forall i, j | 0 <= i < j < |run| && j == i + 1 :: Next(c, run[i], run[j])
  }

  /** Some run leads from s to t. */
  ghost predicate Reaches(c: Config, s: State, t: State)
  {
    exists run :: IsRun(c, run) && run[0] == s && run[|run| - 1] == t
  }

  // ----- the invariant -----

  ghost predicate NoSaveWithin(c: Config, lo: int, hi: int)
  {
    forall m: nat | lo < m <= hi :: !c.SavesAt(m)
  }

  ghost predicate IsNextSave(c: Config, from: int, n: nat)
  {
    from < n && c.SavesAt(n) && NoSaveWithin(c, from, n - 1)
  }

  /** Step `l` is complete: metadata and every shard that its save writes are there, and the
      shards are the parameters of step `l`. */
  ghost predicate Intact(c: Config, disk: Folder, history: map<nat, seq<Tensor>>, l: nat) {
    && l in disk && disk[l].metadata
    && l in history && |history[l]| == c.shards
    && forall i | 0 <= i < c.Written(l) :: i in disk[l].shards && disk[l].shards[i] == history[l][i]
  }

  /** Directories above the newest complete one leave room for it among the k kept at
      the next purge. A blocking save is complete when its purge runs; an asynchronous
      one may still be unfinished then, so it needs a place too. */
  ghost predicate Room(c: Config, disk: Folder)
  {
    c.keepLatestK > 0 ==>
      forall n: nat | IsNextSave(c, FindLoadStep(disk), n) && n != c.trainingSteps :: RoomFor(c, disk, n)
  }

  predicate RoomFor(c: Config, disk: Folder, n: nat) {
    if c.mode == Disabled
    then |Above(disk.Keys, n)| < c.keepLatestK
    else |Above(disk.Keys, FindLoadStep(disk)) - {n}| + 1 < c.keepLatestK
  }

  ghost predicate FolderInv(c: Config, disk: Folder, history: map<nat, seq<Tensor>>)
  {
    && (LoadedStep(c, disk) >= 0 ==> Intact(c, disk, history, LoadedStep(c, disk)))
    && Room(c, disk)
  }

  predicate Open(sv: Saver) {
    |sv.jobs| > 0 && !LastJob(sv).committed
  }

  /** The step of the newest save, finished or not. */
  function Frontier(disk: Folder, sv: Saver): int {
    if Open(sv) then LastJob(sv).step else FindLoadStep(disk)
  }

  /** At most the last job is unfinished; the futures, when set, track it. */
  predicate JobsInv(c: Config, sv: Saver) {
    && (forall i | 0 <= i < |sv.jobs| - 1 :: sv.jobs[i].committed)
    && (forall i | 0 <= i < |sv.jobs| && sv.jobs[i].committed :: AllStaged(c, sv.jobs[i]))
    && (sv.saveFuture.Some? ==> |sv.jobs| > 0 && sv.saveFuture.value == |sv.jobs| - 1 && c.mode != Disabled)
    && (sv.stagingFuture.Some? ==>
          |sv.jobs| > 0 && sv.stagingFuture.value == |sv.jobs| - 1 && c.mode == AsyncWithPinnedMem)
  }

  /** What is staged is the parameters of the job's own step, and while something is
      still to be staged the parameters have not moved. */
  ghost predicate SnapshotInv(c: Config, tr: Trainer, sv: Saver, history: map<nat, seq<Tensor>>) {
    |sv.jobs| > 0 ==>
      var j := LastJob(sv);
      && j.step in history && |history[j.step]| == c.shards
      && (if tr.phase.Computing? || tr.phase.Updating? || tr.phase == AtSave
          then j.step < tr.step else j.step <= tr.step)
      && (forall i | i in j.staged :: i < c.shards && j.staged[i] == history[j.step][i])
      && (AllStaged(c, j) ||
          (tr.params == history[j.step] && !tr.phase.Updating? && tr.phase != AtSave &&
           (tr.phase == Saving || sv.stagingFuture.Some?)))
  }

  /** No directory and no host copy holds more than its save writes. */
  ghost predicate Sized(c: Config, s: State) {
    && (forall d, i | d in s.disk && i in s.disk[d].shards :: i < c.Written(d))
    && forall j, i | 0 <= j < |s.saver.jobs| && i in s.saver.jobs[j].staged :: i < c.Written(s.saver.jobs[j].step)
  }

  ghost predicate OpenInv(c: Config, disk: Folder, tr: Trainer, sv: Saver, history: map<nat, seq<Tensor>>)
  {
    Open(sv) ==>
      var j := LastJob(sv);
      && j.step in history && |history[j.step]| == c.shards
      && IsNextSave(c, FindLoadStep(disk), j.step)
      && (tr.phase != Saving ==> sv.saveFuture.Some? && !c.Blocking(j.step))
      && forall i | i in j.uploaded ::
           i < c.shards && i in j.staged &&
           j.step in disk && i in disk[j.step].shards && disk[j.step].shards[i] == history[j.step][i]
  }

  /** Where the trainer stands relative to the newest save. */
  ghost predicate PhaseInv(c: Config, disk: Folder, tr: Trainer, sv: Saver, history: map<nat, seq<Tensor>>)
  {
    var f := Frontier(disk, sv);
    && |tr.params| == c.shards
    && (tr.phase == Ready ==> (c.enabled ==> f <= tr.step) && NoSaveWithin(c, f, tr.step))
    && (tr.phase.Computing? || tr.phase.Updating? || tr.phase == AtSave ==>
          (c.enabled ==> f < tr.step) && 1 <= tr.step <= c.trainingSteps && NoSaveWithin(c, f, tr.step - 1))
    && (tr.phase.Updating? || tr.phase == AtSave || tr.phase == Saving ==> sv.stagingFuture.None?)
    && (tr.phase == AtSave ==> tr.step in history && history[tr.step] == tr.params)
    && (tr.phase == Saving || tr.phase == Purging ==> f == tr.step)
    && (tr.phase == Saving ==>
          && c.SavesAt(tr.step) && |sv.jobs| > 0 && LastJob(sv).step == tr.step
          && (!Open(sv) && Purges(c, tr.step) ==> |Above(disk.Keys, tr.step)| < c.keepLatestK))
  }

  /** Directories whose deletion is decided but not finished. */
  function Doomed(p: Purger): (r: set<nat>)
    ensures forall d :: d in r <==> d in p.queue || d in p.pending || p.purging == Some(d)
  {
    (set d | d in p.queue) + (set d | d in p.pending) + (if p.purging.Some? then {p.purging.value} else {})
  }

  predicate PurgeInv(disk: Folder, p: Purger) {
    forall d | d in Doomed(p) :: d < FindLoadStep(disk)
  }

  /** Directories that survive the purge, without the one being written. */
  function Survivors(dirs: set<nat>, sv: Saver, p: Purger): (r: set<nat>)
    ensures forall d :: d in r <==> d in dirs && d !in Doomed(p) && (|sv.jobs| > 0 ==> d != LastJob(sv).step)
  {
    set d | d in dirs && d !in Doomed(p) && (|sv.jobs| > 0 ==> d != LastJob(sv).step)
  }

  /** How many directories a listed purge leaves besides the one being written: k, and one
      more once the next save has begun. */
  function Allowance(c: Config, swept: Sweep): nat {
    c.keepLatestK + if swept == SaveSince then 1 else 0
  }

  predicate CountInv(c: Config, dirs: set<nat>, sv: Saver, p: Purger) {
    p.swept != NotSwept ==> |Survivors(dirs, sv, p)| <= Allowance(c, p.swept)
  }

  /** Only the final save goes unlisted, so no second save begins since a listing. */
  predicate SweepInv(c: Config, tr: Trainer, p: Purger) {
    && (p.swept != NotSwept ==> c.keepLatestK > 0)
    && (p.swept == SaveSince ==>
          tr.phase == Saving || (tr.step >= c.trainingSteps && (tr.phase == Ready || tr.phase == Done)))
  }

  ghost predicate Inv(c: Config, s: State)
  {
    && FolderInv(c, s.disk, s.history)
    && CountInv(c, s.disk.Keys, s.saver, s.purger)
    && if s.trainer.phase == Down then s.saver == IDLE_SAVER && s.purger == IDLE_PURGER
       else
         && JobsInv(c, s.saver)
         && SnapshotInv(c, s.trainer, s.saver, s.history)
         && OpenInv(c, s.disk, s.trainer, s.saver, s.history)
         && PhaseInv(c, s.disk, s.trainer, s.saver, s.history)
         && PurgeInv(s.disk, s.purger)
         && SweepInv(c, s.trainer, s.purger)
  }
}
