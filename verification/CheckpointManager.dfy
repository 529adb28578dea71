/** The manager object. Its methods run one actor at a time; each is shown to be a path of
    the step relation, so everything proved for all interleavings holds for it. */
module CheckpointManagers {
  import opened Wrappers
  import opened StepSets
  import opened CheckpointProtocol
  import opened CheckpointSafety
  import opened CheckpointRoom

  datatype RuntimeError = UnexpectedStagingFuture | UnexpectedSaveFuture

  /** What `load` asks for is not in the checkpoint. */
  datatype LoadError = MissingShard(step: nat, shard: nat)

  // What the invariant says about the newest step, the futures and the last job.

  lemma NewestInHistory(c: Config, o: State, s: State)
    requires c.Valid() && FreshStart(c, o) && Reaches(c, o, s) && LoadedStep(c, s.disk) >= 0
    ensures FindLoadStep(s.disk) in s.history && |s.history[FindLoadStep(s.disk)]| == c.shards
  {
    FreshStartInv(c, o);
    ReachesKeeps(c, o, s);
  }

  lemma StagingFutureFacts(c: Config, o: State, s: State)
    requires c.Valid() && FreshStart(c, o) && Reaches(c, o, s) && s.trainer.phase != Down
    ensures s.saver.stagingFuture.Some? ==>
      s.saver.stagingFuture.value == |s.saver.jobs| - 1 >= 0 && c.mode == AsyncWithPinnedMem
    ensures |s.trainer.params| == c.shards
  {
    FreshStartInv(c, o);
    ReachesKeeps(c, o, s);
  }

  lemma SaveFutureFacts(c: Config, o: State, s: State)
    requires c.Valid() && FreshStart(c, o) && Reaches(c, o, s) && s.trainer.phase != Down
    ensures s.saver.saveFuture.Some? ==> s.saver.saveFuture.value == |s.saver.jobs| - 1 >= 0 && c.mode != Disabled
    ensures forall m | 0 <= m < |s.saver.jobs| && !s.saver.jobs[m].committed ::
      m == |s.saver.jobs| - 1 && (s.trainer.phase != Saving ==> s.saver.saveFuture.Some?)
  {
    FreshStartInv(c, o);
    ReachesKeeps(c, o, s);
  }

  lemma StagedWhenUpdating(c: Config, o: State, s: State, m: nat)
    requires c.Valid() && FreshStart(c, o) && Reaches(c, o, s)
    requires s.trainer.phase.Updating? || s.trainer.phase == AtSave
    requires m < |s.saver.jobs|
    ensures AllStaged(c, s.saver.jobs[m])
  {
    FreshStartInv(c, o);
    ReachesKeeps(c, o, s);
  }

  lemma CommitLoads(c: Config, o: State, s: State, j: nat, t: State)
    requires c.Valid() && FreshStart(c, o) && Reaches(c, o, s) && Commit(c, s, j, t)
    ensures FindLoadStep(t.disk) == s.saver.jobs[j].step
    ensures Intact(c, t.disk, t.history, s.saver.jobs[j].step)
  {
    FreshStartInv(c, o);
    ReachesKeeps(c, o, s);
    var job := s.saver.jobs[j];
    CompleteNext(c, s.disk, s.history, job.step, t.disk[job.step]);
  }

  /** What a stopped process finds: everything `load` asks for, unless the newest step was
      saved last and without it. */
  lemma LoadFacts(c: Config, o: State, s: State, i: nat)
    requires c.Valid() && FreshStart(c, o) && Reaches(c, o, s) && LoadedStep(c, s.disk) >= 0
    requires i < c.Needed(FindLoadStep(s.disk))
    ensures var l := FindLoadStep(s.disk);
      && l in s.history && |s.history[l]| == c.shards
      && (i in s.disk[l].shards <==> i < c.Written(l))
      && (i < c.Written(l) ==> s.disk[l].shards[i] == s.history[l][i])
  {
    FreshStartInv(c, o);
    ReachesKeeps(c, o, s);
    ReachesSized(c, o, s);
  }

  /** Where a starting process stands, and with what: all that `load` asks for is the newest
      complete step's, the rest is as initialised. */
  function StartStep(c: Config, disk: Folder): nat {
    if LoadedStep(c, disk) >= 0 then LoadedStep(c, disk) else 0
  }

  function LoadedParams(c: Config, disk: Folder, history: map<nat, seq<Tensor>>, init: seq<Tensor>): seq<Tensor> {
    var l := LoadedStep(c, disk);
    if l >= 0 && l in history && |history[l]| == |init|
    then seq(|init|, i requires 0 <= i < |init| => if i < c.Needed(l) then history[l][i] else init[i])
    else init
  }

  /** The seed run: `save(0, last_step=True)` on an empty folder, and exit. What it leaves is a
      start for any later run. */
  method SeedCheckpoint(config: Config, loadOnly: bool, params: seq<Tensor>) returns (saved: bool, folder: Folder)
    requires config.Valid() && config.enabled && |params| == config.shards
    ensures saved == !loadOnly
    ensures FreshStart(config, State(folder, map[0 := params], Trainer(Down, 0, []), IDLE_SAVER, IDLE_PURGER))
    ensures FindLoadStep(folder) == if saved then 0 else -1
    ensures saved ==> folder.Keys == {0} && forall i: nat :: i in folder[0].shards <==> i < config.Written(0)
  {
    folder, saved := map[], !loadOnly;
    if saved {
      folder := map[0 := Dir(map[], false)];
      for i := 0 to config.Written(0)
        invariant folder.Keys == {0} && !folder[0].metadata
        invariant forall m: nat :: m in folder[0].shards <==> m < i
        invariant forall m | 0 <= m < i :: folder[0].shards[m] == params[m]
      {
        folder := map[0 := Dir(folder[0].shards[i := params[i]], false)];
      }
      folder := map[0 := Dir(folder[0].shards, true)];
      LoadStepIs(folder, 0);
    }
  }

  class CheckpointManager {
    const loadOnly: bool
    const interval: nat
    const enableFirstStep: bool
    const config: Config
    ghost const origin: State         // the folder of the very first run

    var disk: Folder                  // self.folder on storage
    var params: seq<Tensor>           // the live model, optimizer and train state
    var jobs: seq<Job>                // every save dispatched so far
    var stagingFuture: Option<nat>
    var saveFuture: Option<nat>
    var purgeQueue: seq<nat>
    var purging: Option<nat>          // what the purge thread is deleting
    var step: nat                     // the trainer's step counter
    ghost var phase: Phase            // where the trainer is
    ghost var pending: seq<nat>
    ghost var swept: Sweep
    ghost var history: map<nat, seq<Tensor>>

    ghost function View(): State
      reads this
    {
      State(disk, history, Trainer(phase, step, params),
            Saver(jobs, stagingFuture, saveFuture), Purger(pending, purgeQueue, purging, swept))
    }

    /** The state is one that runs of this configuration reach. */
    ghost predicate Built()
      reads this
    {
      && interval >= 1 && config.Valid()
      && config.saves == (if Saves() then SaveSchedule(interval, enableFirstStep, config.trainingSteps) else {})
      && FreshStart(config, origin) && Reaches(config, origin, View())
      && (!config.enabled ==> jobs == [] && stagingFuture == None && saveFuture == None)
      && (phase == Down ==> View().saver == IDLE_SAVER && View().purger == IDLE_PURGER)
    }

    /** And the process is up: `load` has been called. */
    ghost predicate Valid()
      reads this
    {
      Built() && phase != Down
    }

    predicate Saves() {
      config.enabled && !loadOnly
    }

    /** A process starts on whatever folder earlier runs left. */
    constructor (loadOnly: bool, interval: nat, enableFirstStep: bool, config: Config,
                 folder: Folder, ghost past: map<nat, seq<Tensor>>, ghost origin: State)
      requires interval >= 1 && config.Valid() && FreshStart(config, origin)
      requires config.saves ==
        if config.enabled && !loadOnly then SaveSchedule(interval, enableFirstStep, config.trainingSteps) else {}
      requires Reaches(config, origin, State(folder, past, Trainer(Down, 0, []), IDLE_SAVER, IDLE_PURGER))
      ensures Built() && View() == State(folder, past, Trainer(Down, 0, []), IDLE_SAVER, IDLE_PURGER)
      ensures this.config == config && this.interval == interval && this.enableFirstStep == enableFirstStep
      ensures this.loadOnly == loadOnly
    {
      this.loadOnly, this.interval, this.enableFirstStep, this.config := loadOnly, interval, enableFirstStep, config;
      disk, params, jobs, stagingFuture, saveFuture := folder, [], [], None, None;
      purgeQueue, purging, pending, swept := [], None, [], NotSwept;
      phase, history, step := Down, past, 0;
      this.origin := origin;
    }

    // ----- load -----

    /** `load` of the newest complete step into parameters initialised to `init`. It raises
        exactly when that step was saved as the last one without all that is asked for;
        otherwise the parameters are that step's: the model's at step 0, all from step 1 on. */
    method Load(init: seq<Tensor>) returns (r: Result<bool, LoadError>)
      requires Built() && phase == Down && |init| == config.shards
      modifies this`params, this`step, this`phase
      ensures var l := FindLoadStep(disk);
        r.Err? <==> config.enabled && l > 0 && l == config.trainingSteps && config.lastModelOnly
      ensures r.Err? ==> View() == old(View())
      ensures r.Ok? ==> Valid() && phase == Ready && Reaches(config, old(View()), View())
      ensures r.Ok? ==> r.value == (LoadedStep(config, disk) >= 0)
      ensures r == Ok(true) ==> var l := FindLoadStep(disk);
        && step == l && l in history && |history[l]| == config.shards
        && params == LoadedParams(config, disk, history, init)
        && (l > 0 ==> params == history[l])
      ensures r.Ok? ==> step == StartStep(config, disk) && params == LoadedParams(config, disk, history, init)
    {
      var l := LoadedStep(config, disk);
      if l == -1 {
        Start(0, init);
        return Ok(false);
      }
      var loaded := ReadShards(l, init);
      if loaded.Err? {
        return Err(loaded.error);
      }
      ghost var needed := config.Needed(l);
      assert needed > 0 ==> needed - 1 < config.Written(l) by {
        if needed > 0 {
          LoadFacts(config, origin, View(), needed - 1);
        }
      }
      Start(l, loaded.value);
      return Ok(true);
    }

    /** The shards asked of step l, read from its directory over `init`. */
    method ReadShards(l: nat, init: seq<Tensor>) returns (r: Result<seq<Tensor>, LoadError>)
      requires Built() && LoadedStep(config, disk) == l && |init| == config.shards
      ensures r.Err? <==> config.Needed(l) > config.Written(l)
      ensures r.Ok? ==> l in history && |r.value| == |history[l]| == config.shards
      ensures r.Ok? ==> forall i | 0 <= i < config.Needed(l) ::
        i in disk[l].shards && r.value[i] == disk[l].shards[i] == history[l][i]
      ensures r.Ok? ==> forall i | config.Needed(l) <= i < config.shards :: r.value[i] == init[i]
    {
      var loaded := init;
      NewestInHistory(config, origin, View());
      for i := 0 to config.Needed(l)
        invariant |loaded| == config.shards && i <= config.Written(l)
        invariant forall m | 0 <= m < i :: m in disk[l].shards && loaded[m] == disk[l].shards[m] == history[l][m]
        invariant forall m | i <= m < config.shards :: loaded[m] == init[m]
      {
        LoadFacts(config, origin, View(), i);
        if i !in disk[l].shards {
          return Err(MissingShard(l, i));
        }
        loaded := loaded[i := disk[l].shards[i]];
      }
      return Ok(loaded);
    }

    /** The process is at the top of its loop. */
    method Start(from: nat, loaded: seq<Tensor>)
      requires Built() && phase == Down && |loaded| == config.shards
      requires from == if LoadedStep(config, disk) >= 0 then LoadedStep(config, disk) else 0
      requires LoadedStep(config, disk) >= 0 ==>
        forall i | 0 <= i < config.Needed(from) :: i in disk[from].shards && loaded[i] == disk[from].shards[i]
      modifies this`params, this`step, this`phase
      ensures Valid() && phase == Ready && Reaches(config, old(View()), View())
      ensures step == from && params == loaded
    {
      ghost var down := View();
      phase, step, params := Ready, from, loaded;
      assert CheckpointProtocol.Load(config, down, loaded, View());
      ReachesSelf(config, down);
      ReachesThen(config, down, down, View());
      ReachesJoin(config, origin, down, View());
    }

    // ----- the futures -----

    static predicate SameButProgress(a: seq<Job>, b: seq<Job>, j: nat) {
      j < |a| == |b| && a[j].step == b[j].step && forall m | 0 <= m < |a| && m != j :: a[m] == b[m]
    }

    /** `staging_future.result()`: the stager copies what is still missing. */
    method AwaitStaging(j: nat)
      requires Valid() && j < |jobs|
      modifies this`jobs
      ensures Valid() && Reaches(config, old(View()), View())
      ensures SameButProgress(old(jobs), jobs, j) && AllStaged(config, jobs[j])
      ensures jobs[j].committed == old(jobs)[j].committed
    {
      StagingFutureFacts(config, origin, View());
      StageShards(j);
      ReachesJoin(config, origin, old(View()), View());
    }

    method StageShards(j: nat)
      requires phase != Down && j < |jobs| && |params| == config.shards
      modifies this`jobs
      ensures Reaches(config, old(View()), View())
      ensures SameButProgress(old(jobs), jobs, j) && AllStaged(config, jobs[j])
      ensures jobs[j].committed == old(jobs)[j].committed
    {
      ReachesSelf(config, View());
      for i := 0 to config.Written(jobs[j].step)
        invariant Reaches(config, old(View()), View())
        invariant SameButProgress(old(jobs), jobs, j) && jobs[j].committed == old(jobs)[j].committed
        invariant forall m | 0 <= m < i :: m in jobs[j].staged
      {
        StageShard(j, i, old(View()));
      }
    }

    method StageShard(j: nat, i: nat, ghost from: State)
      requires phase != Down && j < |jobs| && |params| == config.shards && i < config.Written(jobs[j].step)
      requires Reaches(config, from, View())
      modifies this`jobs
      ensures Reaches(config, from, View())
      ensures |jobs| == |old(jobs)| && forall m | 0 <= m < |jobs| && m != j :: jobs[m] == old(jobs)[m]
      ensures jobs[j] == if i in old(jobs)[j].staged then old(jobs)[j]
                         else old(jobs)[j].(staged := old(jobs)[j].staged[i := params[i]])
    {
      if i !in jobs[j].staged {
        jobs := jobs[j := jobs[j].(staged := jobs[j].staged[i := params[i]])];
        assert Stage(config, old(View()), j, i, View());
        ReachesThen(config, from, old(View()), View());
      }
    }

    method MakeStepDir(j: nat)
      requires Valid() && j < |jobs| && !jobs[j].committed
      modifies this`disk
      ensures Valid() && Reaches(config, old(View()), View())
      ensures jobs[j].step in disk && disk.Keys == old(disk).Keys + {jobs[j].step}
    {
      ReachesSelf(config, View());
      if jobs[j].step !in disk {
        disk := disk[jobs[j].step := Dir(map[], false)];
        assert MakeDir(old(View()), j, View());
        ReachesThen(config, old(View()), old(View()), View());
      }
      ReachesJoin(config, origin, old(View()), View());
    }

    method UploadShard(j: nat, i: nat, ghost from: State)
      requires phase != Down && j < |jobs| && !jobs[j].committed && i in jobs[j].staged && jobs[j].step in disk
      requires Reaches(config, from, View())
      modifies this`jobs, this`disk
      ensures Reaches(config, from, View())
      ensures SameButProgress(old(jobs), jobs, j) && disk.Keys == old(disk).Keys
      ensures jobs[j] == old(jobs)[j].(uploaded := old(jobs)[j].uploaded + {i})
    {
      var job := jobs[j];
      disk := disk[job.step := disk[job.step].(shards := disk[job.step].shards[i := job.staged[i]])];
      jobs := jobs[j := job.(uploaded := job.uploaded + {i})];
      assert Upload(old(View()), j, i, View());
      ReachesThen(config, from, old(View()), View());
    }

    /** The uploader writes the shard files of an open, fully staged job. */
    method UploadShards(j: nat)
      requires Valid() && j < |jobs| && !jobs[j].committed && AllStaged(config, jobs[j]) && jobs[j].step in disk
      modifies this`jobs, this`disk
      ensures Valid() && Reaches(config, old(View()), View())
      ensures SameButProgress(old(jobs), jobs, j) && !jobs[j].committed && AllUploaded(config, jobs[j])
      ensures disk.Keys == old(disk).Keys
    {
      WriteShards(j);
      ReachesJoin(config, origin, old(View()), View());
    }

    method WriteShards(j: nat)
      requires phase != Down && j < |jobs| && !jobs[j].committed && AllStaged(config, jobs[j]) && jobs[j].step in disk
      modifies this`jobs, this`disk
      ensures Reaches(config, old(View()), View())
      ensures SameButProgress(old(jobs), jobs, j) && !jobs[j].committed && disk.Keys == old(disk).Keys
      ensures AllUploaded(config, jobs[j])
    {
      ghost var was := View();
      var n := config.Written(jobs[j].step);
      ReachesSelf(config, was);
      for i := 0 to n
        invariant Reaches(config, was, View())
        invariant SameButProgress(was.saver.jobs, jobs, j) && disk.Keys == was.disk.Keys
        invariant jobs[j] == was.saver.jobs[j].(uploaded := jobs[j].uploaded)
        invariant forall m | 0 <= m < i :: m in jobs[j].uploaded
      {
        UploadShard(j, i, was);
      }
    }

    method WriteMetadata(j: nat)
      requires Valid() && j < |jobs| && !jobs[j].committed && AllUploaded(config, jobs[j]) && jobs[j].step in disk
      modifies this`jobs, this`disk
      ensures Valid() && Reaches(config, old(View()), View())
      ensures SameButProgress(old(jobs), jobs, j) && jobs[j].committed && disk.Keys == old(disk).Keys
      ensures FindLoadStep(disk) == jobs[j].step && Intact(config, disk, history, jobs[j].step)
    {
      SealDir(j);
      CommitLoads(config, origin, old(View()), j, View());
      ReachesSelf(config, old(View()));
      assert Commit(config, old(View()), j, View());
      ReachesThen(config, old(View()), old(View()), View());
      ReachesJoin(config, origin, old(View()), View());
    }

    method SealDir(j: nat)
      requires phase != Down && j < |jobs| && !jobs[j].committed && AllUploaded(config, jobs[j]) && jobs[j].step in disk
      modifies this`jobs, this`disk
      ensures Commit(config, old(View()), j, View())
      ensures SameButProgress(old(jobs), jobs, j) && jobs[j].committed && disk.Keys == old(disk).Keys
    {
      disk := disk[jobs[j].step := disk[jobs[j].step].(metadata := true)];
      jobs := jobs[j := jobs[j].(committed := true)];
    }

    /** `save_future.result()`: the uploader writes every shard, then the metadata. It is
        never stuck: the directory it writes is not one the purge removes. */
    method AwaitUpload(j: nat)
      requires Valid() && j < |jobs|
      modifies this`jobs, this`disk
      ensures Valid() && Reaches(config, old(View()), View())
      ensures SameButProgress(old(jobs), jobs, j) && jobs[j].committed
      ensures old(jobs)[j].committed ==> disk == old(disk)
      ensures !old(jobs)[j].committed ==>
        FindLoadStep(disk) == jobs[j].step && disk.Keys == old(disk).Keys + {jobs[j].step} &&
        Intact(config, disk, history, jobs[j].step)
    {
      ReachesSelf(config, View());
      if !jobs[j].committed {
        AwaitStaging(j);
        ghost var s1 := View();
        MakeStepDir(j);
        ghost var s2 := View();
        ReachesJoin(config, old(View()), s1, s2);
        UploadShards(j);
        ghost var s3 := View();
        ReachesJoin(config, old(View()), s2, s3);
        WriteMetadata(j);
        ReachesJoin(config, old(View()), s3, View());
      }
    }

    /** `maybe_wait_for_staging`, called before the optimizer step. */
    method MaybeWaitForStaging() returns (r: Result<(), RuntimeError>)
      requires Valid() && phase == Computing
      modifies this`jobs, this`stagingFuture, this`phase
      ensures r.Ok? && Valid() && Reaches(config, old(View()), View())
      ensures phase == Updating(0) && stagingFuture == None && |jobs| == |old(jobs)|
      ensures forall m | 0 <= m < |jobs| :: AllStaged(config, jobs[m])
    {
      ReachesSelf(config, View());
      StagingFutureFacts(config, origin, View());
      if config.enabled && stagingFuture.Some? {
        if config.mode != AsyncWithPinnedMem {
          return Err(UnexpectedStagingFuture);
        }
        AwaitStaging(stagingFuture.value);
      }
      ghost var was := View();
      stagingFuture := None;
      phase := Updating(0);
      assert WaitForStaging(config, was, View());
      ReachesThen(config, old(View()), was, View());
      ReachesJoin(config, origin, old(View()), View());
      forall m | 0 <= m < |jobs|
        ensures AllStaged(config, jobs[m])
      {
        StagedWhenUpdating(config, origin, View(), m);
      }
      r := Ok(());
    }

    /** `maybe_wait_for_saving`, called first in a save. */
    method MaybeWaitForSaving() returns (r: Result<(), RuntimeError>)
      requires Valid() && phase == AtSave && step in config.saves
      modifies this`jobs, this`disk, this`saveFuture
      ensures r.Ok? && Valid() && Reaches(config, old(View()), View())
      ensures saveFuture == None && |jobs| == |old(jobs)|
      ensures forall m | 0 <= m < |jobs| :: jobs[m].committed
    {
      ReachesSelf(config, View());
      SaveFutureFacts(config, origin, View());
      if config.enabled && saveFuture.Some? {
        if config.mode == Disabled {
          return Err(UnexpectedSaveFuture);
        }
        AwaitUpload(saveFuture.value);
      }
      ghost var was := View();
      saveFuture := None;
      assert WaitForSaving(config, was, View());
      ReachesThen(config, old(View()), was, View());
      ReachesJoin(config, origin, old(View()), View());
      SaveFutureFacts(config, origin, View());
      r := Ok(());
    }

    // ----- save -----

    /** `_purge_stale_checkpoints`: list, sort, drop the last k, queue the rest. */
    method PurgeStaleCheckpoints()
      requires Valid() && phase == Purging && config.keepLatestK > 0
      requires pending == DropLargest(disk.Keys, config.keepLatestK)
      modifies this`purgeQueue, this`phase, this`pending
      ensures Valid() && Reaches(config, old(View()), View()) && phase == Ready && pending == []
      ensures purgeQueue == old(purgeQueue) + DropLargest(disk.Keys, config.keepLatestK)
      ensures forall i, j | |old(purgeQueue)| <= i < j < |purgeQueue| :: purgeQueue[i] < purgeQueue[j]
    {
      var discovered := Sorted(disk.Keys);
      var toDelete := SliceTo(discovered, -1 * config.keepLatestK);
      DropLargestIsSlice(disk.Keys, config.keepLatestK);
      forall i, j | 0 <= i < j < |toDelete|
        ensures toDelete[i] < toDelete[j]
      {
        DropLargestAscends(disk.Keys, config.keepLatestK, i, j);
      }
      QueueAll(toDelete);
      ReachesJoin(config, origin, old(View()), View());
    }

    method QueueAll(toDelete: seq<nat>)
      requires phase == Purging && pending == toDelete
      modifies this`purgeQueue, this`phase, this`pending
      ensures Reaches(config, old(View()), View()) && phase == Ready && pending == []
      ensures purgeQueue == old(purgeQueue) + toDelete
    {
      ReachesSelf(config, View());
      for i := 0 to |toDelete|
        invariant Reaches(config, old(View()), View()) && phase == Purging
        invariant pending == toDelete[i..] && purgeQueue == old(purgeQueue) + toDelete[..i]
      {
        Queue(toDelete[i], old(View()));
      }
      ghost var was := View();
      phase := Ready;
      assert EndPurge(was, View());
      ReachesThen(config, old(View()), was, View());
    }

    method Queue(d: nat, ghost from: State)
      requires phase == Purging && |pending| > 0 && pending[0] == d && Reaches(config, from, View())
      modifies this`purgeQueue, this`pending
      ensures Reaches(config, from, View())
      ensures pending == old(pending)[1..] && purgeQueue == old(purgeQueue) + [d]
    {
      purgeQueue, pending := purgeQueue + [d], pending[1..];
      assert Enqueue(old(View()), View());
      ReachesThen(config, from, old(View()), View());
    }

    /** `dcp_save` starts a job. */
    method StartJob(currStep: nat)
      requires Valid() && phase == AtSave && currStep == step && step in config.saves && saveFuture == None
      modifies this`phase, this`jobs, this`swept
      ensures Valid() && Reaches(config, old(View()), View())
      ensures phase == Saving && jobs == old(jobs) + [Job(currStep, map[], {}, false)]
      ensures swept == AfterSaveBegins(old(swept))
    {
      jobs := jobs + [Job(currStep, map[], {}, false)];
      phase, swept := Saving, AfterSaveBegins(swept);
      ReachesSelf(config, old(View()));
      assert BeginSave(config, old(View()), View());
      ReachesThen(config, old(View()), old(View()), View());
      ReachesJoin(config, origin, old(View()), View());
    }

    /** The three ways `dcp_save` gives control back: after the upload, after staging, or
        at once. */
    method DcpSave(currStep: nat)
      requires Valid() && phase == AtSave && currStep == step && step in config.saves && saveFuture == None
      modifies this`phase, this`jobs, this`swept, this`disk
      ensures Valid() && Reaches(config, old(View()), View()) && phase == Saving
      ensures |jobs| == |old(jobs)| + 1 && jobs[|jobs| - 1].step == currStep
      ensures SaveReturns(config, currStep, jobs[|jobs| - 1])
      ensures forall m | 0 <= m < |old(jobs)| :: jobs[m] == old(jobs)[m]
      ensures if config.Blocking(currStep) then FindLoadStep(disk) ==
        currStep && Intact(config, disk, history, currStep)
              else disk == old(disk)
    {
      StartJob(currStep);
      ghost var s1 := View();
      if config.Blocking(currStep) {
        AwaitUpload(|jobs| - 1);
        ReachesJoin(config, old(View()), s1, View());
      } else if config.mode == Async {
        AwaitStaging(|jobs| - 1);
        ReachesJoin(config, old(View()), s1, View());
      }
    }

    /** The futures are recorded and, unless this was the last step, the purge is listed. */
    method RecordFutures(currStep: nat)
      requires Valid() && phase == Saving && currStep == step && config.enabled
      requires |jobs| > 0 && SaveReturns(config, currStep, jobs[|jobs| - 1])
      modifies this`phase, this`stagingFuture, this`saveFuture, this`pending, this`swept
      ensures Valid() && Reaches(config, old(View()), View())
      ensures phase == if Purges(config, currStep) then Purging else Ready
      ensures Purges(config, currStep) ==> pending == DropLargest(disk.Keys, config.keepLatestK) && swept == Listed
      ensures !Purges(config, currStep) ==> pending == old(pending)
      ensures saveFuture == if config.Blocking(currStep) then old(saveFuture) else Some(|jobs| - 1)
      ensures stagingFuture == if !config.Blocking(currStep) && config.mode == AsyncWithPinnedMem
                               then Some(|jobs| - 1) else old(stagingFuture)
    {
      if !config.Blocking(currStep) {
        if config.mode == AsyncWithPinnedMem {
          stagingFuture := Some(|jobs| - 1);
        }
        saveFuture := Some(|jobs| - 1);
      }
      phase := Ready;
      if Purges(config, currStep) {
        pending, swept, phase := DropLargest(disk.Keys, config.keepLatestK), Listed, Purging;
      }
      ReachesSelf(config, old(View()));
      assert EndSave(config, old(View()), View());
      ReachesThen(config, old(View()), old(View()), View());
      ReachesJoin(config, origin, old(View()), View());
    }

    method Skip()
      requires Valid() && phase == AtSave && step !in config.saves
      modifies this`phase
      ensures Valid() && Reaches(config, old(View()), View()) && phase == Ready
    {
      phase := Ready;
      ReachesSelf(config, old(View()));
      assert SkipSave(config, old(View()), View());
      ReachesThen(config, old(View()), old(View()), View());
      ReachesJoin(config, origin, old(View()), View());
    }

    /** The body of `save` once it is decided to save. */
    method SaveNow(currStep: nat, lastStep: bool)
      requires Valid() && phase == AtSave && currStep == step && step in config.saves && config.enabled
      requires lastStep == (currStep == config.trainingSteps)
      modifies this
      ensures Valid() && Reaches(config, old(View()), View()) && phase == Ready
      ensures step == old(step) && params == old(params) && history == old(history)
      ensures |jobs| == |old(jobs)| + 1 && jobs[|jobs| - 1].step == currStep
      ensures saveFuture == if config.Blocking(currStep) then None else Some(|jobs| - 1)
      ensures purgeQueue ==
        old(purgeQueue) + if Purges(config, currStep) then DropLargest(disk.Keys, config.keepLatestK) else []
      ensures config.Blocking(currStep) ==> FindLoadStep(disk) == currStep && Intact(config, disk, history, currStep)
    {
      WaitAndDispatch(currStep);
      ghost var s1 := View();
      RecordAndPurge(currStep, lastStep);
      ReachesJoin(config, old(View()), s1, View());
    }

    method WaitAndDispatch(currStep: nat)
      requires Valid() && phase == AtSave && currStep == step && step in config.saves && config.enabled
      modifies this`phase, this`jobs, this`swept, this`disk, this`saveFuture
      ensures Valid() && Reaches(config, old(View()), View()) && phase == Saving && saveFuture == None
      ensures |jobs| == |old(jobs)| + 1 && jobs[|jobs| - 1].step == currStep
      ensures SaveReturns(config, currStep, jobs[|jobs| - 1])
      ensures config.Blocking(currStep) ==> FindLoadStep(disk) == currStep && Intact(config, disk, history, currStep)
    {
      var r := MaybeWaitForSaving();
      ghost var s1 := View();
      DcpSave(currStep);
      ReachesJoin(config, old(View()), s1, View());
    }

    method RecordAndPurge(currStep: nat, lastStep: bool)
      requires Valid() && phase == Saving && currStep == step && config.enabled && saveFuture == None
      requires lastStep == (currStep == config.trainingSteps)
      requires |jobs| > 0 && SaveReturns(config, currStep, jobs[|jobs| - 1])
      modifies this`phase, this`stagingFuture, this`saveFuture, this`pending, this`swept, this`purgeQueue
      ensures Valid() && Reaches(config, old(View()), View()) && phase == Ready
      ensures saveFuture == if config.Blocking(currStep) then None else Some(|jobs| - 1)
      ensures purgeQueue ==
        old(purgeQueue) + if Purges(config, currStep) then DropLargest(disk.Keys, config.keepLatestK) else []
    {
      RecordFutures(currStep);
      if !lastStep && config.keepLatestK > 0 {
        ghost var s1 := View();
        PurgeStaleCheckpoints();
        ReachesJoin(config, old(View()), s1, View());
      }
    }

    /** `save`. It returns whether a checkpoint was written or staged; a blocking save has
        made this step the newest complete one. */
    method Save(currStep: nat, lastStep: bool) returns (saved: bool)
      requires Valid() && phase == AtSave && currStep == step && 1 <= step <= config.trainingSteps
      requires lastStep == (currStep == config.trainingSteps)
      modifies this
      ensures Valid() && Reaches(config, old(View()), View()) && phase == Ready
      ensures step == old(step) && params == old(params) && history == old(history)
      ensures saved ==> config.enabled && !loadOnly
      ensures config.enabled && !loadOnly ==>
        (saved <==> currStep % interval == 0 || currStep == config.trainingSteps || (currStep == 1 && enableFirstStep))
      ensures !saved ==> disk == old(disk) && jobs == old(jobs) && purgeQueue == old(purgeQueue) &&
                         saveFuture == old(saveFuture) && stagingFuture == old(stagingFuture)
      ensures saved ==> |jobs| == |old(jobs)| + 1 && jobs[|jobs| - 1].step == currStep
      ensures saved ==> saveFuture == if config.Blocking(currStep) then None else Some(|jobs| - 1)
      ensures saved ==>
        purgeQueue == old(purgeQueue) +
          (if Purges(config, currStep) then DropLargest(disk.Keys, config.keepLatestK) else [])
      ensures saved && config.Blocking(currStep) ==>
        FindLoadStep(disk) == currStep && Intact(config, disk, history, currStep)
    {
      saved := Saves() && ShouldSave(interval, enableFirstStep, currStep, lastStep);
      assert saved <==> currStep in config.saves by {
        assert LoopSaves(interval, enableFirstStep, config.trainingSteps, currStep)
          == ShouldSave(interval, enableFirstStep, currStep, lastStep);
      }
      if saved {
        SaveNow(currStep, lastStep);
      } else {
        Skip();
      }
    }

    // ----- the train loop -----

    method UpdateParams(updated: seq<Tensor>)
      requires phase == Updating(0) && |updated| == |params|
      modifies this`params, this`phase
      ensures Reaches(config, old(View()), View())
      ensures phase == Updating(|params|) && params == updated
    {
      ReachesSelf(config, View());
      for i := 0 to |updated|
        invariant Reaches(config, old(View()), View())
        invariant phase == Updating(i) && |params| == |updated|
        invariant forall m | 0 <= m < i :: params[m] == updated[m]
      {
        ghost var was := View();
        params := params[i := updated[i]];
        phase := Updating(i + 1);
        assert UpdateShard(was, updated[i], View());
        ReachesThen(config, old(View()), was, View());
      }
    }

    /** The optimizer step leaves `updated` in the parameters. */
    method OptimizerStep(updated: seq<Tensor>)
      requires Valid() && phase == Updating(0) && |updated| == |params|
      modifies this`params, this`phase, this`history
      ensures Valid() && Reaches(config, old(View()), View())
      ensures phase == AtSave && params == updated && history == old(history)[step := updated]
    {
      UpdateParams(updated);
      ghost var was := View();
      history := history[step := params];
      phase := AtSave;
      assert EndUpdate(was, View());
      ReachesThen(config, old(View()), was, View());
      ReachesJoin(config, origin, old(View()), View());
    }

    /** One iteration up to the save: forward and backward, the staging wait, the update. */
    method TrainStep(updated: seq<Tensor>)
      requires Valid() && phase == Computing && |updated| == config.shards
      modifies this
      ensures Valid() && Reaches(config, old(View()), View()) && disk == old(disk)
      ensures phase == AtSave && step == old(step) && params == updated && stagingFuture == None
      ensures step in history && history[step] == updated
    {
      ghost var s1 := View();
      var r := MaybeWaitForStaging();
      ghost var s2 := View();
      StagingFutureFacts(config, origin, s2);
      OptimizerStep(updated);
      ReachesJoin(config, s1, s2, View());
    }

    /** The head of the loop: the step counter is raised. */
    method EnterStep()
      requires Valid() && phase == Ready && step < config.trainingSteps
      modifies this`phase, this`step
      ensures Valid() && Reaches(config, old(View()), View()) && phase == Computing && step == old(step) + 1
    {
      phase, step := Computing, step + 1;
      ReachesSelf(config, old(View()));
      assert BeginStep(config, old(View()), View());
      ReachesThen(config, old(View()), old(View()), View());
      ReachesJoin(config, origin, old(View()), View());
    }

    /** The loop is over, or the data has run out in the middle of a step. */
    method LeaveLoop()
      requires Valid() && (phase == Computing || (phase == Ready && step >= config.trainingSteps))
      modifies this`phase
      ensures Valid() && Reaches(config, old(View()), View()) && phase == Done
    {
      phase := Done;
      ReachesSelf(config, old(View()));
      assert Finish(config, old(View()), View());
      ReachesThen(config, old(View()), old(View()), View());
      ReachesJoin(config, origin, old(View()), View());
    }

    /** One whole iteration with a batch at hand. */
    method Iterate(updated: seq<Tensor>)
      requires Valid() && phase == Ready && step < config.trainingSteps && |updated| == config.shards
      modifies this
      ensures Valid() && Reaches(config, old(View()), View()) && phase == Ready
      ensures step == old(step) + 1 && params == updated && step in history && history[step] == updated
      ensures !Saves() ==> disk == old(disk)
      ensures Saves() && step == config.trainingSteps ==>
        FindLoadStep(disk) == step && Intact(config, disk, history, step)
    {
      EnterStep();
      ghost var s1 := View();
      TrainStep(updated);
      ghost var s2 := View();
      ReachesJoin(config, old(View()), s1, s2);
      var saved := Save(step, step == config.trainingSteps);
      ReachesJoin(config, old(View()), s2, View());
    }

    /** The last step a loop completes that starts after step `from` with so many batches. */
    static function LastStep(from: nat, steps: nat, batches: nat): nat {
      if from >= steps then from else if from + batches < steps then from + batches else steps
    }

    /** What completing the steps after `from` up to `n` leaves: the last step's parameters,
        recorded; and the last step of training is the newest complete one if saving is on. */
    ghost predicate TrainedTo(updates: nat -> seq<Tensor>, from: nat, loaded: seq<Tensor>, folder: Folder, n: nat)
      reads this
    {
      && (n > from ==> params == updates(n) && n in history && history[n] == params)
      && (n == from ==> params == loaded && disk == folder)
      && (!Saves() ==> disk == folder)
      && (Saves() && n == config.trainingSteps > from ==> FindLoadStep(disk) == n && Intact(config, disk, history, n))
    }

    method Advance(updates: nat -> seq<Tensor>, ghost from: State)
      requires Valid() && phase == Ready && step < config.trainingSteps && |updates(step + 1)| == config.shards
      requires Reaches(config, from, View()) && from.trainer.step <= step
      requires TrainedTo(updates, from.trainer.step, from.trainer.params, from.disk, step)
      modifies this
      ensures Valid() && Reaches(config, from, View()) && phase == Ready
      ensures step == old(step) + 1 && TrainedTo(updates, from.trainer.step, from.trainer.params, from.disk, step)
    {
      ghost var s1 := View();
      Iterate(updates(step + 1));
      ReachesJoin(config, from, s1, View());
    }

    /** The completed steps. */
    method RunLoop(updates: nat -> seq<Tensor>, batches: nat)
      requires Valid() && phase == Ready && forall n :: |updates(n)| == config.shards
      modifies this
      ensures Valid() && Reaches(config, old(View()), View()) && phase == Ready
      ensures step == LastStep(old(step), config.trainingSteps, batches)
      ensures TrainedTo(updates, old(step), old(params), old(disk), step)
    {
      ReachesSelf(config, View());
      var left := batches;
      while step < config.trainingSteps && left > 0
        invariant Valid() && Reaches(config, old(View()), View()) && phase == Ready && 0 <= left <= batches
        invariant step == old(step) + (batches - left) && (step > old(step) ==> step <= config.trainingSteps)
        invariant TrainedTo(updates, old(step), old(params), old(disk), step)
        decreases left
      {
        Advance(updates, old(View()));
        left := left - 1;
      }
    }

    /** The train loop: it ends after the last step, or, when the data runs out, in the step
        after the last one it had a batch for. */
    method Loop(updates: nat -> seq<Tensor>, batches: nat)
      requires Valid() && phase == Ready && forall n :: |updates(n)| == config.shards
      modifies this
      ensures Valid() && Reaches(config, old(View()), View()) && phase == Done
      ensures TrainedTo(updates, old(step), old(params), old(disk), LastStep(old(step), config.trainingSteps, batches))
      ensures var n := LastStep(old(step), config.trainingSteps, batches);
        step == if n < config.trainingSteps then n + 1 else n
    {
      RunLoop(updates, batches);
      ghost var s1 := View();
      if step < config.trainingSteps {
        EnterStep();
      } else {
        ReachesSelf(config, s1);
      }
      ghost var s2 := View();
      LeaveLoop();
      ReachesJoin(config, s1, s2, View());
      ReachesJoin(config, old(View()), s1, View());
    }

    /** `train`: `load`, then the loop. It fails exactly as `load` does, and otherwise goes on
        from the step and the parameters that were loaded. */
    method Train(init: seq<Tensor>, updates: nat -> seq<Tensor>, batches: nat) returns (r: Result<bool, LoadError>)
      requires Built() && phase == Down && |init| == config.shards && forall n :: |updates(n)| == config.shards
      modifies this
      ensures var l := FindLoadStep(old(disk));
        r.Err? <==> config.enabled && l > 0 && l == config.trainingSteps && config.lastModelOnly
      ensures r.Err? ==> View() == old(View())
      ensures r.Ok? ==> Valid() && Reaches(config, old(View()), View()) && phase == Done
      ensures r.Ok? ==>
        var from := StartStep(config, old(disk));
        var n := LastStep(from, config.trainingSteps, batches);
        && (step == if n < config.trainingSteps then n + 1 else n)
        && TrainedTo(updates, from, LoadedParams(config, old(disk), old(history), init), old(disk), n)
    {
      r := Load(init);
      if r.Ok? {
        ghost var s1 := View();
        Loop(updates, batches);
        ReachesJoin(config, old(View()), s1, View());
      }
    }

    // ----- the purge thread -----

    /** The purge thread deletes one directory; a failure leaves part of it and is skipped. */
    method PurgeOne(rest: Option<Dir>)
      requires phase != Down && |purgeQueue| > 0 && purging == None
      requires rest.Some? ==> purgeQueue[0] in disk && PartOf(rest.value, disk[purgeQueue[0]])
      modifies this`disk, this`purgeQueue, this`purging, this`swept
      ensures Reaches(config, old(View()), View())
      ensures purging == None && purgeQueue == old(purgeQueue)[1..]
      ensures rest == None ==> disk == old(disk) - {old(purgeQueue)[0]} && swept == old(swept)
      ensures rest.Some? ==> disk == old(disk)[old(purgeQueue)[0] := rest.value] && swept == NotSwept
    {
      ReachesSelf(config, View());
      ghost var s0 := View();
      purging, purgeQueue := Some(purgeQueue[0]), purgeQueue[1..];
      assert TakePurge(s0, View());
      ReachesThen(config, s0, s0, View());
      if purging.value in disk {
        ghost var s1 := View();
        var left := if rest.Some? then rest.value else Dir(map[], false);
        disk := disk[purging.value := left];
        assert RemoveFile(s1, left, View());
        ReachesThen(config, s0, s1, View());
      }
      ghost var s2 := View();
      if rest.Some? {
        purging, swept := None, NotSwept;
        assert FailPurge(s2, View());
      } else {
        disk, purging := disk - {purging.value}, None;
        assert RemoveDir(s2, View());
      }
      ReachesThen(config, s0, s2, View());
    }

    /** What is left of the directories once the queue has been worked off: `rmtree` says what
        it leaves of a directory, nothing or, when it fails, a part. */
    static function Purged(disk: Folder, queue: seq<nat>, rmtree: (nat, Dir) -> Option<Dir>): Folder
      decreases |queue|
    {
      if queue == [] then disk
      else
        var d := queue[0];
        Purged(if d !in disk then disk
               else if rmtree(d, disk[d]).None? then disk - {d}
               else disk[d := rmtree(d, disk[d]).value], queue[1..], rmtree)
    }

    /** The purge thread works off the queue. The newest checkpoint is untouched, and so is
        every directory not queued; if no deletion fails the queued ones are gone and few are
        left. */
    method DrainPurgeQueue(rmtree: (nat, Dir) -> Option<Dir>)
      requires Valid() && purging == None
      requires forall n, d :: rmtree(n, d).Some? ==> PartOf(rmtree(n, d).value, d)
      modifies this`disk, this`purgeQueue, this`purging, this`swept
      ensures Valid() && Reaches(config, old(View()), View())
      ensures purgeQueue == [] && purging == None
      ensures disk == Purged(old(disk), old(purgeQueue), rmtree)
      ensures FindLoadStep(disk) == FindLoadStep(old(disk))
      ensures forall d | d !in old(purgeQueue) ::
        (d in disk <==> d in old(disk)) && (d in disk ==> disk[d] == old(disk)[d])
      ensures (forall n, d :: rmtree(n, d).None?) ==> forall d | d in old(purgeQueue) :: d !in disk
      ensures swept != NotSwept && pending == [] ==> |disk| <= config.keepLatestK + if swept == Listed then 1 else 2
      ensures (forall n, d :: rmtree(n, d).None?) ==> swept == old(swept)
    {
      DeleteQueued(rmtree);
      ReachesJoin(config, origin, old(View()), View());
      PurgedLeaves(old(disk), old(purgeQueue), rmtree);
      DrainedFacts(config, origin, old(View()), View());
    }

    method DeleteQueued(rmtree: (nat, Dir) -> Option<Dir>)
      requires phase != Down && purging == None
      requires forall n, d :: rmtree(n, d).Some? ==> PartOf(rmtree(n, d).value, d)
      modifies this`disk, this`purgeQueue, this`purging, this`swept
      ensures Reaches(config, old(View()), View())
      ensures purgeQueue == [] && purging == None && disk == Purged(old(disk), old(purgeQueue), rmtree)
      ensures (forall n, d :: rmtree(n, d).None?) ==> swept == old(swept)
    {
      ReachesSelf(config, View());
      while |purgeQueue| > 0
        invariant Reaches(config, old(View()), View()) && purging == None
        invariant (forall n, d :: rmtree(n, d).None?) ==> swept == old(swept)
        invariant Purged(disk, purgeQueue, rmtree) == Purged(old(disk), old(purgeQueue), rmtree)
        decreases |purgeQueue|
      {
        ghost var was := View();
        var d := purgeQueue[0];
        PurgeOne(if d in disk then rmtree(d, disk[d]) else None);
        assert d !in was.disk ==> disk == was.disk;
        ReachesJoin(config, old(View()), was, View());
      }
    }
  }

  predicate PartOf(d: Dir, was: Dir) {
    && d.shards.Keys <= was.shards.Keys && d.shards == (map i | i in d.shards && i in was.shards :: was.shards[i])
    && (d.metadata ==> was.metadata)
  }

  lemma {:induction false} PurgedLeaves(disk: Folder, queue: seq<nat>, rmtree: (nat, Dir) -> Option<Dir>)
    requires forall n, d :: rmtree(n, d).Some? ==> PartOf(rmtree(n, d).value, d)
    ensures var left := CheckpointManager.Purged(disk, queue, rmtree);
      && (forall d | d !in queue :: (d in left <==> d in disk) && (d in left ==> left[d] == disk[d]))
      && (forall d | d in left :: d in disk && (left[d].metadata ==> disk[d].metadata))
      && ((forall n, d :: rmtree(n, d).None?) ==> forall d | d in queue :: d !in left)
    decreases |queue|
  {
    if queue != [] {
      var d := queue[0];
      var next := if d !in disk then disk
                  else if rmtree(d, disk[d]).None? then disk - {d} else disk[d := rmtree(d, disk[d]).value];
      PurgedLeaves(next, queue[1..], rmtree);
      assert queue == [d] + queue[1..];
    }
  }

  lemma DrainedFacts(c: Config, o: State, s: State, t: State)
    requires c.Valid() && FreshStart(c, o) && Reaches(c, o, s) && Reaches(c, s, t) && s.trainer.phase != Down
    requires t.purger.queue == [] && t.purger.purging == None
    requires forall d | d in t.disk :: d in s.disk && (t.disk[d].metadata ==> s.disk[d].metadata)
    ensures FindLoadStep(t.disk) == FindLoadStep(s.disk)
    ensures t.purger.swept != NotSwept && t.purger.pending == [] ==>
      |t.disk| <= c.keepLatestK + if t.purger.swept == Listed then 1 else 2
  {
    FreshStartInv(c, o);
    ReachesKeeps(c, o, s);
    ReachesKeeps(c, s, t);
    assert CompleteSteps(t.disk) <= CompleteSteps(s.disk);
    if t.purger.swept != NotSwept && t.purger.pending == [] {
      assert Doomed(t.purger) == {};
      assert IsRun(c, [t]);
      DrainedCount(c, [t], 0);
    }
  }
}
