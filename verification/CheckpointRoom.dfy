/** When the purge spares the newest complete checkpoint: exactly when the directories
    above it leave it room among the k kept. Without room everything can be lost. */
module CheckpointRoom {
  import opened Wrappers
  import opened StepSets
  import opened CheckpointProtocol
  import opened CheckpointSafety

  lemma ReachesSelf(c: Config, s: State)
    ensures Reaches(c, s, s)
  {
    assert IsRun(c, [s]);
  }

  lemma ReachesThen(c: Config, s: State, t: State, u: State)
    requires Reaches(c, s, t) && Next(c, t, u)
    ensures Reaches(c, s, u)
  {
    var run :| IsRun(c, run) && run[0] == s && run[|run| - 1] == t;
    var run' := run + [u];
    assert IsRun(c, run');
    assert run'[0] == s && run'[|run'| - 1] == u;
  }

  lemma ReachesJoin(c: Config, s: State, t: State, u: State)
    requires Reaches(c, s, t) && Reaches(c, t, u)
    ensures Reaches(c, s, u)
  {
    var r1 :| IsRun(c, r1) && r1[0] == s && r1[|r1| - 1] == t;
    var r2 :| IsRun(c, r2) && r2[0] == t && r2[|r2| - 1] == u;
    var run := r1[..|r1| - 1] + r2;
    var n := |r1| - 1;
    forall i, j | 0 <= i < j < |run| && j == i + 1
      ensures Next(c, run[i], run[j])
    {
      if j < n {
        assert Next(c, r1[i], r1[j]);
      } else if j == n {
        assert run[j] == r1[j] == t;
      } else {
        assert Next(c, r2[i - n], r2[j - n]);
      }
    }
    assert IsRun(c, run);
    assert run[0] == s && run[|run| - 1] == u;
  }

  lemma ReachesKeeps(c: Config, s: State, t: State)
    requires c.Valid() && Inv(c, s) && Reaches(c, s, t)
    ensures Inv(c, t) && FindLoadStep(t.disk) >= FindLoadStep(s.disk)
  {
    var run :| IsRun(c, run) && run[0] == s && run[|run| - 1] == t;
    RunKeeps(c, run, |run| - 1);
    CrashSafe(c, run, 0, |run| - 1);
  }

  lemma ReachesSized(c: Config, s: State, t: State)
    requires c.Valid() && Sized(c, s) && Reaches(c, s, t)
    ensures Sized(c, t)
  {
    var run :| IsRun(c, run) && run[0] == s && run[|run| - 1] == t;
    RunSized(c, run, |run| - 1);
  }

  /** No run ever decides to delete the newest complete checkpoint. */
  ghost predicate SparesNewest(c: Config, s: State) {
    forall t | Reaches(c, s, t) :: FindLoadStep(t.disk) !in Doomed(t.purger)
  }

  /** No run ever falls back behind the newest complete checkpoint. */
  ghost predicate KeepsNewest(c: Config, s: State) {
    forall t | Reaches(c, s, t) :: FindLoadStep(t.disk) >= FindLoadStep(s.disk)
  }

  // ----- a schedule of the actors that brings out the worst case -----

  lemma {:induction false} FinishUpdate(c: Config, o: State, s: State) returns (t: State)
    requires Reaches(c, o, s) && s.trainer.phase.Updating? && s.trainer.phase.next <= |s.trainer.params|
    ensures Reaches(c, o, t)
    ensures t == s.(trainer := s.trainer.(phase := AtSave), history := s.history[s.trainer.step := s.trainer.params])
    decreases |s.trainer.params| - s.trainer.phase.next
  {
    var i := s.trainer.phase.next;
    if i < |s.trainer.params| {
      var u := s.(trainer := s.trainer.(phase := Updating(i + 1)));
      assert s.trainer.params[i := s.trainer.params[i]] == s.trainer.params;
      assert UpdateShard(s, s.trainer.params[i], u);
      ReachesThen(c, o, s, u);
      t := FinishUpdate(c, o, u);
    } else {
      t := s.(trainer := s.trainer.(phase := AtSave), history := s.history[s.trainer.step := s.trainer.params]);
      assert EndUpdate(s, t);
      ReachesThen(c, o, s, t);
    }
  }

  lemma TrainOne(c: Config, o: State, s: State) returns (t: State)
    requires Reaches(c, o, s) && s.trainer.phase == Ready && s.trainer.step < c.trainingSteps
    requires s.saver.stagingFuture.None?
    ensures Reaches(c, o, t)
    ensures t.trainer == Trainer(AtSave, s.trainer.step + 1, s.trainer.params)
    ensures t.disk == s.disk && t.saver == s.saver && t.purger == s.purger
  {
    var u := s.(trainer := s.trainer.(phase := Computing, step := s.trainer.step + 1));
    assert BeginStep(c, s, u);
    ReachesThen(c, o, s, u);
    var w := u.(trainer := u.trainer.(phase := Updating(0)), saver := u.saver.(stagingFuture := None));
    assert WaitForStaging(c, u, w);
    ReachesThen(c, o, u, w);
    t := FinishUpdate(c, o, w);
  }

  lemma {:induction false} TrainUntil(c: Config, o: State, s: State, n: nat) returns (t: State)
    requires Reaches(c, o, s) && s.trainer.phase == Ready && s.saver.stagingFuture.None?
    requires s.trainer.step < n <= c.trainingSteps && NoSaveWithin(c, s.trainer.step, n - 1)
    ensures Reaches(c, o, t)
    ensures t.trainer == Trainer(AtSave, n, s.trainer.params)
    ensures t.disk == s.disk && t.saver == s.saver && t.purger == s.purger
    decreases n - s.trainer.step
  {
    t := TrainOne(c, o, s);
    if t.trainer.step < n {
      var u := t.(trainer := t.trainer.(phase := Ready));
      assert !c.SavesAt(t.trainer.step);
      assert SkipSave(c, t, u);
      ReachesThen(c, o, t, u);
      t := TrainUntil(c, o, u, n);
    }
  }

  /** The state differs from `s` only in how far its last job has come. */
  ghost predicate OnlyLastJob(s: State, t: State) {
    && t.history == s.history && t.trainer == s.trainer && t.purger == s.purger
    && t.saver.stagingFuture == s.saver.stagingFuture && t.saver.saveFuture == s.saver.saveFuture
    && |t.saver.jobs| == |s.saver.jobs| > 0 && LastJob(t.saver).step == LastJob(s.saver).step
  }

  lemma {:induction false} StageAll(c: Config, o: State, s: State, i: nat) returns (t: State)
    requires Reaches(c, o, s) && s.trainer.phase == Saving && |s.trainer.params| == c.shards
    requires Open(s.saver) && i <= c.Written(LastJob(s.saver).step)
    requires forall m | 0 <= m < i :: m in LastJob(s.saver).staged
    ensures Reaches(c, o, t) && OnlyLastJob(s, t) && t.disk == s.disk
    ensures Open(t.saver) && AllStaged(c, LastJob(t.saver))
    decreases c.Written(LastJob(s.saver).step) - i
  {
    if i == c.Written(LastJob(s.saver).step) {
      t := s;
    } else if i in LastJob(s.saver).staged {
      t := StageAll(c, o, s, i + 1);
    } else {
      var j := |s.saver.jobs| - 1;
      var job := LastJob(s.saver);
      var u := s.(saver := s.saver.(jobs := s.saver.jobs[j := job.(staged := job.staged[i := s.trainer.params[i]])]));
      assert Stage(c, s, j, i, u);
      ReachesThen(c, o, s, u);
      t := StageAll(c, o, u, i + 1);
    }
  }

  lemma DirReady(c: Config, o: State, s: State) returns (t: State)
    requires Reaches(c, o, s) && s.trainer.phase == Saving && Open(s.saver)
    ensures Reaches(c, o, t) && OnlyLastJob(s, t) && t.saver == s.saver
    ensures t.disk.Keys == s.disk.Keys + {LastJob(s.saver).step}
    ensures CompleteSteps(t.disk) == CompleteSteps(s.disk)
  {
    var n := LastJob(s.saver).step;
    if n in s.disk {
      t := s;
    } else {
      t := s.(disk := s.disk[n := Dir(map[], false)]);
      assert MakeDir(s, |s.saver.jobs| - 1, t);
      ReachesThen(c, o, s, t);
    }
  }

  lemma {:induction false} UploadAll(c: Config, o: State, s: State, i: nat) returns (t: State)
    requires Reaches(c, o, s) && s.trainer.phase == Saving && Open(s.saver)
    requires AllStaged(c, LastJob(s.saver)) && LastJob(s.saver).step in s.disk
    requires i <= c.Written(LastJob(s.saver).step) && forall m | 0 <= m < i :: m in LastJob(s.saver).uploaded
    ensures Reaches(c, o, t) && OnlyLastJob(s, t) && t.disk.Keys == s.disk.Keys
    ensures CompleteSteps(t.disk) == CompleteSteps(s.disk)
    ensures Open(t.saver) && AllStaged(c, LastJob(t.saver)) && AllUploaded(c, LastJob(t.saver))
    decreases c.Written(LastJob(s.saver).step) - i
  {
    if i == c.Written(LastJob(s.saver).step) {
      t := s;
    } else {
      var u := UploadOne(c, o, s, i);
      t := UploadAll(c, o, u, i + 1);
    }
  }

  lemma UploadOne(c: Config, o: State, s: State, i: nat) returns (u: State)
    requires Reaches(c, o, s) && s.trainer.phase == Saving && Open(s.saver)
    requires i in LastJob(s.saver).staged && LastJob(s.saver).step in s.disk
    ensures Reaches(c, o, u) && OnlyLastJob(s, u) && u.disk.Keys == s.disk.Keys
    ensures CompleteSteps(u.disk) == CompleteSteps(s.disk)
    ensures LastJob(u.saver) == LastJob(s.saver).(uploaded := LastJob(s.saver).uploaded + {i})
  {
    var j, job := |s.saver.jobs| - 1, LastJob(s.saver);
    var d := s.disk[job.step];
    u := s.(disk := s.disk[job.step := d.(shards := d.shards[i := job.staged[i]])],
            saver := s.saver.(jobs := s.saver.jobs[j := job.(uploaded := job.uploaded + {i})]));
    assert Upload(s, j, i, u);
    ReachesThen(c, o, s, u);
  }

  /** The save of this step is dispatched and staged, and its directory made. */
  lemma StartSave(c: Config, o: State, s: State) returns (t: State)
    requires c.Valid() && Reaches(c, o, s) && s.trainer.phase == AtSave && s.trainer.step in c.saves
    requires |s.trainer.params| == c.shards && s.saver.stagingFuture.None? && SavingResolved(s.saver)
    ensures Reaches(c, o, t) && t.trainer == s.trainer.(phase := Saving) && t.history == s.history
    ensures t.saver.stagingFuture.None? && t.saver.saveFuture.None?
    ensures Open(t.saver) && LastJob(t.saver).step == s.trainer.step && AllStaged(c, LastJob(t.saver))
    ensures t.disk.Keys == s.disk.Keys + {s.trainer.step} && CompleteSteps(t.disk) == CompleteSteps(s.disk)
    ensures t.purger == s.purger.(swept := AfterSaveBegins(s.purger.swept))
  {
    var w := s.(saver := s.saver.(saveFuture := None));
    assert WaitForSaving(c, s, w);
    ReachesThen(c, o, s, w);
    var b := w.(trainer := s.trainer.(phase := Saving),
                saver := w.saver.(jobs := s.saver.jobs + [Job(s.trainer.step, map[], {}, false)]),
                purger := s.purger.(swept := AfterSaveBegins(s.purger.swept)));
    assert BeginSave(c, w, b);
    ReachesThen(c, o, w, b);
    var u := StageAll(c, o, b, 0);
    t := DirReady(c, o, u);
  }

  /** The uploader finishes it at once. */
  lemma CompleteSave(c: Config, o: State, s: State) returns (t: State)
    requires Reaches(c, o, s) && s.trainer.phase == Saving && Open(s.saver)
    requires AllStaged(c, LastJob(s.saver)) && LastJob(s.saver).step in s.disk
    ensures Reaches(c, o, t) && OnlyLastJob(s, t) && t.disk.Keys == s.disk.Keys && !Open(t.saver)
    ensures CompleteSteps(t.disk) == CompleteSteps(s.disk) + {LastJob(s.saver).step}
    ensures AllStaged(c, LastJob(t.saver))
  {
    var u := UploadAll(c, o, s, 0);
    var j, job := |u.saver.jobs| - 1, LastJob(u.saver);
    t := u.(disk := u.disk[job.step := u.disk[job.step].(metadata := true)],
            saver := u.saver.(jobs := u.saver.jobs[j := job.(committed := true)]));
    assert Commit(c, u, j, t);
    ReachesThen(c, o, u, t);
  }

  /** The save returns and the purge is listed. */
  lemma ReturnAndList(c: Config, o: State, s: State) returns (t: State)
    requires Reaches(c, o, s) && s.trainer.phase == Saving && |s.saver.jobs| > 0
    requires SaveReturns(c, s.trainer.step, LastJob(s.saver)) && Purges(c, s.trainer.step)
    ensures Reaches(c, o, t) && t.disk == s.disk && t.trainer == s.trainer.(phase := Purging)
    ensures t.saver == SaverAfterDispatch(c, s.trainer.step, s.saver)
    ensures t.purger == s.purger.(pending := DropLargest(t.disk.Keys, c.keepLatestK), swept := Listed)
  {
    t := s.(saver := SaverAfterDispatch(c, s.trainer.step, s.saver),
            trainer := s.trainer.(phase := Purging),
            purger := s.purger.(pending := DropLargest(s.disk.Keys, c.keepLatestK), swept := Listed));
    assert EndSave(c, s, t);
    ReachesThen(c, o, s, t);
  }

  lemma {:induction false} EnqueueAll(c: Config, o: State, s: State) returns (t: State)
    requires Reaches(c, o, s) && s.trainer.phase == Purging
    ensures Reaches(c, o, t)
    ensures t == s.(trainer := s.trainer.(phase := Ready),
                    purger := s.purger.(queue := s.purger.queue + s.purger.pending, pending := []))
    decreases |s.purger.pending|
  {
    var p := s.purger;
    if p.pending == [] {
      t := s.(trainer := s.trainer.(phase := Ready));
      assert p.queue + p.pending == p.queue;
      assert EndPurge(s, t);
      ReachesThen(c, o, s, t);
    } else {
      var u := s.(purger := p.(queue := p.queue + [p.pending[0]], pending := p.pending[1..]));
      assert Enqueue(s, u);
      ReachesThen(c, o, s, u);
      t := EnqueueAll(c, o, u);
      assert (p.queue + [p.pending[0]]) + p.pending[1..] == p.queue + p.pending;
    }
  }

  /** The purge thread deletes one directory. */
  lemma DeleteOne(c: Config, o: State, s: State) returns (t: State)
    requires Reaches(c, o, s) && s.trainer.phase != Down && s.purger.purging.None? && s.purger.queue != []
    ensures Reaches(c, o, t) && t.trainer == s.trainer && t.saver == s.saver && t.history == s.history
    ensures t.purger == s.purger.(queue := s.purger.queue[1..]) && t.disk == s.disk - {s.purger.queue[0]}
  {
    var d := s.purger.queue[0];
    var u := s.(purger := s.purger.(purging := Some(d), queue := s.purger.queue[1..]));
    assert TakePurge(s, u);
    ReachesThen(c, o, s, u);
    if d in s.disk {
      var w := u.(disk := u.disk[d := Dir(map[], false)]);
      assert RemoveFile(u, Dir(map[], false), w);
      ReachesThen(c, o, u, w);
      u := w;
    }
    t := u.(disk := u.disk - {d}, purger := u.purger.(purging := None));
    assert RemoveDir(u, t);
    ReachesThen(c, o, u, t);
    assert t.disk == s.disk - {d};
  }

  lemma {:induction false} DeleteAll(c: Config, o: State, s: State) returns (t: State)
    requires Reaches(c, o, s) && s.trainer.phase != Down && s.purger.purging.None?
    ensures Reaches(c, o, t) && t.purger.queue == [] && t.trainer == s.trainer
    ensures forall d :: d in t.disk <==> d in s.disk && d !in s.purger.queue
    ensures forall d | d in t.disk :: t.disk[d] == s.disk[d]
    decreases |s.purger.queue|
  {
    if s.purger.queue == [] {
      t := s;
    } else {
      var u := DeleteOne(c, o, s);
      t := DeleteAll(c, o, u);
      assert s.purger.queue == [s.purger.queue[0]] + s.purger.queue[1..];
    }
  }

  // ----- the worst case -----

  /** A stopped process with nothing in memory, whose newest checkpoint is intact. */
  ghost predicate Stopped(c: Config, s: State) {
    && s.trainer.phase == Down && s.saver == IDLE_SAVER && s.purger == IDLE_PURGER
    && FindLoadStep(s.disk) >= 0 && Intact(c, s.disk, s.history, FindLoadStep(s.disk))
  }

  /** Restarted, the process reaches its next save. */
  lemma RestartUntil(c: Config, s: State, n: nat) returns (t: State)
    requires c.Valid() && Stopped(c, s) && IsNextSave(c, FindLoadStep(s.disk), n)
    ensures Reaches(c, s, t) && t.trainer == Trainer(AtSave, n, s.history[FindLoadStep(s.disk)])
    ensures t.disk == s.disk && t.saver == IDLE_SAVER && t.purger == IDLE_PURGER
  {
    var l := FindLoadStep(s.disk);
    var u := State(s.disk, s.history, Trainer(Ready, l, s.history[l]), IDLE_SAVER, IDLE_PURGER);
    ReachesSelf(c, s);
    assert Load(c, s, s.history[l], u);
    ReachesThen(c, s, s, u);
    t := TrainUntil(c, s, u, n);
  }

  /** Without room, some run lists the newest complete checkpoint for deletion. */
  lemma NoRoomDooms(c: Config, s: State, n: nat) returns (t: State)
    requires c.Valid() && c.keepLatestK > 0 && Stopped(c, s)
    requires IsNextSave(c, FindLoadStep(s.disk), n) && n != c.trainingSteps && !RoomFor(c, s.disk, n)
    ensures Reaches(c, s, t) && t.trainer.phase == Purging
    ensures t.purger == Purger(DropLargest(t.disk.Keys, c.keepLatestK), [], None, Listed)
    ensures FindLoadStep(t.disk) in DropLargest(t.disk.Keys, c.keepLatestK)
  {
    var u := RestartUntil(c, s, n);
    u := StartSave(c, s, u);
    if c.mode == Disabled {
      u := CompleteSave(c, s, u);
    }
    t := ReturnAndList(c, s, u);
    CrowdedListing(c, s.disk, t.disk, n);
  }

  lemma CrowdedListing(c: Config, disk: Folder, disk': Folder, n: nat)
    requires FindLoadStep(disk) < n && FindLoadStep(disk) >= 0 && !RoomFor(c, disk, n)
    requires disk'.Keys == disk.Keys + {n}
    requires CompleteSteps(disk') == CompleteSteps(disk) + if c.mode == Disabled then {n} else {}
    ensures FindLoadStep(disk') in DropLargest(disk'.Keys, c.keepLatestK)
  {
    var l := FindLoadStep(disk);
    if c.mode == Disabled {
      assert n in CompleteSteps(disk');
      assert forall s | s in disk' && disk'[s].metadata :: s in CompleteSteps(disk');
      LoadStepIs(disk', n);
      assert Above(disk'.Keys, n) == Above(disk.Keys, n);
    } else {
      assert CompleteSteps(disk') == CompleteSteps(disk);
      assert Above(disk'.Keys, l) == (Above(disk.Keys, l) - {n}) + {n};
    }
    DroppedIff(disk'.Keys, c.keepLatestK, FindLoadStep(disk'));
  }

  /** If the newest complete step is listed, so is every other complete one. */
  lemma AllListed(disk: Folder, k: nat, d: nat)
    requires FindLoadStep(disk) in DropLargest(disk.Keys, k) && d in disk && disk[d].metadata
    ensures d in DropLargest(disk.Keys, k)
  {
    var l: nat := FindLoadStep(disk);
    DroppedIff(disk.Keys, k, l);
    DroppedIff(disk.Keys, k, d);
    assert Above(disk.Keys, l) <= Above(disk.Keys, d);
    SubsetSize(Above(disk.Keys, l), Above(disk.Keys, d));
  }

  /** Without room, some run deletes every complete checkpoint, and a crash then leaves
      nothing to load. */
  lemma NoRoomLoses(c: Config, s: State, n: nat) returns (t: State)
    requires c.Valid() && c.keepLatestK > 0 && Stopped(c, s)
    requires IsNextSave(c, FindLoadStep(s.disk), n) && n != c.trainingSteps && !RoomFor(c, s.disk, n)
    ensures Reaches(c, s, t) && t.trainer.phase == Down && FindLoadStep(t.disk) == -1
  {
    var u := NoRoomDooms(c, s, n);
    var w := EnqueueAll(c, s, u);
    assert w.purger.queue == DropLargest(u.disk.Keys, c.keepLatestK);
    var v := DeleteAll(c, s, w);
    forall d | d in v.disk && v.disk[d].metadata
      ensures false
    {
      AllListed(u.disk, c.keepLatestK, d);
    }
    assert CompleteSteps(v.disk) == {};
    t := State(v.disk, v.history, Trainer(Down, 0, []), IDLE_SAVER, IDLE_PURGER);
    assert Crash(v, t);
    ReachesThen(c, s, v, t);
  }

  /** Restarting from a folder whose newest complete checkpoint is intact, the purge
      spares it in every run, and no run ever falls back behind it, exactly when the
      leftovers above it leave room. */
  lemma SparedIffRoom(c: Config, s: State)
    requires c.Valid() && Stopped(c, s)
    ensures SparesNewest(c, s) <==> Room(c, s.disk)
    ensures KeepsNewest(c, s) <==> Room(c, s.disk)
  {
    if Room(c, s.disk) {
      assert Inv(c, s);
      forall t | Reaches(c, s, t)
        ensures FindLoadStep(t.disk) !in Doomed(t.purger) && FindLoadStep(t.disk) >= FindLoadStep(s.disk)
      {
        ReachesKeeps(c, s, t);
      }
    } else {
      var n: nat :| IsNextSave(c, FindLoadStep(s.disk), n) && n != c.trainingSteps && !RoomFor(c, s.disk, n);
      var t := NoRoomDooms(c, s, n);
      assert FindLoadStep(t.disk) in Doomed(t.purger);
      var u := NoRoomLoses(c, s, n);
    }
  }

  /** A crash leaves at most the directory of the save under way above the newest complete
      one, and that is the next save of the restarted run, so room is kept for ever. */
  lemma CrashKeepsRoom(c: Config, s: State, t: State)
    requires c.Valid() && Inv(c, s) && Crash(s, t)
    ensures Room(c, t.disk) && SparesNewest(c, t) && KeepsNewest(c, t)
  {
    forall u | Reaches(c, t, u)
      ensures FindLoadStep(u.disk) !in Doomed(u.purger) && FindLoadStep(u.disk) >= FindLoadStep(t.disk)
    {
      FailPurgeKeeps(c, s, t);
      ReachesKeeps(c, t, u);
    }
  }

  // ----- two runs that end badly -----

  const NOTHING := State(map[], map[], Trainer(Down, 0, []), IDLE_SAVER, IDLE_PURGER)

  lemma FirstStart(c: Config, init: seq<Tensor>) returns (t: State)
    requires c.Valid() && |init| == c.shards
    ensures FreshStart(c, NOTHING) && Reaches(c, NOTHING, t)
    ensures t == NOTHING.(trainer := Trainer(Ready, 0, init))
  {
    t := NOTHING.(trainer := Trainer(Ready, 0, init));
    assert CompleteSteps(map[]) == {};
    ReachesSelf(c, NOTHING);
    assert Load(c, NOTHING, init, t);
    ReachesThen(c, NOTHING, NOTHING, t);
  }

  lemma CrashNow(c: Config, o: State, s: State) returns (t: State)
    requires Reaches(c, o, s) && s.trainer.phase != Down
    ensures Reaches(c, o, t) && t == State(s.disk, s.history, Trainer(Down, 0, []), IDLE_SAVER, IDLE_PURGER)
  {
    t := State(s.disk, s.history, Trainer(Down, 0, []), IDLE_SAVER, IDLE_PURGER);
    assert Crash(s, t);
    ReachesThen(c, o, s, t);
  }

  lemma SaveAndCrash(c: Config, o: State, s: State) returns (t: State)
    requires c.Valid() && Reaches(c, o, s) && s.trainer.phase == AtSave && s.trainer.step in c.saves
    requires |s.trainer.params| == c.shards && s.saver.stagingFuture.None? && SavingResolved(s.saver)
    ensures Reaches(c, o, t) && t.trainer.phase == Down
    ensures CompleteSteps(t.disk) == CompleteSteps(s.disk) + {s.trainer.step}
  {
    var u := StartSave(c, o, s);
    var v := CompleteSave(c, o, u);
    t := CrashNow(c, o, v);
  }

  lemma OnlyComplete(disk: Folder, l: nat)
    requires CompleteSteps(disk) == {l}
    ensures FindLoadStep(disk) == l
  {
    assert l in CompleteSteps(disk);
    assert forall d | d in disk && disk[d].metadata :: d in CompleteSteps(disk);
    LoadStepIs(disk, l);
  }

  // Fifteen steps and then a hundred, saving every ten and keeping two.
  const SHORT := Config(true, Async, 2, 15, 1, 1, true, SaveSchedule(10, false, 15))
  const LONG := Config(true, Async, 2, 100, 1, 1, true, SaveSchedule(10, false, 100))

  /** An asynchronous save whose upload is done before it returns. */
  lemma SaveWhole(c: Config, o: State, s: State) returns (t: State)
    requires c.Valid() && Reaches(c, o, s) && s.trainer.phase == AtSave && s.trainer.step in c.saves
    requires |s.trainer.params| == c.shards && s.saver.stagingFuture.None? && SavingResolved(s.saver)
    requires c.mode == Async && Purges(c, s.trainer.step)
    ensures Reaches(c, o, t) && t.trainer == s.trainer.(phase := Ready)
    ensures t.saver.stagingFuture.None? && SavingResolved(t.saver)
    ensures t.disk.Keys == s.disk.Keys + {s.trainer.step}
    ensures CompleteSteps(t.disk) == CompleteSteps(s.disk) + {s.trainer.step}
  {
    var u := StartSave(c, o, s);
    var v := CompleteSave(c, o, u);
    var w := ReturnAndList(c, o, v);
    t := EnqueueAll(c, o, w);
  }

  lemma ShortSchedule()
    ensures SHORT.SavesAt(10) && SHORT.SavesAt(15) && NoSaveWithin(SHORT, 0, 9) && NoSaveWithin(SHORT, 10, 14)
  {
    assert LoopSaves(10, false, 15, 10) && LoopSaves(10, false, 15, 15);
    assert forall m: nat | 0 < m < 15 && m != 10 :: !LoopSaves(10, false, 15, m);
  }

  /** The short run up to its first save, complete by then. */
  lemma ShortSave(init: seq<Tensor>) returns (s: State)
    requires |init| == 2
    ensures FreshStart(SHORT, NOTHING) && Reaches(SHORT, NOTHING, s) && s.trainer == Trainer(Ready, 10, init)
    ensures s.saver.stagingFuture.None? && SavingResolved(s.saver)
    ensures s.disk.Keys == {10} && CompleteSteps(s.disk) == {10}
  {
    ShortSchedule();
    var u := FirstStart(SHORT, init);
    var v := TrainUntil(SHORT, NOTHING, u, 10);
    s := SaveWhole(SHORT, NOTHING, v);
  }

  /** It crashes while saving its last step 15. */
  lemma ShortRun(init: seq<Tensor>) returns (s: State)
    requires |init| == 2
    ensures FreshStart(SHORT, NOTHING) && Reaches(SHORT, NOTHING, s)
    ensures s.trainer.phase == Down && s.saver == IDLE_SAVER && s.purger == IDLE_PURGER
    ensures s.disk.Keys == {10, 15} && CompleteSteps(s.disk) == {10}
  {
    ShortSchedule();
    var u := ShortSave(init);
    var v := TrainUntil(SHORT, NOTHING, u, 15);
    var w := StartSave(SHORT, NOTHING, v);
    s := CrashNow(SHORT, NOTHING, w);
  }

  /** The long run, started on the folder the short one left, has no room: its save of step
      20 lists step 10, the only complete checkpoint, and a run loses it. */
  lemma LeftoverExample(init: seq<Tensor>) returns (s: State, t: State)
    requires |init| == 2
    ensures FreshStart(SHORT, NOTHING) && Reaches(SHORT, NOTHING, s)
    ensures s.disk.Keys == {10, 15} && FindLoadStep(s.disk) == 10 && Stopped(LONG, s)
    ensures !SparesNewest(LONG, s) && Reaches(LONG, s, t) && FindLoadStep(t.disk) == -1
  {
    s := ShortRun(init);
    OnlyComplete(s.disk, 10);
    FreshStartInv(SHORT, NOTHING);
    ReachesKeeps(SHORT, NOTHING, s);
    assert Intact(LONG, s.disk, s.history, 10);
    assert LoopSaves(10, false, 100, 20);
    assert forall m: nat | 10 < m < 20 :: !LoopSaves(10, false, 100, m);
    assert IsNextSave(LONG, 10, 20);
    assert Above(s.disk.Keys, 10) - {20} == {15};
    assert !RoomFor(LONG, s.disk, 20);
    SparedIffRoom(LONG, s);
    t := NoRoomLoses(LONG, s, 20);
  }

  /** With the default model-only last save, a run of one step ends with a newest checkpoint
      that the same configuration cannot load, whatever the mode and the interval. */
  lemma FinalSaveExample(mode: AsyncMode, k: nat, interval: nat, first: bool, model: nat, init: seq<Tensor>)
    returns (c: Config, s: State)
    requires k != 1 && interval >= 1 && |init| == model + 1
    ensures c == Config(true, mode, k, 1, model, 1, true, SaveSchedule(interval, first, 1)) && c.Valid()
    ensures FreshStart(c, NOTHING) && Reaches(c, NOTHING, s) && s.trainer.phase == Down
    ensures FindLoadStep(s.disk) == 1 && forall from, t :: !Load(c, s, from, t)
  {
    c := Config(true, mode, k, 1, model, 1, true, SaveSchedule(interval, first, 1));
    assert LoopSaves(interval, first, 1, 1);
    var u := FirstStart(c, init);
    var v := TrainUntil(c, NOTHING, u, 1);
    s := SaveAndCrash(c, NOTHING, v);
    OnlyComplete(s.disk, 1);
    FreshStartInv(c, NOTHING);
    ReachesKeeps(c, NOTHING, s);
    ReachesSized(c, NOTHING, s);
    LoadableIff(c, s);
  }
}
