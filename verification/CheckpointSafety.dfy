/** The invariant of the checkpoint protocol and what it gives on every run. */
module CheckpointSafety {
  import opened Wrappers
  import opened StepSets
  import opened CheckpointProtocol

  lemma LoadStepIs(disk: Folder, l: nat)
    requires l in disk && disk[l].metadata
    requires forall s | s in disk && disk[s].metadata :: s <= l
    ensures FindLoadStep(disk) == l
  {
    assert l in CompleteSteps(disk);
  }

  lemma LoadStepKept(disk: Folder, disk': Folder)
    requires forall s | s in disk' && disk'[s].metadata :: s in disk && disk[s].metadata
    requires FindLoadStep(disk) >= 0 ==>
      FindLoadStep(disk) in disk' && disk'[FindLoadStep(disk)].metadata
    ensures FindLoadStep(disk') == FindLoadStep(disk)
  {
    var l := FindLoadStep(disk);
    if l >= 0 {
      LoadStepIs(disk', l);
    } else {
      assert CompleteSteps(disk') == {};
    }
  }

  lemma NextSaveUnique(c: Config, from: int, n: nat, m: nat)
    requires c.Valid() && IsNextSave(c, from, n) && IsNextSave(c, from, m)
    ensures n == m
  {
  }

  /** Deleting below the newest complete directory leaves what matters alone. */
  lemma DeletionBelow(c: Config, disk: Folder, disk': Folder, history: map<nat, seq<Tensor>>, d: nat)
    requires c.Valid() && FolderInv(c, disk, history)
    requires d < FindLoadStep(disk)
    requires disk' == disk - {d} ||
      (d in disk && d in disk' && disk' == disk[d := disk'[d]] && (disk'[d].metadata ==> disk[d].metadata))
    ensures FindLoadStep(disk') == FindLoadStep(disk)
    ensures FolderInv(c, disk', history)
    ensures forall b | b >= FindLoadStep(disk) :: Above(disk'.Keys, b) == Above(disk.Keys, b)
  {
    LoadStepKept(disk, disk');
    forall b | b >= FindLoadStep(disk)
      ensures Above(disk'.Keys, b) == Above(disk.Keys, b)
    {
    }
  }

  lemma RoomStays(c: Config, disk: Folder, n: nat, d: Dir)
    requires c.Valid() && Room(c, disk) && IsNextSave(c, FindLoadStep(disk), n)
    requires FindLoadStep(disk[n := d]) == FindLoadStep(disk)
    ensures Room(c, disk[n := d])
  {
    var disk' := disk[n := d];
    var l := FindLoadStep(disk);
    assert Above(disk'.Keys, l) - {n} == Above(disk.Keys, l) - {n};
    assert Above(disk'.Keys, n) == Above(disk.Keys, n);
    forall m: nat | IsNextSave(c, l, m) && m != c.trainingSteps && c.keepLatestK > 0
      ensures RoomFor(c, disk', m)
    {
      NextSaveUnique(c, l, n, m);
      assert RoomFor(c, disk, n);
    }
  }

  /** Writing into the directory of the save under way does not change what can be loaded. */
  lemma WriteUnfinished(c: Config, disk: Folder, history: map<nat, seq<Tensor>>, n: nat, d: Dir)
    requires c.Valid() && FolderInv(c, disk, history)
    requires IsNextSave(c, FindLoadStep(disk), n) && !d.metadata
    ensures FindLoadStep(disk[n := d]) == FindLoadStep(disk)
    ensures FolderInv(c, disk[n := d], history)
  {
    assert FindLoadStep(disk[n := d]) == FindLoadStep(disk) by { LoadStepKept(disk, disk[n := d]); }
    assert Room(c, disk[n := d]) by { RoomStays(c, disk, n, d); }
  }

  /** Completing the save under way makes it the newest, with room above it. */
  lemma CompleteNext(c: Config, disk: Folder, history: map<nat, seq<Tensor>>, n: nat, d: Dir)
    requires c.Valid() && FolderInv(c, disk, history)
    requires n in disk && IsNextSave(c, FindLoadStep(disk), n)
    requires d.metadata && n in history && |history[n]| == c.shards
    requires forall i | 0 <= i < c.Written(n) :: i in d.shards && d.shards[i] == history[n][i]
    ensures FindLoadStep(disk[n := d]) == n
    ensures FolderInv(c, disk[n := d], history)
    ensures Purges(c, n) ==> |Above(disk[n := d].Keys, n)| < c.keepLatestK
  {
    var disk' := disk[n := d];
    var l := FindLoadStep(disk);
    LoadStepIs(disk', n);
    assert disk'.Keys == disk.Keys;
    if c.keepLatestK > 0 && n != c.trainingSteps {
      assert RoomFor(c, disk, n);
      assert Above(disk.Keys, n) <= Above(disk.Keys, l) - {n};
      SubsetSize(Above(disk.Keys, n), Above(disk.Keys, l) - {n});
      forall m: nat | IsNextSave(c, n, m) && m != c.trainingSteps
        ensures RoomFor(c, disk', m)
      {
        SubsetSize(Above(disk.Keys, m), Above(disk.Keys, n));
        SubsetSize(Above(disk.Keys, n) - {m}, Above(disk.Keys, n));
      }
    }
  }

  lemma WaitForSavingKeeps(c: Config, s: State, t: State)
    requires c.Valid() && Inv(c, s) && WaitForSaving(c, s, t)
    ensures Inv(c, t)
  {
    assert !Open(s.saver);
    assert !Open(t.saver) && Frontier(t.disk, t.saver) == Frontier(s.disk, s.saver);
  }

  lemma PushJob(c: Config, sv: Saver, sv': Saver, step: nat)
    requires JobsInv(c, sv) && !Open(sv) && sv.stagingFuture.None?
    requires sv' == Saver(sv.jobs + [Job(step, map[], {}, false)], None, None)
    ensures JobsInv(c, sv') && Open(sv') && LastJob(sv') == Job(step, map[], {}, false)
  {
  }

  lemma SetLastJob(c: Config, sv: Saver, sv': Saver, j: nat, job: Job)
    requires JobsInv(c, sv) && j == |sv.jobs| - 1
    requires sv' == sv.(jobs := sv.jobs[j := job])
    requires job.committed ==> AllStaged(c, job)
    ensures JobsInv(c, sv') && LastJob(sv') == job
  {
  }

  // ----- trainer steps -----

  lemma LoadKeeps(c: Config, s: State, init: seq<Tensor>, t: State)
    requires c.Valid() && Inv(c, s) && Load(c, s, init, t)
    ensures Inv(c, t)
  {
  }

  lemma BeginStepKeeps(c: Config, s: State, t: State)
    requires c.Valid() && Inv(c, s) && BeginStep(c, s, t)
    ensures Inv(c, t)
  {
  }

  lemma FinishKeeps(c: Config, s: State, t: State)
    requires c.Valid() && Inv(c, s) && Finish(c, s, t)
    ensures Inv(c, t)
  {
  }

  lemma WaitForStagingKeeps(c: Config, s: State, t: State)
    requires c.Valid() && Inv(c, s) && WaitForStaging(c, s, t)
    ensures Inv(c, t)
  {
  }

  lemma UpdateShardKeeps(c: Config, s: State, v: Tensor, t: State)
    requires c.Valid() && Inv(c, s) && UpdateShard(s, v, t)
    ensures Inv(c, t)
  {
  }

  lemma EndUpdateKeeps(c: Config, s: State, t: State)
    requires c.Valid() && Inv(c, s) && EndUpdate(s, t)
    ensures Inv(c, t)
  {
  }

  lemma SkipSaveKeeps(c: Config, s: State, t: State)
    requires c.Valid() && Inv(c, s) && SkipSave(c, s, t)
    ensures Inv(c, t)
  {
  }

  lemma NewJobFits(c: Config, disk: Folder, tr: Trainer, sv: Saver, history: map<nat, seq<Tensor>>)
    requires c.Valid() && tr.phase == Saving && |tr.params| == c.shards
    requires tr.step in history && history[tr.step] == tr.params
    requires FindLoadStep(disk) < tr.step && c.SavesAt(tr.step) && NoSaveWithin(c, FindLoadStep(disk), tr.step - 1)
    requires Open(sv) && LastJob(sv) == Job(tr.step, map[], {}, false) && sv.stagingFuture.None?
    ensures SnapshotInv(c, tr, sv, history) && OpenInv(c, disk, tr, sv, history) && PhaseInv(c, disk, tr, sv, history)
  {
  }

  lemma BeginSaveKeeps(c: Config, s: State, t: State)
    requires c.Valid() && Inv(c, s) && BeginSave(c, s, t)
    ensures Inv(c, t)
  {
    PushJob(c, s.saver, t.saver, s.trainer.step);
    NewJobFits(c, t.disk, t.trainer, t.saver, t.history);
    assert Doomed(t.purger) == Doomed(s.purger);
    SaveCounts(c, s.disk.Keys, s.saver, t.saver, s.purger, t.purger);
  }

  /** The directory of the save before joins those the listing left. */
  lemma SaveCounts(c: Config, dirs: set<nat>, sv: Saver, sv': Saver, p: Purger, q: Purger)
    requires CountInv(c, dirs, sv, p) && Doomed(q) == Doomed(p) && |sv'.jobs| > 0
    requires q.swept == AfterSaveBegins(p.swept)
    ensures CountInv(c, dirs, sv', q)
  {
    var was, now := Survivors(dirs, sv, p), Survivors(dirs, sv', q);
    var own := if |sv.jobs| > 0 then {LastJob(sv).step} else {};
    assert now <= was + own;
    SubsetSize(now, was + own);
    assert |was + own| <= |was| + |own|;
  }

  /** The newest complete directory is never among the listed stale ones. */
  lemma ListingSparesLatest(c: Config, s: State, d: nat)
    requires c.Valid() && Inv(c, s)
    requires s.trainer.phase == Saving && SaveReturns(c, s.trainer.step, LastJob(s.saver)) && Purges(c, s.trainer.step)
    requires d in DropLargest(s.disk.Keys, c.keepLatestK)
    ensures d < FindLoadStep(s.disk)
  {
    var l := FindLoadStep(s.disk);
    var all := s.disk.Keys;
    if Open(s.saver) {
      var n := s.trainer.step;
      assert IsNextSave(c, l, n);
      assert Above(all, l) <= (Above(all, l) - {n}) + {n};
      SubsetSize(Above(all, l), (Above(all, l) - {n}) + {n});
    }
    DroppedIff(all, c.keepLatestK, d);
    if d >= l {
      assert Above(all, d) <= Above(all, l);
      SubsetSize(Above(all, d), Above(all, l));
    }
  }

  lemma SaveReturned(c: Config, disk: Folder, tr: Trainer, tr': Trainer, sv: Saver, history: map<nat, seq<Tensor>>)
    requires c.Valid() && JobsInv(c, sv) && tr.phase == Saving && |sv.jobs| > 0
    requires SnapshotInv(c, tr, sv, history) && OpenInv(c, disk, tr, sv, history) && PhaseInv(c, disk, tr, sv, history)
    requires SaveReturns(c, tr.step, LastJob(sv))
    requires tr' == tr.(phase := Ready) || tr' == tr.(phase := Purging)
    ensures var sv' := SaverAfterDispatch(c, tr.step, sv);
      && JobsInv(c, sv') && SnapshotInv(c, tr', sv', history)
      && OpenInv(c, disk, tr', sv', history) && PhaseInv(c, disk, tr', sv', history)
  {
    var sv' := SaverAfterDispatch(c, tr.step, sv);
    assert sv'.jobs == sv.jobs && LastJob(sv') == LastJob(sv) && Open(sv') == Open(sv);
  }

  lemma EndSaveKeeps(c: Config, s: State, t: State)
    requires c.Valid() && Inv(c, s) && EndSave(c, s, t)
    ensures Inv(c, t)
  {
    SaveReturned(c, s.disk, s.trainer, t.trainer, s.saver, s.history);
    EndSavePurgeInv(c, s, t);
  }

  lemma EndSavePurgeInv(c: Config, s: State, t: State)
    requires c.Valid() && Inv(c, s) && EndSave(c, s, t)
    ensures PurgeInv(t.disk, t.purger) && CountInv(c, t.disk.Keys, t.saver, t.purger)
  {
    assert t.saver.jobs == s.saver.jobs;
    if Purges(c, s.trainer.step) {
      forall d | d in Doomed(t.purger)
        ensures d < FindLoadStep(t.disk)
      {
        if d in t.purger.pending { ListingSparesLatest(c, s, d); } else { assert d in Doomed(s.purger); }
      }
      ListingBounds(c, s.disk.Keys, t.saver, t.purger);
    } else {
      assert Survivors(t.disk.Keys, t.saver, t.purger) == Survivors(s.disk.Keys, s.saver, s.purger);
    }
  }

  lemma ListingBounds(c: Config, dirs: set<nat>, sv: Saver, p: Purger)
    requires p.pending == DropLargest(dirs, c.keepLatestK)
    ensures |Survivors(dirs, sv, p)| <= c.keepLatestK
  {
    DropLargestLeavesK(dirs, c.keepLatestK);
    assert Survivors(dirs, sv, p) <= Kept(dirs, c.keepLatestK);
    SubsetSize(Survivors(dirs, sv, p), Kept(dirs, c.keepLatestK));
  }

  lemma EnqueueDooms(p: Purger, q: Purger)
    requires |p.pending| > 0
    requires q == p.(queue := p.queue + [p.pending[0]], pending := p.pending[1..])
    ensures Doomed(q) == Doomed(p)
  {
    assert p.pending == [p.pending[0]] + p.pending[1..];
  }

  lemma EnqueueKeeps(c: Config, s: State, t: State)
    requires c.Valid() && Inv(c, s) && Enqueue(s, t)
    ensures Inv(c, t)
  {
    EnqueueDooms(s.purger, t.purger);
    assert Survivors(t.disk.Keys, t.saver, t.purger) == Survivors(s.disk.Keys, s.saver, s.purger);
  }

  lemma EndPurgeKeeps(c: Config, s: State, t: State)
    requires c.Valid() && Inv(c, s) && EndPurge(s, t)
    ensures Inv(c, t)
  {
  }

  // ----- uploader steps -----

  lemma StageKeeps(c: Config, s: State, j: nat, i: nat, t: State)
    requires c.Valid() && Inv(c, s) && Stage(c, s, j, i, t)
    ensures Inv(c, t) && FindLoadStep(t.disk) >= FindLoadStep(s.disk)
  {
    assert Open(t.saver) == Open(s.saver) && Frontier(t.disk, t.saver) == Frontier(s.disk, s.saver);
    assert Survivors(t.disk.Keys, t.saver, t.purger) == Survivors(s.disk.Keys, s.saver, s.purger);
  }

  lemma MakeDirKeeps(c: Config, s: State, j: nat, t: State)
    requires c.Valid() && Inv(c, s) && MakeDir(s, j, t)
    ensures Inv(c, t) && FindLoadStep(t.disk) >= FindLoadStep(s.disk)
  {
    WriteUnfinished(c, s.disk, s.history, s.saver.jobs[j].step, Dir(map[], false));
    DirMade(c, s.disk, t.disk, s.trainer, s.saver, s.history);
    assert Survivors(t.disk.Keys, t.saver, t.purger) == Survivors(s.disk.Keys, s.saver, s.purger);
  }

  lemma DirMade(c: Config, disk: Folder, disk': Folder, tr: Trainer, sv: Saver, history: map<nat, seq<Tensor>>)
    requires Open(sv) && FindLoadStep(disk') == FindLoadStep(disk)
    requires OpenInv(c, disk, tr, sv, history) && PhaseInv(c, disk, tr, sv, history)
    requires LastJob(sv).step !in disk
    ensures OpenInv(c, disk', tr, sv, history) && PhaseInv(c, disk', tr, sv, history)
  {
  }

  lemma UploadKeeps(c: Config, s: State, j: nat, i: nat, t: State)
    requires c.Valid() && Inv(c, s) && Upload(s, j, i, t)
    ensures Inv(c, t) && FindLoadStep(t.disk) >= FindLoadStep(s.disk)
  {
    var job := s.saver.jobs[j];
    WriteUnfinished(c, s.disk, s.history, job.step, t.disk[job.step]);
    SetLastJob(c, s.saver, t.saver, j, job.(uploaded := job.uploaded + {i}));
    ShardWritten(c, s.disk, t.disk, s.trainer, s.saver, t.saver, s.history);
    assert Survivors(t.disk.Keys, t.saver, t.purger) == Survivors(s.disk.Keys, s.saver, s.purger);
  }

  lemma ShardWritten(c: Config, disk: Folder, disk': Folder, tr: Trainer, sv: Saver, sv': Saver, history: map<nat,
                     seq<Tensor>>)
    requires c.Valid() && Open(sv) && Open(sv') && FindLoadStep(disk') == FindLoadStep(disk)
    requires SnapshotInv(c, tr, sv, history) && OpenInv(c, disk, tr, sv, history) && PhaseInv(c, disk, tr, sv, history)
    requires sv'.stagingFuture == sv.stagingFuture && sv'.saveFuture == sv.saveFuture
    requires LastJob(sv').step == LastJob(sv).step && LastJob(sv').staged == LastJob(sv).staged
    requires LastJob(sv).step in disk && LastJob(sv).step in disk'
    requires exists i | i in LastJob(sv).staged ::
      && LastJob(sv').uploaded == LastJob(sv).uploaded + {i}
      && disk'[LastJob(sv).step].shards == disk[LastJob(sv).step].shards[i := LastJob(sv).staged[i]]
    ensures SnapshotInv(c, tr, sv', history) && OpenInv(c, disk', tr, sv', history)
    ensures PhaseInv(c, disk', tr, sv', history)
  {
  }

  lemma CommitKeeps(c: Config, s: State, j: nat, t: State)
    requires c.Valid() && Inv(c, s) && Commit(c, s, j, t)
    ensures Inv(c, t) && FindLoadStep(t.disk) >= FindLoadStep(s.disk)
  {
    var job := s.saver.jobs[j];
    CompleteNext(c, s.disk, s.history, job.step, t.disk[job.step]);
    SetLastJob(c, s.saver, t.saver, j, job.(committed := true));
    Committed(c, s.disk, t.disk, s.trainer, s.saver, t.saver, s.history);
    assert Survivors(t.disk.Keys, t.saver, t.purger) == Survivors(s.disk.Keys, s.saver, s.purger);
  }

  lemma Committed(c: Config, disk: Folder, disk': Folder, tr: Trainer, sv: Saver, sv': Saver, history: map<nat,
                  seq<Tensor>>)
    requires c.Valid() && Open(sv) && |sv'.jobs| > 0 && LastJob(sv') == LastJob(sv).(committed := true)
    requires FindLoadStep(disk') == LastJob(sv).step
    requires SnapshotInv(c, tr, sv, history) && PhaseInv(c, disk, tr, sv, history)
    requires sv'.stagingFuture == sv.stagingFuture && sv'.saveFuture == sv.saveFuture
    requires Purges(c, LastJob(sv).step) ==> |Above(disk'.Keys, LastJob(sv).step)| < c.keepLatestK
    ensures SnapshotInv(c, tr, sv', history) && OpenInv(c, disk', tr, sv', history)
    ensures PhaseInv(c, disk', tr, sv', history)
  {
  }

  // ----- purge steps -----

  lemma TakeDooms(p: Purger, q: Purger)
    requires p.purging.None? && |p.queue| > 0
    requires q == p.(purging := Some(p.queue[0]), queue := p.queue[1..])
    ensures Doomed(q) == Doomed(p)
  {
    assert p.queue == [p.queue[0]] + p.queue[1..];
  }

  lemma TakePurgeKeeps(c: Config, s: State, t: State)
    requires c.Valid() && Inv(c, s) && TakePurge(s, t)
    ensures Inv(c, t) && FindLoadStep(t.disk) >= FindLoadStep(s.disk)
  {
    TakeDooms(s.purger, t.purger);
    assert Survivors(t.disk.Keys, t.saver, t.purger) == Survivors(s.disk.Keys, s.saver, s.purger);
  }

  lemma RemoveFileKeeps(c: Config, s: State, d: Dir, t: State)
    requires c.Valid() && Inv(c, s) && RemoveFile(s, d, t)
    ensures Inv(c, t) && FindLoadStep(t.disk) >= FindLoadStep(s.disk)
  {
    assert s.purger.purging.value in Doomed(s.purger);
    DeletionBelow(c, s.disk, t.disk, s.history, s.purger.purging.value);
    assert Survivors(t.disk.Keys, t.saver, t.purger) == Survivors(s.disk.Keys, s.saver, s.purger);
  }

  lemma RemoveDirKeeps(c: Config, s: State, t: State)
    requires c.Valid() && Inv(c, s) && RemoveDir(s, t)
    ensures Inv(c, t) && FindLoadStep(t.disk) >= FindLoadStep(s.disk)
  {
    assert s.purger.purging.value in Doomed(s.purger);
    DeletionBelow(c, s.disk, t.disk, s.history, s.purger.purging.value);
    FewerDoomed(s.purger, t.purger);
    assert Survivors(t.disk.Keys, t.saver, t.purger) <= Survivors(s.disk.Keys, s.saver, s.purger);
    SubsetSize(Survivors(t.disk.Keys, t.saver, t.purger), Survivors(s.disk.Keys, s.saver, s.purger));
  }

  lemma FewerDoomed(p: Purger, q: Purger)
    requires q.queue == p.queue && q.pending == p.pending && q.purging == None
    ensures Doomed(q) <= Doomed(p)
  {
  }

  lemma FailPurgeKeeps(c: Config, s: State, t: State)
    requires c.Valid() && Inv(c, s) && (FailPurge(s, t) || Crash(s, t))
    ensures Inv(c, t) && FindLoadStep(t.disk) >= FindLoadStep(s.disk)
  {
    if FailPurge(s, t) {
      FewerDoomed(s.purger, t.purger);
    }
  }

  // ----- every step, every run -----

  lemma TrainerKeeps(c: Config, s: State, t: State)
    requires c.Valid() && Inv(c, s) && TrainerStep(c, s, t)
    ensures Inv(c, t) && FindLoadStep(t.disk) >= FindLoadStep(s.disk)
  {
    if init :| Load(c, s, init, t) { LoadKeeps(c, s, init, t); }
    else if v :| UpdateShard(s, v, t) { UpdateShardKeeps(c, s, v, t); }
    else if BeginStep(c, s, t) { BeginStepKeeps(c, s, t); }
    else if Finish(c, s, t) { FinishKeeps(c, s, t); }
    else if WaitForStaging(c, s, t) { WaitForStagingKeeps(c, s, t); }
    else if EndUpdate(s, t) { EndUpdateKeeps(c, s, t); }
    else if SkipSave(c, s, t) { SkipSaveKeeps(c, s, t); }
    else if WaitForSaving(c, s, t) { WaitForSavingKeeps(c, s, t); }
    else if BeginSave(c, s, t) { BeginSaveKeeps(c, s, t); }
    else if EndSave(c, s, t) { EndSaveKeeps(c, s, t); }
    else if Enqueue(s, t) { EnqueueKeeps(c, s, t); }
    else { EndPurgeKeeps(c, s, t); }
  }

  lemma UploaderKeeps(c: Config, s: State, t: State)
    requires c.Valid() && Inv(c, s) && UploaderStep(c, s, t)
    ensures Inv(c, t) && FindLoadStep(t.disk) >= FindLoadStep(s.disk)
  {
    if j, i :| Stage(c, s, j, i, t) { StageKeeps(c, s, j, i, t); }
    else if j :| MakeDir(s, j, t) { MakeDirKeeps(c, s, j, t); }
    else if j, i :| Upload(s, j, i, t) { UploadKeeps(c, s, j, i, t); }
    else { var j :| Commit(c, s, j, t); CommitKeeps(c, s, j, t); }
  }

  lemma NextKeeps(c: Config, s: State, t: State)
    requires c.Valid() && Inv(c, s) && Next(c, s, t)
    ensures Inv(c, t) && FindLoadStep(t.disk) >= FindLoadStep(s.disk)
  {
    if TrainerStep(c, s, t) { TrainerKeeps(c, s, t); }
    else if UploaderStep(c, s, t) { UploaderKeeps(c, s, t); }
    else if TakePurge(s, t) { TakePurgeKeeps(c, s, t); }
    else if d :| RemoveFile(s, d, t) { RemoveFileKeeps(c, s, d, t); }
    else if RemoveDir(s, t) { RemoveDirKeeps(c, s, t); }
    else { FailPurgeKeeps(c, s, t); }
  }

  lemma {:induction false} RunKeeps(c: Config, run: seq<State>, i: nat)
    requires c.Valid() && IsRun(c, run) && Inv(c, run[0]) && i < |run|
    ensures Inv(c, run[i])
  {
    if i > 0 {
      RunKeeps(c, run, i - 1);
      NextKeeps(c, run[i - 1], run[i]);
    }
  }

  // ----- what a run gives -----

  /** Nothing has started: the folder is empty, or holds a seed checkpoint. */
  ghost predicate FreshStart(c: Config, s: State) {
    && s.trainer.phase == Down && s.saver == IDLE_SAVER && s.purger == IDLE_PURGER
    && (s.disk == map[] || (s.disk.Keys == {0} && Intact(c, s.disk, s.history, 0))) && Sized(c, s)
  }

  lemma FreshStartInv(c: Config, s: State)
    requires c.Valid() && FreshStart(c, s)
    ensures Inv(c, s) && Sized(c, s)
  {
    if s.disk != map[] {
      LoadStepIs(s.disk, 0);
    }
    assert FindLoadStep(s.disk) >= 0 ==> s.disk.Keys == {0};
    forall n: nat
      ensures Above(s.disk.Keys, n) == {} && Above(s.disk.Keys, FindLoadStep(s.disk)) == {}
    {
    }
    forall n: nat
      ensures Above(s.disk.Keys, FindLoadStep(s.disk)) - {n} == {}
    {
    }
  }

  /** Every step writes what it should and no more. */
  lemma NextSized(c: Config, s: State, t: State)
    requires c.Valid() && Sized(c, s) && Next(c, s, t)
    ensures Sized(c, t)
  {
    if TrainerStep(c, s, t) {
      TrainerSized(c, s, t);
    } else if UploaderStep(c, s, t) {
      UploaderSized(c, s, t);
    } else if d :| RemoveFile(s, d, t) {
      assert forall e, i | e in t.disk && i in t.disk[e].shards :: e in s.disk && i in s.disk[e].shards;
    }
  }

  lemma TrainerSized(c: Config, s: State, t: State)
    requires Sized(c, s) && TrainerStep(c, s, t)
    ensures Sized(c, t)
  {
    assert t.disk == s.disk;
    assert forall j, i | 0 <= j < |t.saver.jobs| && i in t.saver.jobs[j].staged ::
      j < |s.saver.jobs| && t.saver.jobs[j] == s.saver.jobs[j];
  }

  lemma UploaderSized(c: Config, s: State, t: State)
    requires Sized(c, s) && UploaderStep(c, s, t)
    ensures Sized(c, t)
  {
    if j, i :| Stage(c, s, j, i, t) {
    } else if j :| MakeDir(s, j, t) {
    } else if j: nat, i: nat :| Upload(s, j, i, t) {
      assert i in s.saver.jobs[j].staged;
    }
  }

  lemma {:induction false} RunSized(c: Config, run: seq<State>, i: nat)
    requires c.Valid() && IsRun(c, run) && Sized(c, run[0]) && i < |run|
    ensures Sized(c, run[i])
  {
    if i > 0 {
      RunSized(c, run, i - 1);
      NextSized(c, run[i - 1], run[i]);
    }
  }

  lemma RunStep(c: Config, run: seq<State>, i: nat)
    requires c.Valid() && IsRun(c, run) && Inv(c, run[0]) && i + 1 < |run|
    ensures FindLoadStep(run[i + 1].disk) >= FindLoadStep(run[i].disk)
  {
    RunKeeps(c, run, i);
    NextKeeps(c, run[i], run[i + 1]);
  }

  lemma {:induction false} NonDecreasing(xs: seq<int>, i: nat, j: nat)
    requires i <= j < |xs|
    requires forall m, n | 0 <= m < n < |xs| && n == m + 1 :: xs[m] <= xs[n]
    ensures xs[i] <= xs[j]
    decreases j
  {
    if i < j {
      NonDecreasing(xs, i, j - 1);
    }
  }

  /** Any number of crashes and restarts included: what is complete stays so for ever after,
      at the same or a later step, with what its save writes of the parameters of that step. */
  lemma CrashSafe(c: Config, run: seq<State>, i: nat, j: nat)
    requires c.Valid() && IsRun(c, run) && Inv(c, run[0]) && i <= j < |run|
    ensures FindLoadStep(run[j].disk) >= FindLoadStep(run[i].disk)
    ensures LoadedStep(c, run[j].disk) >= 0 ==>
      Intact(c, run[j].disk, run[j].history, LoadedStep(c, run[j].disk))
  {
    var loads := seq(|run|, n requires 0 <= n < |run| => FindLoadStep(run[n].disk));
    forall m, n | 0 <= m < n < |run| && n == m + 1
      ensures loads[m] <= loads[n]
    {
      RunStep(c, run, m);
    }
    NonDecreasing(loads, i, j);
    RunKeeps(c, run, j);
  }

  /** Every load restores the newest complete step: all it asks for is that step's, which
      from step 1 on is everything. */
  lemma LoadRestores(c: Config, s: State, init: seq<Tensor>, t: State)
    requires c.Valid() && Inv(c, s) && Load(c, s, init, t) && LoadedStep(c, s.disk) >= 0
    requires Sized(c, s)
    ensures var l := FindLoadStep(s.disk);
      && l in s.history && |s.history[l]| == c.shards && t.trainer.step == l
      && (forall i | 0 <= i < c.Needed(l) :: t.trainer.params[i] == s.history[l][i])
      && (l > 0 ==> t.trainer.params == s.history[l])
  {
    var l := FindLoadStep(s.disk);
    forall i | 0 <= i < c.Needed(l)
      ensures t.trainer.params[i] == s.history[l][i]
    {
      assert i in s.disk[l].shards;
    }
  }

  /** Exactly when a stopped process can load its newest complete step: the seed checkpoint
      always, the last step only if it was saved whole, any other step always. */
  lemma LoadableIff(c: Config, s: State)
    requires c.Valid() && Inv(c, s) && Sized(c, s) && s.trainer.phase == Down && LoadedStep(c, s.disk) >= 0
    ensures (exists init, t :: Load(c, s, init, t))
      <==> FindLoadStep(s.disk) == 0 || FindLoadStep(s.disk) != c.trainingSteps || !c.lastModelOnly
  {
    var l := FindLoadStep(s.disk);
    if c.Needed(l) <= c.Written(l) {
      var t := State(s.disk, s.history, Trainer(Ready, l, s.history[l]), IDLE_SAVER, IDLE_PURGER);
      assert Load(c, s, s.history[l], t);
    } else {
      forall init, t
        ensures !Load(c, s, init, t)
      {
        assert c.modelShards !in s.disk[l].shards;
      }
    }
  }

  lemma NewestNeverDoomed(c: Config, run: seq<State>, i: nat)
    requires c.Valid() && IsRun(c, run) && Inv(c, run[0]) && i < |run|
    ensures FindLoadStep(run[i].disk) !in Doomed(run[i].purger)
  {
    RunKeeps(c, run, i);
  }

  lemma OneUploadInFlight(c: Config, run: seq<State>, i: nat, j1: nat, j2: nat)
    requires c.Valid() && IsRun(c, run) && Inv(c, run[0]) && i < |run|
    requires j1 < |run[i].saver.jobs| && j2 < |run[i].saver.jobs|
    requires !run[i].saver.jobs[j1].committed && !run[i].saver.jobs[j2].committed
    ensures j1 == j2
  {
    RunKeeps(c, run, i);
  }

  /** Pinned-memory staging overlaps later computation, yet the shards a commit seals are
      the parameters of the job's own step, and no staging is under way when save is entered. */
  lemma SnapshotIsolation(c: Config, run: seq<State>, i: nat, j: nat)
    requires c.Valid() && IsRun(c, run) && Inv(c, run[0]) && i + 1 < |run|
    requires Commit(c, run[i], j, run[i + 1])
    ensures Intact(c, run[i + 1].disk, run[i + 1].history, run[i].saver.jobs[j].step)
    ensures FindLoadStep(run[i + 1].disk) == run[i].saver.jobs[j].step
  {
    RunKeeps(c, run, i);
    var job := run[i].saver.jobs[j];
    CompleteNext(c, run[i].disk, run[i].history, job.step, run[i + 1].disk[job.step]);
  }

  lemma StagingClearAtSave(c: Config, run: seq<State>, i: nat)
    requires c.Valid() && IsRun(c, run) && Inv(c, run[0]) && i < |run| && run[i].trainer.phase == AtSave
    ensures run[i].saver.stagingFuture == None
    ensures forall j | 0 <= j < |run[i].saver.jobs| :: AllStaged(c, run[i].saver.jobs[j])
  {
    RunKeeps(c, run, i);
    var s := run[i];
    forall j | 0 <= j < |s.saver.jobs|
      ensures AllStaged(c, s.saver.jobs[j])
    {
      if j == |s.saver.jobs| - 1 {
        assert SnapshotInv(c, s.trainer, s.saver, s.history);
      } else {
        assert s.saver.jobs[j].committed;
      }
    }
  }

  /** Once a listed purge has drained without a failed deletion, at most k + 1 step
      directories are left until the next save begins: k, and the one still being written. The
      next save may add its own. */
  lemma DrainedCount(c: Config, run: seq<State>, i: nat)
    requires c.Valid() && IsRun(c, run) && Inv(c, run[0]) && i < |run|
    requires run[i].purger.swept != NotSwept && Doomed(run[i].purger) == {}
    ensures |run[i].disk| <= c.keepLatestK + if run[i].purger.swept == Listed then 1 else 2
  {
    RunKeeps(c, run, i);
    var s := run[i];
    var kept := Survivors(s.disk.Keys, s.saver, s.purger);
    var own := if |s.saver.jobs| > 0 then {LastJob(s.saver).step} else {};
    assert s.disk.Keys <= kept + own;
    SubsetSize(s.disk.Keys, kept + own);
    assert |kept + own| <= |kept| + |own|;
    assert |s.disk| == |s.disk.Keys|;
  }

  /** The purge stays swept: only a failed deletion or a crash ends it. */
  lemma SweptLasts(c: Config, run: seq<State>, i: nat)
    requires c.Valid() && IsRun(c, run) && Inv(c, run[0]) && i + 1 < |run|
    requires run[i].purger.swept != NotSwept && run[i + 1].purger.swept == NotSwept
    ensures FailPurge(run[i], run[i + 1]) || Crash(run[i], run[i + 1])
  {
    RunKeeps(c, run, i);
    SweptStep(c, run[i], run[i + 1]);
  }

  lemma SweptStep(c: Config, s: State, t: State)
    requires SweepInv(c, s.trainer, s.purger) && s.trainer.phase != Down && Next(c, s, t)
    requires s.purger.swept != NotSwept && t.purger.swept == NotSwept
    ensures FailPurge(s, t) || Crash(s, t)
  {
  }
}
