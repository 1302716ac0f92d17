/** The part of `execute_job` that holds the memory lock (agency/jobs/execution.py:338-559), together with
    ensuring and staging the memory (agency/memory/store.py:133-182).  Only the status of the job record is kept. */
module Execution {
  import opened Bytes
  import opened MemoryFiles
  import opened MemoryDisk
  import opened CanonicalReplace
  import opened Publication

  const MEMORY_MD: Name := [109, 101, 109, 111, 114, 121, 46, 109, 100]

  /** A memory as `_ensure_memory_locked` leaves it: unchanged, or one blank file when it was missing or empty. */
  function Ensured(found: Files): (r: Files)
    ensures r != map[]
  {
    if found == map[] then
      var blank: Files := map[MEMORY_MD := []];
      assert MEMORY_MD in blank;
      blank
    else found
  }

  /** The blank memory is `memory.md` without content, and a memory the store reads. */
  lemma BlankIsReadable()
    ensures Ensured(map[]).Keys == {[109, 101, 109, 111, 114, 121, 46, 109, 100]} && Readable(Ensured(map[]))
    ensures forall n | n in Ensured(map[]) :: Ensured(map[])[n] == []
  {
    var stem := MEMORY_MD[..|MEMORY_MD| - 3];
    assert |Upper(stem)| == 6;
    assert Upper(stem)[0] == 77 && MEMORY_MD[|MEMORY_MD| - 3..] == DOT_MD;
  }

  ghost predicate StagingCrash(found: Files, s: DiskState) {
    && s.journal.None? && s.job in {WaitingForMemory, Running, Failed}
    && (s.Files(Canonical) == found || s.Files(Canonical) == Ensured(found))
  }

  ghost predicate StagingCrashes(found: Files, before: set<CrashPoint>, after: set<CrashPoint>) {
    before <= after && forall c | c in after && c !in before :: c.site == Staging && StagingCrash(found, c.disk)
  }

  /** `_ensure_memory_locked` (store.py:133-148) */
  method EnsureMemory(disk: Disk) returns (ok: bool)
    requires disk.Valid() && disk.site == Staging && disk.journal.None? && disk.job == WaitingForMemory
    modifies disk`dirs, disk`crashes, disk`faults
    ensures disk.Faults(ok || !Readable(Ensured(old(disk.Snapshot()).Files(Canonical))))
    ensures disk.Valid()
    ensures StagingCrash(old(disk.Snapshot()).Files(Canonical), disk.Snapshot())
    ensures ok ==> Canonical in disk.dirs && disk.dirs[Canonical] == Ensured(old(disk.Snapshot()).Files(Canonical))
    ensures ok ==> Readable(disk.dirs[Canonical])
    ensures StagingCrashes(old(disk.Snapshot()).Files(Canonical), old(disk.crashes), disk.crashes)
  {
    if Canonical !in disk.dirs {
      ok := disk.MakeDir(Canonical);
      if !ok { return; }
    }
    if disk.dirs[Canonical] == map[] {
      ok := disk.WriteFile(Canonical, MEMORY_MD, []);
      if !ok { return; }
    }
    ok := Readable(disk.dirs[Canonical]) && disk.dirs[Canonical] != map[];
  }

  /** `_stage_memory_locked` after the memory is ensured (store.py:164-176) */
  method StageMemory(disk: Disk) returns (ok: bool)
    requires disk.Valid() && disk.site == Staging && disk.journal.None? && disk.job == WaitingForMemory
    requires Canonical in disk.dirs
    modifies disk`dirs, disk`crashes, disk`faults
    ensures disk.Faults(ok)
    ensures disk.Valid() && disk.Snapshot().Files(Canonical) == old(disk.dirs[Canonical]) && Canonical in disk.dirs
    ensures ok ==> Stage in disk.dirs && disk.dirs[Stage] == disk.dirs[Canonical]
    ensures StagingCrashes(old(disk.dirs[Canonical]), old(disk.crashes), disk.crashes)
  {
    var snapshot := disk.dirs[Canonical];
    ok := Recreate(disk, Stage);
    assert OnlyDir(Stage, old(disk.Snapshot()), disk.Snapshot());
    if !ok { return; }
    ok := WriteFiles(disk, Stage, snapshot);
  }

  /** A run of the agent: the stages it passes through, the one it leaves (`None` when the directory is gone), and
      whether it returned, with which exit code, or raised. */
  datatype AgentRun = AgentRun(during: seq<Option<Files>>, left: Option<Files>, returned: bool, exitCode: int)

  /** `integration.run` on an exact copy of the memory: any edits of the stage, any exit code, or an exception. */
  method RunIntegration(disk: Disk, run: AgentRun) returns (returned: bool, exitCode: int)
    requires disk.Valid()
    requires Canonical in disk.dirs && Stage in disk.dirs && disk.dirs[Stage] == disk.dirs[Canonical]
    modifies disk`dirs, disk`crashes
    ensures disk.Valid() && OnlyDir(Stage, old(disk.Snapshot()), disk.Snapshot())
    ensures returned == run.returned && exitCode == run.exitCode
    ensures disk.Snapshot().Files(Stage) == if run.left.Some? then run.left.value else map[]
    ensures CrashesIn(Stage, old(disk.Snapshot()), old(disk.crashes), disk.crashes, disk.site)
  {
    for i := 0 to |run.during|
      invariant disk.Valid() && OnlyDir(Stage, old(disk.Snapshot()), disk.Snapshot())
      invariant CrashesIn(Stage, old(disk.Snapshot()), old(disk.crashes), disk.crashes, disk.site)
    {
      EditStage(disk, run.during[i]);
    }
    EditStage(disk, run.left);
    returned, exitCode := run.returned, run.exitCode;
  }

  method EditStage(disk: Disk, edited: Option<Files>)
    requires disk.Valid()
    modifies disk`dirs, disk`crashes
    ensures disk.Valid() && OnlyDir(Stage, old(disk.Snapshot()), disk.Snapshot())
    ensures disk.Snapshot().Files(Stage) == if edited.Some? then edited.value else map[]
    ensures disk.crashes == old(disk.crashes) + {CrashPoint(disk.site, disk.Snapshot())}
  {
    disk.dirs := if edited.Some? then disk.dirs[Stage := edited.value] else disk.dirs - {Stage};
    disk.crashes := disk.crashes + {CrashPoint(disk.site, disk.Snapshot())};
  }

  /** `_terminalize_failure` (execution.py:144-177) */
  method TerminalizeFailure(disk: Disk) returns (ok: bool)
    requires disk.Valid()
    modifies disk`job, disk`crashes, disk`faults
    ensures disk.Faults(ok)
    ensures disk.Valid()
    ensures disk.job == old(disk.job) || (old(disk.job) in {Running, WaitingForMemory} && disk.job == Failed)
    ensures ok ==> disk.job == if old(disk.job) in {Running, WaitingForMemory} then Failed else old(disk.job)
    ensures disk.crashes == old(disk.crashes) ||
      disk.crashes == old(disk.crashes) + {CrashPoint(disk.site, disk.Snapshot())}
    ensures disk.job != old(disk.job) ==> CrashPoint(disk.site, disk.Snapshot()) in disk.crashes
  {
    if disk.job !in {Running, WaitingForMemory} { return true; }
    var r := disk.TransitionJob(disk.job, Failed);
    ok := r.Moved?;
  }

  datatype Prepared = Prepared(op: Operation) | PrepareConflict | PrepareError

  /** A stage that can be published. */
  predicate Publishable(stage: Files) { Readable(stage) && stage != map[] }

  /** `prepare_publication` (publication.py:96-157) */
  method PreparePublication(disk: Disk, baseRevision: Bytes) returns (r: Prepared)
    ensures r.PrepareConflict? ==> !AtRevision(disk.Snapshot(), baseRevision)
    ensures r.Prepared? <==> Readable(disk.Snapshot().Files(Canonical)) && AtRevision(disk.Snapshot(), baseRevision)
                             && Publishable(disk.Snapshot().Files(Stage))
    ensures r.Prepared? ==>
      && AtRevision(disk.Snapshot(), baseRevision)
      && r.op.WellFormed() && r.op.kind.Job? && r.op.oldRevision == baseRevision
      && r.op.oldFiles == disk.Snapshot().Files(Canonical)
      && r.op.newFiles == disk.Snapshot().Files(Stage) && r.op.newFiles != map[]
  {
    var oldFiles := disk.Snapshot().Files(Canonical);
    if !Readable(oldFiles) { return PrepareError; }
    var oldRevision := MemoryContentRevision(oldFiles);
    if oldRevision != baseRevision { return PrepareConflict; }
    var newFiles := disk.Snapshot().Files(Stage);
    if !Readable(newFiles) || newFiles == map[] { return PrepareError; }
    var newRevision := MemoryContentRevision(newFiles);
    r := Prepared.Prepared(Operation(Job, oldRevision, newRevision, oldFiles, newFiles, oldFiles == newFiles));
  }

  /** A job that fails before it publishes anything (execution.py:432-463, 503, 547-560). */
  method FailUnpublished(disk: Disk, ghost op: Operation)
    requires disk.Valid() && disk.site == Working && op.kind.Job?
    requires Explained(op, CrashPoint(Working, disk.Snapshot()))
    modifies disk`job, disk`crashes, disk`faults, disk`site
    ensures disk.Faults(disk.site == Finished)
    ensures disk.Valid() && disk.dirs == old(disk.dirs) && disk.journal.None?
    ensures AllExplained(op, old(disk.crashes), disk.crashes)
    ensures disk.job in {old(disk.job), Failed}
    ensures disk.site == Failing || (disk.site == Finished && disk.job == Failed)
  {
    disk.Enter(Failing);
    var ok := TerminalizeFailure(disk);
    if ok { disk.Enter(Finished); }
  }

  /** Finalize after a successful apply; an exception there is caught by `execute_job` (execution.py:472, 554). */
  method FinishApplied(disk: Disk, op: Operation)
    requires disk.Valid() && FinalizingCrash(op, disk.Snapshot()) && disk.site == Finalizing && disk.journal.Some?
    requires op.kind.Job?
    modifies disk`dirs, disk`journal, disk`job, disk`crashes, disk`faults, disk`site
    ensures disk.Faults(disk.site == Finished)
    ensures disk.Valid() && disk.Snapshot().Files(Canonical) == old(disk.Snapshot()).Files(Canonical)
    ensures disk.site == Finished || disk.site == Escaped
    ensures disk.site == Finished ==> disk.job == Complete && disk.journal.None?
    ensures AllExplained(op, old(disk.crashes), disk.crashes)
  {
    var ok := FinalizePublication(disk, op);
    if ok {
      disk.Enter(Finished);
    } else {
      EnterAs(disk, Escaped, op);
      var _ := TerminalizeFailure(disk);
    }
  }

  /** The job is over and its status tells which content the memory has. */
  ghost predicate Agrees(op: Operation, s: DiskState) {
    && s.journal.None?
    && (|| (s.job == Complete && s.Files(Canonical) == op.newFiles)
        || (s.job == Failed && s.Files(Canonical) == op.oldFiles))
  }

  /** execution.py:472-502 and 503-543 */
  method PublishPrepared(disk: Disk, op: Operation)
    requires disk.Valid() && Begun(op, disk.Snapshot()) && disk.job == Running && op.kind.Job?
    requires disk.dirs[Canonical] == op.oldFiles
    modifies disk`dirs, disk`journal, disk`job, disk`crashes, disk`faults, disk`nextTemp, disk`site
    ensures disk.Faults(disk.site == Finished && disk.job == Complete)
    ensures disk.Valid()
    ensures disk.site == Finished || disk.site == Escaped
    ensures disk.site == Finished ==> Agrees(op, disk.Snapshot())
    ensures AllExplained(op, old(disk.crashes), disk.crashes)
  {
    var applied := ApplyPublication(disk, op, true);
    match applied
    case Applied => FinishApplied(disk, op);
    case EscapedError => var _ := TerminalizeFailure(disk);
    case Refused =>
    case Conflicted => assert false;
  }

  /** execution.py:464-543: publish the stage and finish the job. */
  method PublishStage(disk: Disk, baseRevision: Bytes) returns (ghost op: Operation)
    requires disk.Valid() && disk.site == Working && disk.job == Running && disk.journal.None?
    requires Canonical in disk.dirs && Readable(disk.dirs[Canonical]) && AtRevision(disk.Snapshot(), baseRevision)
    modifies disk`dirs, disk`journal, disk`job, disk`crashes, disk`faults, disk`nextTemp, disk`site
    ensures var stage := old(disk.Snapshot()).Files(Stage);
            if Publishable(stage)
            then op.newFiles == stage && disk.Faults(disk.site == Finished && disk.job == Complete)
            else disk.job != Complete && disk.Faults(disk.site == Finished)
    ensures disk.Valid() && op.kind.Job? && op.WellFormed() && op.oldFiles == old(disk.dirs[Canonical])
    ensures disk.site in {Finished, Escaped, Failing}
    ensures disk.site == Finished ==> Agrees(op, disk.Snapshot())
    ensures AllExplained(op, old(disk.crashes), disk.crashes)
  {
    var prepared := PreparePublication(disk, baseRevision);
    if prepared.Prepared? {
      op := prepared.op;
      PublishPrepared(disk, prepared.op);
    } else {
      op := Operation(Job, baseRevision, baseRevision, disk.dirs[Canonical], disk.dirs[Canonical], true);
      FailUnpublished(disk, op);
    }
  }

  /** What a crash may leave, from taking the memory lock on: of the staging, then of the run and the publication. */
  ghost predicate JobCrashes(found: Files, op: Operation, before: set<CrashPoint>, after: set<CrashPoint>) {
    && before <= after
    && forall c | c in after && c !in before ::
        if c.site == Staging then StagingCrash(found, c.disk) else Explained(op, c)
  }

  /** The run of the agent and everything after it (execution.py:413-543): what it left is published when it returned
      with exit code zero and left files the store can read, and nothing is otherwise. */
  method RunAndPublish(disk: Disk, run: AgentRun) returns (ghost op: Operation)
    requires disk.Valid() && disk.site == Working && disk.job == Running && disk.journal.None?
    requires Canonical in disk.dirs && Readable(disk.dirs[Canonical])
    requires Stage in disk.dirs && disk.dirs[Stage] == disk.dirs[Canonical]
    modifies disk`dirs, disk`journal, disk`job, disk`crashes, disk`faults, disk`nextTemp, disk`site
    ensures
      if run.returned && run.exitCode == 0 && run.left.Some? && Readable(run.left.value) && run.left.value != map[]
      then op.newFiles == run.left.value && disk.Faults(disk.site == Finished && disk.job == Complete)
      else disk.job != Complete && disk.Faults(disk.site == Finished)
    ensures disk.Valid() && op.kind.Job? && op.WellFormed() && op.oldFiles == old(disk.dirs[Canonical])
    ensures disk.site in {Finished, Escaped, Failing}
    ensures disk.site == Finished ==> Agrees(op, disk.Snapshot())
    ensures AllExplained(op, old(disk.crashes), disk.crashes)
  {
    var baseRevision := MemoryContentRevision(disk.dirs[Canonical]);
    var returned, exitCode := RunIntegration(disk, run);
    assert disk.Snapshot().Files(Canonical) == old(disk.dirs[Canonical]);
    ghost var between := disk.crashes;
    if returned && exitCode == 0 {
      op := PublishStage(disk, baseRevision);
    } else {
      op := Operation(Job, baseRevision, baseRevision, disk.dirs[Canonical], disk.dirs[Canonical], true);
      FailUnpublished(disk, op);
    }
    forall c | c in between && c !in old(disk.crashes) ensures Explained(op, c) {
      assert c.disk.Files(Canonical) == old(disk.Snapshot()).Files(Canonical);
    }
  }

  /** Ensure, stage, and mark the job running (execution.py:346-362). */
  method StartRunning(disk: Disk) returns (ok: bool)
    requires disk.Valid() && disk.site == Staging && disk.journal.None? && disk.job == WaitingForMemory
    modifies disk`dirs, disk`job, disk`crashes, disk`faults
    ensures disk.Faults(ok || !Readable(Ensured(old(disk.Snapshot()).Files(Canonical))))
    ensures disk.Valid() && StagingCrash(old(disk.Snapshot()).Files(Canonical), disk.Snapshot()) && disk.job != Failed
    ensures ok ==> disk.job == Running && Canonical in disk.dirs && Readable(disk.dirs[Canonical])
    ensures ok ==> Stage in disk.dirs && disk.dirs[Stage] == disk.dirs[Canonical]
    ensures ok ==> disk.dirs[Canonical] == Ensured(old(disk.Snapshot()).Files(Canonical))
    ensures StagingCrashes(old(disk.Snapshot()).Files(Canonical), old(disk.crashes), disk.crashes)
  {
    ok := EnsureMemory(disk);
    if !ok { return; }
    ok := StageMemory(disk);
    if !ok { return; }
    var moved := disk.TransitionJob(WaitingForMemory, Running);
    ok := moved.Moved?;
  }

  /** The same, and the failed job when it does not come to a run (execution.py:554-559). */
  method StartOrFail(disk: Disk) returns (ok: bool)
    requires disk.Valid() && disk.site == Staging && disk.journal.None? && disk.job == WaitingForMemory
    modifies disk`dirs, disk`job, disk`crashes, disk`faults
    ensures !ok && Readable(Ensured(old(disk.Snapshot()).Files(Canonical))) ==> disk.faults > old(disk.faults)
    ensures ok ==> disk.faults == old(disk.faults)
    ensures ok ==> disk.Valid() && disk.job == Running && Canonical in disk.dirs && Readable(disk.dirs[Canonical])
    ensures ok ==> Stage in disk.dirs && disk.dirs[Stage] == disk.dirs[Canonical]
    ensures ok ==> disk.dirs[Canonical] == Ensured(old(disk.Snapshot()).Files(Canonical))
    ensures disk.Valid() && StagingCrashes(old(disk.Snapshot()).Files(Canonical), old(disk.crashes), disk.crashes)
  {
    ok := StartRunning(disk);
    if !ok { var _ := TerminalizeFailure(disk); }
  }

  /** The whole of what `execute_job` does once it has the memory lock.  Without a fault, over a readable memory, the
      job ends complete over what the agent left when the run succeeded with files to publish, and otherwise failed
      over the memory as it was found, or over a blank one. */
  method ExecuteLocked(disk: Disk, run: AgentRun) returns (ghost op: Operation)
    requires disk.Valid() && disk.site == Staging && disk.journal.None? && disk.job == WaitingForMemory
    modifies disk`dirs, disk`journal, disk`job, disk`crashes, disk`faults, disk`nextTemp, disk`site
    ensures
      var found := Ensured(old(disk.Snapshot()).Files(Canonical));
      Readable(found) && disk.faults == old(disk.faults) ==>
        && disk.site == Finished && disk.journal.None?
        && if run.returned && run.exitCode == 0 && run.left.Some? && Readable(run.left.value) && run.left.value != map[]
           then disk.job == Complete && disk.Snapshot().Files(Canonical) == run.left.value
           else disk.job == Failed && disk.Snapshot().Files(Canonical) == found
    ensures disk.Valid() && op.kind.Job? && op.WellFormed()
    ensures disk.site in {Finished, Escaped, Failing, Staging}
    ensures disk.site == Finished ==>
      Agrees(op, disk.Snapshot()) && op.oldFiles == Ensured(old(disk.Snapshot()).Files(Canonical))
    ensures JobCrashes(old(disk.Snapshot()).Files(Canonical), op, old(disk.crashes), disk.crashes)
  {
    op := Operation(Job, Revision(map[]), Revision(map[]), map[], map[], true);
    var ok := StartOrFail(disk);
    if ok {
      disk.Enter(Working);
      op := RunAndPublish(disk, run);
    }
  }
}
