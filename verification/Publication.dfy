/** The write-ahead publication of a staged set of files over a memory (agency/memory/publication.py). */
module Publication {
  import opened Bytes
  import opened MemoryFiles
  import opened MemoryDisk
  import opened CanonicalReplace

  /** `_MemoryTransaction`: both contents and the revisions computed from them. */
  datatype Operation = Operation(kind: Kind, oldRevision: Bytes, newRevision: Bytes,
                                 oldFiles: Files, newFiles: Files, noChange: bool) {
    ghost predicate WellFormed() {
      && oldRevision == Revision(oldFiles) && newRevision == Revision(newFiles)
      && noChange == (oldFiles == newFiles)
      && Readable(oldFiles) && Readable(newFiles)
    }

    function JournalAt(phase: Phase): Journal { Journal(kind, oldRevision, newRevision, phase, noChange) }
  }

  // ----- what a crash may leave, by what the process was doing -----

  /** Journal present: the stage holds the new content, and from `backed_up` on a changed publication has a
      backup of the old content. */
  ghost predicate Journaled(op: Operation, s: DiskState) {
    s.journal.Some? ==>
      && s.journal.value == op.JournalAt(s.journal.value.phase)
      && Stage in s.dirs && s.dirs[Stage] == op.newFiles
      && (!op.noChange && !s.journal.value.phase.Prepared? ==> Backup in s.dirs && s.dirs[Backup] == op.oldFiles)
  }

  ghost predicate AtRevision(s: DiskState, revision: Bytes) {
    Revision(s.Files(Canonical)) == revision
  }

  /** No file of the memory comes from anywhere but the two contents. */
  ghost predicate Own(op: Operation, s: DiskState) { Mixed(op.oldFiles, op.newFiles, s) }

  ghost predicate PublishingCrash(op: Operation, s: DiskState) {
    && Journaled(op, s) && Own(op, s)
    && (s.journal.None? || s.journal.value.phase.Prepared? || op.noChange ==> AtRevision(s, op.oldRevision))
    && (s.journal.Some? && s.journal.value.phase.Published? ==> AtRevision(s, op.newRevision))
  }

  ghost predicate RolledBackCrash(op: Operation, s: DiskState) {
    && Journaled(op, s) && s.Files(Canonical) == op.oldFiles
    && (op.kind.Job? ==> s.job in {Running, Failed})
  }

  ghost predicate FinalizingCrash(op: Operation, s: DiskState) {
    && Journaled(op, s) && Own(op, s) && AtRevision(s, op.newRevision)
    && (s.journal.Some? ==> s.journal.value.phase.Published?)
    && (op.kind.Job? ==> s.job in {Running, Complete} && (s.journal.None? ==> s.job == Complete))
  }

  /** An exception has left the rollback or the finalization; the worker fails a job it still finds running. */
  ghost predicate EscapedCrash(op: Operation, s: DiskState) {
    && Journaled(op, s) && Own(op, s)
    && (op.kind.Job? ==> s.job in {Running, Complete, Failed} && (s.job == Complete ==> AtRevision(s, op.newRevision)))
  }

  ghost predicate Unstarted(op: Operation, s: DiskState) {
    s.journal.None? && Own(op, s) && AtRevision(s, op.oldRevision)
  }

  ghost predicate Explained(op: Operation, c: CrashPoint) {
    match c.site
    case Staging => false
    case Working => Unstarted(op, c.disk) && (op.kind.Job? ==> c.disk.job == Running)
    case Failing => Unstarted(op, c.disk) && (op.kind.Job? ==> c.disk.job in {Running, Failed})
    case Publishing => PublishingCrash(op, c.disk) && (op.kind.Job? ==> c.disk.job == Running)
    case RollingBack => Journaled(op, c.disk) && Own(op, c.disk) && (op.kind.Job? ==> c.disk.job == Running)
    case RolledBack => RolledBackCrash(op, c.disk)
    case Finalizing => FinalizingCrash(op, c.disk)
    case Finished =>
      && c.disk.journal.None? && Own(op, c.disk)
      && (op.kind.Job? ==>
            || (c.disk.job == Failed && AtRevision(c.disk, op.oldRevision))
            || (c.disk.job == Complete && AtRevision(c.disk, op.newRevision)))
    case Escaped => EscapedCrash(op, c.disk)
    case Recovering => false
  }

  ghost predicate AllExplained(op: Operation, before: set<CrashPoint>, after: set<CrashPoint>) {
    && before <= after
    && forall c | c in after && c !in before :: Explained(op, c)
  }

  /** The old content is in the memory, or complete in the publication backup. */
  ghost predicate OldContent(op: Operation, s: DiskState) {
    AtRevision(s, op.oldRevision) || (Backup in s.dirs && s.dirs[Backup] == op.oldFiles)
  }

  /** New crash points of the forward path only, each with the old content. */
  ghost predicate AllPublishing(op: Operation, before: set<CrashPoint>, after: set<CrashPoint>) {
    && AllExplained(op, before, after)
    && forall c | c in after && c !in before :: c.site == Publishing && OldContent(op, c.disk)
  }

  // ----- the durable steps -----

  datatype TxResult = Committed | Conflict | TxFailed

  /** The state in which nothing of the operation is on disk except its stage.  A memory at the old revision is taken
      to have the old content, as it does unless payloads hold NULs. */
  ghost predicate Begun(op: Operation, s: DiskState) {
    && op.WellFormed() && (AtRevision(s, op.oldRevision) ==> Own(op, s)) && s.journal.None? && Canonical in s.dirs
    && Stage in s.dirs && s.dirs[Stage] == op.newFiles
  }

  /** Every durable state since `before` was recorded at `site` and differs from `start` in `d` only. */
  ghost predicate CrashesIn(d: Dir, start: DiskState, before: set<CrashPoint>, after: set<CrashPoint>, site: Site) {
    before <= after && forall c | c in after && c !in before :: c.site == site && OnlyDir(d, start, c.disk)
  }

  lemma CrashesInTrans(d: Dir, start: DiskState, mid: DiskState, before: set<CrashPoint>,
                       between: set<CrashPoint>, after: set<CrashPoint>, site: Site)
    requires CrashesIn(d, start, before, between, site) && OnlyDir(d, start, mid)
    requires CrashesIn(d, mid, between, after, site)
    ensures CrashesIn(d, start, before, after, site)
  {}

  /** Atomic writes of `files` into an empty directory. */
  method WriteFiles(disk: Disk, d: Dir, files: Files) returns (ok: bool)
    requires disk.Valid() && d in disk.dirs && disk.dirs[d] == map[]
    modifies disk`dirs, disk`crashes, disk`faults
    ensures disk.Faults(ok)
    ensures disk.Valid() && OnlyDir(d, old(disk.Snapshot()), disk.Snapshot()) && d in disk.dirs
    ensures ok ==> disk.dirs[d] == files
    ensures CrashesIn(d, old(disk.Snapshot()), old(disk.crashes), disk.crashes, disk.site)
  {
    var pending := files.Keys;
    while pending != {}
      invariant disk.Faults(true)
      invariant pending <= files.Keys && disk.Valid() && d in disk.dirs
      invariant OnlyDir(d, old(disk.Snapshot()), disk.Snapshot())
      invariant disk.dirs[d] == Restrict(files, files.Keys - pending)
      invariant CrashesIn(d, old(disk.Snapshot()), old(disk.crashes), disk.crashes, disk.site)
      decreases pending
    {
      var name :| name in pending;
      OnlyDirPut(d, old(disk.Snapshot()), disk.Snapshot(), disk.dirs[d][name := files[name]]);
      ok := disk.WriteFile(d, name, files[name]);
      if !ok { return; }
      pending := pending - {name};
    }
    assert Restrict(files, files.Keys) == files;
    ok := true;
  }

  /** Remove a directory if it exists and make it again, empty. */
  method Recreate(disk: Disk, d: Dir) returns (ok: bool)
    requires disk.Valid() && !d.Temp?
    modifies disk`dirs, disk`crashes, disk`faults
    ensures disk.Faults(ok)
    ensures disk.Valid() && OnlyDir(d, old(disk.Snapshot()), disk.Snapshot())
    ensures ok ==> d in disk.dirs && disk.dirs[d] == map[]
    ensures CrashesIn(d, old(disk.Snapshot()), old(disk.crashes), disk.crashes, disk.site)
  {
    if d in disk.dirs {
      ok := disk.RemoveTree(d);
      if !ok { return; }
    }
    ok := disk.MakeDir(d);
  }

  /** `_write_backup` (publication.py:533-538) */
  method WriteBackup(disk: Disk, files: Files) returns (ok: bool)
    requires disk.Valid()
    modifies disk`dirs, disk`crashes, disk`faults
    ensures disk.Faults(ok)
    ensures disk.Valid() && OnlyDir(Backup, old(disk.Snapshot()), disk.Snapshot())
    ensures ok ==> Backup in disk.dirs && disk.dirs[Backup] == files
    ensures CrashesIn(Backup, old(disk.Snapshot()), old(disk.crashes), disk.crashes, disk.site)
  {
    ok := Recreate(disk, Backup);
    if !ok { return; }
    ghost var mid, between := disk.Snapshot(), disk.crashes;
    ok := WriteFiles(disk, Backup, files);
    CrashesInTrans(Backup, old(disk.Snapshot()), mid, old(disk.crashes), between, disk.crashes, disk.site);
  }

  lemma BackupMayChange(op: Operation, s: DiskState, t: DiskState)
    requires PublishingCrash(op, s) && OnlyDir(Backup, s, t)
    requires s.journal.Some? && s.journal.value.phase.Prepared?
    ensures PublishingCrash(op, t)
  {}

  lemma ExplainBackup(op: Operation, s: DiskState, before: set<CrashPoint>, after: set<CrashPoint>)
    requires PublishingCrash(op, s) && (op.kind.Job? ==> s.job == Running)
    requires s.journal.Some? && s.journal.value.phase.Prepared?
    requires CrashesIn(Backup, s, before, after, Publishing)
    ensures AllPublishing(op, before, after)
  {
    forall c | c in after && c !in before ensures Explained(op, c) && c.site == Publishing && OldContent(op, c.disk) {
      BackupMayChange(op, s, c.disk);
    }
  }

  /** During the replacement the journal says `backed_up`, so nothing is asked of the memory itself. */
  lemma ExplainReplace(op: Operation, r: Replacement, discarded: set<Name>, before: set<CrashPoint>,
    after: set<CrashPoint>)
    requires Journaled(op, r.start) && r.start.journal == Some(op.JournalAt(BackedUp)) && !op.noChange
    requires Own(op, r.start) && r.files == op.newFiles
    requires op.kind.Job? ==> r.start.job == Running
    requires NewCrashes(r, before, after, Publishing, discarded)
    ensures AllPublishing(op, before, after)
  {
    forall c | c in after && c !in before ensures Explained(op, c) && c.site == Publishing && OldContent(op, c.disk) {
      assert Framed(r.start, c.disk);
    }
  }

  /** The steps of a changed publication after the `prepared` journal (publication.py:372-387). */
  method PublishChanged(disk: Disk, op: Operation) returns (ok: bool)
    requires disk.Valid() && PublishingCrash(op, disk.Snapshot()) && disk.site == Publishing
    requires disk.journal == Some(op.JournalAt(Prepared)) && !op.noChange && Canonical in disk.dirs
    requires op.newRevision == Revision(op.newFiles) && (op.kind.Job? ==> disk.job == Running)
    modifies disk`dirs, disk`journal, disk`crashes, disk`faults, disk`nextTemp
    ensures disk.Faults(ok)
    ensures disk.Valid() && Canonical in disk.dirs && Journaled(op, disk.Snapshot()) && Own(op, disk.Snapshot())
    ensures ok ==> disk.journal == Some(op.JournalAt(Published)) && disk.dirs[Canonical] == op.newFiles
    ensures AllPublishing(op, old(disk.crashes), disk.crashes)
  {
    ok := WriteBackup(disk, op.oldFiles);
    BackupMayChange(op, old(disk.Snapshot()), disk.Snapshot());
    ExplainBackup(op, old(disk.Snapshot()), old(disk.crashes), disk.crashes);
    assert Canonical in disk.dirs;
    if !ok { return; }
    ok := BackUpAndReplace(disk, op);
  }

  /** The next phase is written to the journal of a changed operation: the backup is whole, and for `published` the new
      content is in place. */
  method WritePhase(disk: Disk, op: Operation, phase: Phase) returns (ok: bool)
    requires disk.Valid() && Journaled(op, disk.Snapshot()) && Own(op, disk.Snapshot()) && disk.site == Publishing
    requires disk.journal.Some? && !op.noChange && (op.kind.Job? ==> disk.job == Running)
    requires Backup in disk.dirs && disk.dirs[Backup] == op.oldFiles && !phase.Prepared?
    requires phase.Published? ==> AtRevision(disk.Snapshot(), op.newRevision)
    requires disk.journal == Some(op.JournalAt(Prepared)) ==> AtRevision(disk.Snapshot(), op.oldRevision)
    requires disk.journal != Some(op.JournalAt(Published))
    modifies disk`journal, disk`crashes, disk`faults
    ensures disk.Faults(ok)
    ensures disk.Valid() && Journaled(op, disk.Snapshot()) && Own(op, disk.Snapshot())
    ensures ok ==> disk.journal == Some(op.JournalAt(phase))
    ensures AllPublishing(op, old(disk.crashes), disk.crashes)
  {
    ok := disk.WriteJournal(op.JournalAt(phase));
  }

  method BackUpAndReplace(disk: Disk, op: Operation) returns (ok: bool)
    requires disk.Valid() && PublishingCrash(op, disk.Snapshot()) && disk.site == Publishing
    requires disk.journal == Some(op.JournalAt(Prepared)) && !op.noChange && Canonical in disk.dirs
    requires Backup in disk.dirs && disk.dirs[Backup] == op.oldFiles && op.newRevision == Revision(op.newFiles)
    requires op.kind.Job? ==> disk.job == Running
    modifies disk`dirs, disk`journal, disk`crashes, disk`faults, disk`nextTemp
    ensures disk.Faults(ok)
    ensures disk.Valid() && Canonical in disk.dirs && Journaled(op, disk.Snapshot()) && Own(op, disk.Snapshot())
    ensures ok ==> disk.journal == Some(op.JournalAt(Published)) && disk.dirs[Canonical] == op.newFiles
    ensures AllPublishing(op, old(disk.crashes), disk.crashes)
  {
    ok := WritePhase(disk, op, BackedUp);
    if !ok { return; }
    ok := ReplaceBackedUp(disk, op);
    if !ok { return; }
    ok := WritePhase(disk, op, Published);
  }

  /** The new files take the place of the old ones, under a journal at `backed_up` (publication.py:378-381). */
  method ReplaceBackedUp(disk: Disk, op: Operation) returns (ok: bool)
    requires disk.Valid() && disk.site == Publishing && Canonical in disk.dirs && !op.noChange
    requires disk.journal == Some(op.JournalAt(BackedUp)) && Journaled(op, disk.Snapshot()) && Own(op, disk.Snapshot())
    requires op.kind.Job? ==> disk.job == Running
    modifies disk`dirs, disk`crashes, disk`faults, disk`nextTemp
    ensures disk.Faults(ok)
    ensures disk.Valid() && Canonical in disk.dirs && Journaled(op, disk.Snapshot()) && Own(op, disk.Snapshot())
    ensures ok ==> disk.dirs[Canonical] == op.newFiles
    ensures AllPublishing(op, old(disk.crashes), disk.crashes)
  {
    var outcome, replacement, discarded := ReplaceCanonicalFiles(disk, op.newFiles);
    ExplainReplace(op, replacement, discarded, old(disk.crashes), disk.crashes);
    ok := outcome == Done;
  }

  /** The transaction once the revision is checked (publication.py:357-391). */
  method RunChecked(disk: Disk, op: Operation) returns (ok: bool)
    requires disk.Valid() && Begun(op, disk.Snapshot()) && disk.site == Publishing
    requires AtRevision(disk.Snapshot(), op.oldRevision) && (op.kind.Job? ==> disk.job == Running)
    modifies disk`dirs, disk`journal, disk`crashes, disk`faults, disk`nextTemp
    ensures disk.Faults(ok)
    ensures disk.Valid() && Canonical in disk.dirs && Journaled(op, disk.Snapshot()) && Own(op, disk.Snapshot())
    ensures ok ==>
      && disk.journal == Some(op.JournalAt(Published))
      && disk.dirs[Canonical] == if op.noChange then old(disk.dirs[Canonical]) else op.newFiles
    ensures AllPublishing(op, old(disk.crashes), disk.crashes)
  {
    ok := disk.WriteJournal(op.JournalAt(Prepared));
    if !ok { return; }
    if op.noChange {
      ok := disk.WriteJournal(op.JournalAt(Published));
    } else {
      ok := PublishChanged(disk, op);
    }
  }

  /** `_run_transaction_locked` (publication.py:341-391) */
  method RunTransactionLocked(disk: Disk, op: Operation) returns (result: TxResult)
    requires disk.Valid() && Begun(op, disk.Snapshot()) && disk.site == Publishing
    requires op.kind.Job? ==> disk.job == Running
    modifies disk`dirs, disk`journal, disk`crashes, disk`faults, disk`nextTemp
    ensures disk.Faults(!result.TxFailed? || !Readable(old(disk.dirs[Canonical])))
    ensures disk.Valid() && Canonical in disk.dirs && Journaled(op, disk.Snapshot())
    ensures AtRevision(old(disk.Snapshot()), op.oldRevision) ==> Own(op, disk.Snapshot())
    ensures result.Conflict? ==> disk.Snapshot() == old(disk.Snapshot())
    ensures result.Conflict? ==> !AtRevision(disk.Snapshot(), op.oldRevision)
    ensures !AtRevision(old(disk.Snapshot()), op.oldRevision) ==>
      && disk.Snapshot() == old(disk.Snapshot()) && disk.crashes == old(disk.crashes)
      && result == if Readable(old(disk.dirs[Canonical])) then Conflict else TxFailed
    ensures result.Committed? ==>
      && disk.journal == Some(op.JournalAt(Published))
      && disk.dirs[Canonical] == if op.noChange then old(disk.dirs[Canonical]) else op.newFiles
    ensures AllPublishing(op, old(disk.crashes), disk.crashes)
  {
    if !Readable(disk.dirs[Canonical]) { return TxFailed; }
    var currentRevision := MemoryContentRevision(disk.dirs[Canonical]);
    if currentRevision != op.oldRevision { return Conflict; }
    var ok := RunChecked(disk, op);
    return if ok then Committed else TxFailed;
  }

  // ----- cleanup, finalization, rollback -----

  ghost method EnterAs(disk: Disk, where: Site, op: Operation)
    requires disk.Valid() && Explained(op, CrashPoint(where, disk.Snapshot()))
    modifies disk`site, disk`crashes
    ensures disk.Valid() && disk.site == where && AllExplained(op, old(disk.crashes), disk.crashes)
    ensures disk.crashes == old(disk.crashes) + {CrashPoint(where, disk.Snapshot())}
  {
    disk.Enter(where);
  }

  /** While the journal is still there nothing else has gone; afterwards only backup and stage shrink. */
  ghost predicate CleanupCrash(start: DiskState, s: DiskState) {
    && s.job == start.job
    && (s.journal.Some? ==> s == start)
    && forall k: Dir | k != Stage && k != Backup :: (k in s.dirs <==> k in start.dirs) && s.Files(k) == start.Files(k)
  }

  ghost predicate CleanupCrashes(start: DiskState, before: set<CrashPoint>, after: set<CrashPoint>, site: Site) {
    before <= after && forall c | c in after && c !in before :: c.site == site && CleanupCrash(start, c.disk)
  }

  lemma ExtendCleanup(start: DiskState, s: DiskState, d: Dir, before: set<CrashPoint>, between: set<CrashPoint>,
                      after: set<CrashPoint>, site: Site)
    requires CleanupCrashes(start, before, between, site) && CleanupCrash(start, s) && s.journal.None?
    requires CrashesIn(d, s, between, after, site) && (d == Stage || d == Backup)
    ensures CleanupCrashes(start, before, after, site)
  {}

  /** `_cleanup_paths`: the journal first, then the backup, then the stage (publication.py:574-585). */
  method CleanupPaths(disk: Disk) returns (ok: bool)
    requires disk.Valid()
    modifies disk`dirs, disk`journal, disk`crashes, disk`faults
    ensures disk.Faults(ok)
    ensures disk.Valid() && CleanupCrash(old(disk.Snapshot()), disk.Snapshot())
    ensures ok ==> disk.journal.None? && Backup !in disk.dirs && Stage !in disk.dirs
    ensures CleanupCrashes(old(disk.Snapshot()), old(disk.crashes), disk.crashes, disk.site)
  {
    ok := true;
    if disk.journal.Some? {
      ok := disk.UnlinkJournal();
      if !ok { return; }
    }
    if Backup in disk.dirs {
      ghost var s, between := disk.Snapshot(), disk.crashes;
      ok := disk.RemoveTree(Backup);
      ExtendCleanup(old(disk.Snapshot()), s, Backup, old(disk.crashes), between, disk.crashes, disk.site);
      if !ok { return; }
    }
    if Stage in disk.dirs {
      ghost var s, between := disk.Snapshot(), disk.crashes;
      ok := disk.RemoveTree(Stage);
      ExtendCleanup(old(disk.Snapshot()), s, Stage, old(disk.crashes), between, disk.crashes, disk.site);
    }
  }

  /** `_mark_complete` and `_mark_failed`: move a running job, or find it already there (publication.py:541-571). */
  method Mark(disk: Disk, status: Status) returns (ok: bool)
    requires disk.Valid()
    modifies disk`job, disk`crashes, disk`faults
    ensures disk.Valid() && disk.Faults(ok || old(disk.job) !in {Running, status})
    ensures ok ==> disk.job == status
    ensures disk.job == old(disk.job) || (old(disk.job) == Running && disk.job == status)
    ensures old(disk.job) !in {Running, status} ==> !ok
    ensures disk.crashes == old(disk.crashes) + {CrashPoint(disk.site, disk.Snapshot())}
  {
    var r := disk.TransitionJob(Running, status);
    ok := r.Moved? || (r.Invalid? && disk.job == status);
  }

  /** `finalize_publication` (publication.py:203-221), and the cleanup of a direct save (publication.py:249-253). */
  method FinalizePublication(disk: Disk, op: Operation) returns (ok: bool)
    requires disk.Valid() && FinalizingCrash(op, disk.Snapshot()) && disk.site == Finalizing && disk.journal.Some?
    modifies disk`dirs, disk`journal, disk`job, disk`crashes, disk`faults
    ensures op.kind.DirectSave? || old(disk.job) in {Running, Complete} ==> disk.Faults(ok)
    ensures disk.Valid() && disk.Snapshot().Files(Canonical) == old(disk.Snapshot().Files(Canonical))
    ensures Canonical in disk.dirs <==> Canonical in old(disk.dirs)
    ensures op.kind.DirectSave? ==> disk.job == old(disk.job)
    ensures ok ==> disk.journal.None? && Backup !in disk.dirs && Stage !in disk.dirs
    ensures ok && op.kind.Job? ==> disk.job == Complete
    ensures FinalizingCrash(op, disk.Snapshot())
    ensures AllExplained(op, old(disk.crashes), disk.crashes)
  {
    if op.kind.Job? {
      ok := Mark(disk, Complete);
      if !ok { return; }
    }
    ghost var start, before := disk.Snapshot(), disk.crashes;
    ok := CleanupPaths(disk);
    forall c | c in disk.crashes && c !in before ensures Explained(op, c) {
      assert CleanupCrash(start, c.disk);
    }
  }

  /** The cleanup after a rollback, which may stop anywhere. */
  method CleanRolledBack(disk: Disk, op: Operation) returns (ok: bool)
    requires disk.Valid() && Canonical in disk.dirs && disk.dirs[Canonical] == op.oldFiles
    requires RolledBackCrash(op, disk.Snapshot()) && disk.site == Site.RolledBack
    modifies disk`dirs, disk`journal, disk`crashes, disk`faults
    ensures disk.Faults(ok)
    ensures disk.Valid() && Canonical in disk.dirs && disk.dirs[Canonical] == op.oldFiles
    ensures ok ==> disk.journal.None?
    ensures AllExplained(op, old(disk.crashes), disk.crashes) && RolledBackCrash(op, disk.Snapshot())
    ensures forall c | c in disk.crashes && c !in old(disk.crashes) :: c.site == Site.RolledBack
  {
    ghost var start, before := disk.Snapshot(), disk.crashes;
    ok := CleanupPaths(disk);
    forall c | c in disk.crashes && c !in before ensures Explained(op, c) {
      assert CleanupCrash(start, c.disk);
    }
  }

  /** The end of a rollback: mark the job failed, then clean up (publication.py:418-427). */
  method FinishRollback(disk: Disk, op: Operation) returns (ok: bool)
    requires disk.Valid() && Canonical in disk.dirs
    requires Journaled(op, disk.Snapshot()) && disk.dirs[Canonical] == op.oldFiles
    requires op.oldRevision == Revision(op.oldFiles) && (op.kind.Job? ==> disk.job == Running)
    modifies disk`dirs, disk`journal, disk`job, disk`crashes, disk`faults, disk`site
    ensures disk.Faults(ok)
    ensures disk.Valid() && Canonical in disk.dirs && disk.dirs[Canonical] == op.oldFiles
    ensures ok ==> disk.journal.None? && (op.kind.Job? ==> disk.job == Failed) && disk.site == Finished
    ensures op.kind.DirectSave? ==> disk.job == old(disk.job)
    ensures AllExplained(op, old(disk.crashes), disk.crashes)
    ensures forall c | c in disk.crashes && c !in old(disk.crashes) :: c.site != RollingBack
    ensures RolledBackCrash(op, disk.Snapshot())
  {
    ok := true;
    EnterAs(disk, Site.RolledBack, op);
    if op.kind.Job? {
      ok := Mark(disk, Failed);
      if !ok { return; }
    }
    ok := CleanRolledBack(disk, op);
    if ok { EnterAs(disk, Finished, op); }
  }

  lemma ExplainRollback(op: Operation, r: Replacement, discarded: set<Name>, before: set<CrashPoint>,
    after: set<CrashPoint>)
    requires Journaled(op, r.start) && Own(op, r.start) && r.files == op.oldFiles
    requires op.kind.Job? ==> r.start.job == Running
    requires NewCrashes(r, before, after, RollingBack, discarded)
    ensures AllExplained(op, before, after)
  {
    forall c | c in after && c !in before ensures Explained(op, c) {
      assert Framed(r.start, c.disk);
    }
  }

  /** Copying the stage's files into the job's artifacts may raise (publication.py:411-417). */
  method KeepArtifacts(disk: Disk) returns (ok: bool)
    requires disk.Valid()
    modifies disk`faults
    ensures disk.Faults(ok) && disk.Valid()
  {
    ok := disk.Succeeds();
    disk.faults := disk.faults + if ok then 0 else 1;
  }

  /** The old files replace whatever is there (publication.py:406-410). */
  method PutBack(disk: Disk, op: Operation)
    returns (ok: bool, ghost replacement: Replacement, ghost discarded: set<Name>)
    requires disk.Valid() && Canonical in disk.dirs && Journaled(op, disk.Snapshot()) && disk.site == RollingBack
    requires op.kind.Job? ==> disk.job == Running
    modifies disk`dirs, disk`crashes, disk`faults, disk`nextTemp
    ensures disk.Faults(ok)
    ensures disk.Valid() && Canonical in disk.dirs && Journaled(op, disk.Snapshot())
    ensures ok ==> disk.dirs[Canonical] == op.oldFiles
    ensures replacement.start == old(disk.Snapshot()) && replacement.files == op.oldFiles
    ensures Own(op, old(disk.Snapshot())) ==>
      Own(op, disk.Snapshot()) && AllExplained(op, old(disk.crashes), disk.crashes)
    ensures RollingBackConserves(replacement, discarded, old(disk.crashes), disk.crashes)
  {
    var outcome;
    outcome, replacement, discarded := ReplaceCanonicalFiles(disk, op.oldFiles);
    if Own(op, old(disk.Snapshot())) { ExplainRollback(op, replacement, discarded, old(disk.crashes), disk.crashes); }
    ok := outcome == Done;
  }

  /** The restoring half of a rollback (publication.py:401-417). */
  method RestoreOldFiles(disk: Disk, op: Operation, retain: bool)
    returns (ok: bool, ghost replacement: Replacement, ghost discarded: set<Name>)
    requires disk.Valid() && Canonical in disk.dirs && Journaled(op, disk.Snapshot())
    requires op.kind.Job? ==> disk.job == Running
    modifies disk`dirs, disk`crashes, disk`faults, disk`nextTemp, disk`site
    ensures disk.Faults(ok)
    ensures disk.Valid() && Canonical in disk.dirs && Journaled(op, disk.Snapshot())
    ensures ok ==> disk.dirs[Canonical] == op.oldFiles
    ensures replacement.start == old(disk.Snapshot()) && replacement.files == op.oldFiles
    ensures Own(op, old(disk.Snapshot())) ==>
      Own(op, disk.Snapshot()) && AllExplained(op, old(disk.crashes), disk.crashes)
    ensures RollingBackConserves(replacement, discarded, old(disk.crashes), disk.crashes)
  {
    disk.Enter(RollingBack);
    ok, replacement, discarded := PutBack(disk, op);
    if ok && retain && op.kind.Job? { ok := KeepArtifacts(disk); }
  }

  /** `_rollback_failed_transaction` (publication.py:394-427).  `ok` is false when an exception leaves the rollback
      itself; `replacement` is its use of the replacement loop. */
  method RollbackFailedTransaction(disk: Disk, op: Operation, retain: bool)
    returns (ok: bool, ghost replacement: Replacement, ghost discarded: set<Name>)
    requires disk.Valid() && op.WellFormed() && Canonical in disk.dirs && Journaled(op, disk.Snapshot())
    requires op.kind.Job? ==> disk.job == Running
    modifies disk`dirs, disk`journal, disk`job, disk`crashes, disk`faults, disk`nextTemp, disk`site
    ensures disk.Faults(ok)
    ensures disk.Valid() && Canonical in disk.dirs
    ensures ok ==> disk.dirs[Canonical] == op.oldFiles && disk.journal.None? && disk.site == Finished
    ensures ok && op.kind.Job? ==> disk.job == Failed
    ensures op.kind.DirectSave? ==> disk.job == old(disk.job)
    ensures replacement.start == old(disk.Snapshot()) && replacement.files == op.oldFiles
    ensures Own(op, old(disk.Snapshot())) ==>
      EscapedCrash(op, disk.Snapshot()) && AllExplained(op, old(disk.crashes), disk.crashes)
    ensures RollingBackConserves(replacement, discarded, old(disk.crashes), disk.crashes)
  {
    ok, replacement, discarded := RestoreOldFiles(disk, op, retain);
    if ok {
      ghost var restored := disk.crashes;
      ok := FinishRollback(disk, op);
      LaterSites(replacement, discarded, old(disk.crashes), restored, disk.crashes);
    }
  }

  /** Every crash while the old files are being put back loses none of the files the rollback found. */
  ghost predicate RollingBackConserves(r: Replacement, discarded: set<Name>, before: set<CrashPoint>,
                                       after: set<CrashPoint>) {
    forall c | c in after && c !in before && c.site == RollingBack :: ReplaceCrash(r, c.disk, discarded)
  }

  lemma LaterSites(r: Replacement, discarded: set<Name>, before: set<CrashPoint>, between: set<CrashPoint>,
                   after: set<CrashPoint>)
    requires RollingBackConserves(r, discarded, before, between) && between <= after
    requires forall c | c in after && c !in between :: c.site != RollingBack
    ensures RollingBackConserves(r, discarded, before, after)
  {}

  /** Until the journal reaches `backed_up` the files a rollback finds are the old content, so a crash while it
      puts them back finds each of them in the memory or in the evacuation directory.  Once the journal is at
      `backed_up` the backup has them all. */
  lemma RollbackCrashKeepsOldContent(op: Operation, r: Replacement, s: DiskState)
    requires op.WellFormed() && Journaled(op, r.start) && ReplaceCrash(r, s, {}) && r.files == op.oldFiles
    requires r.start.journal.None? || r.start.journal.value.phase.Prepared? ==> r.Original() == op.oldFiles
    requires !op.noChange
    ensures Conserved(op.oldFiles, s, r.evac) || (Backup in s.dirs && s.dirs[Backup] == op.oldFiles)
  {
    assert Framed(r.start, s);
    assert r.Original() - {} == r.Original();
  }

  // ----- the two ways in -----

  datatype ApplyResult = Applied | Conflicted | Refused | EscapedError

  /** The memory can be read and is at the revision the operation started from. */
  ghost predicate UpToDate(op: Operation, s: DiskState) {
    Readable(s.Files(Canonical)) && AtRevision(s, op.oldRevision)
  }

  ghost method EnterPublishing(disk: Disk, op: Operation)
    requires disk.Valid() && Begun(op, disk.Snapshot()) && (op.kind.Job? ==> disk.job == Running)
    modifies disk`crashes, disk`site
    ensures disk.Valid() && disk.site == Publishing
    ensures AtRevision(disk.Snapshot(), op.oldRevision) ==> AllExplained(op, old(disk.crashes), disk.crashes)
  {
    disk.Enter(Publishing);
  }

  /** The transaction, and on success the step into the finalization (publication.py:165-191). */
  method Transact(disk: Disk, op: Operation) returns (tx: TxResult)
    requires disk.Valid() && Begun(op, disk.Snapshot())
    requires op.kind.Job? ==> disk.job == Running
    modifies disk`dirs, disk`journal, disk`crashes, disk`faults, disk`nextTemp, disk`site
    ensures UpToDate(op, old(disk.Snapshot())) ==> disk.Faults(!tx.TxFailed?)
    ensures disk.Valid() && Canonical in disk.dirs && Journaled(op, disk.Snapshot())
    ensures disk.site == if tx.Committed? then Finalizing else Publishing
    ensures !AtRevision(old(disk.Snapshot()), op.oldRevision) ==>
      disk.Snapshot() == old(disk.Snapshot()) &&
        tx == if Readable(old(disk.dirs[Canonical])) then Conflict else TxFailed
    ensures tx.Conflict? ==> !AtRevision(old(disk.Snapshot()), op.oldRevision)
    ensures tx.Committed? ==>
      && disk.journal.Some? && FinalizingCrash(op, disk.Snapshot())
      && disk.dirs[Canonical] == if op.noChange then old(disk.dirs[Canonical]) else op.newFiles
    ensures AtRevision(old(disk.Snapshot()), op.oldRevision) ==>
      Own(op, disk.Snapshot()) && AllExplained(op, old(disk.crashes), disk.crashes)
  {
    EnterPublishing(disk, op);
    tx := RunTransactionLocked(disk, op);
    if tx.Committed? { EnterAs(disk, Finalizing, op); }
  }

  /** `apply_publication` (publication.py:159-200), under the memory lock. */
  method ApplyPublication(disk: Disk, op: Operation, retain: bool) returns (result: ApplyResult)
    requires disk.Valid() && Begun(op, disk.Snapshot())
    requires op.kind.Job? ==> disk.job == Running
    modifies disk`dirs, disk`journal, disk`job, disk`crashes, disk`faults, disk`nextTemp, disk`site
    ensures UpToDate(op, old(disk.Snapshot())) ==> disk.Faults(result.Applied?)
    ensures UpToDate(op, old(disk.Snapshot())) && result.EscapedError? ==> disk.faults >= old(disk.faults) + 2
    ensures disk.Valid() && Canonical in disk.dirs
    ensures result.Conflicted? ==> !AtRevision(old(disk.Snapshot()), op.oldRevision)
    ensures Readable(old(disk.dirs[Canonical])) && !AtRevision(old(disk.Snapshot()), op.oldRevision) ==>
      result.Conflicted? && disk.Snapshot() == old(disk.Snapshot())
    ensures result.Applied? ==>
      && AtRevision(old(disk.Snapshot()), op.oldRevision)
      && disk.job == old(disk.job) && disk.journal.Some? && FinalizingCrash(op, disk.Snapshot())
      && disk.dirs[Canonical] == if op.noChange then old(disk.dirs[Canonical]) else op.newFiles
    ensures result.Refused? ==> disk.dirs[Canonical] == op.oldFiles && disk.journal.None?
    ensures result.Refused? && op.kind.Job? ==> disk.job == Failed
    ensures op.kind.DirectSave? ==> disk.job == old(disk.job)
    ensures disk.site == match result
      case Applied => Finalizing case Conflicted => Publishing case Refused => Finished case EscapedError => Escaped
    ensures AtRevision(old(disk.Snapshot()), op.oldRevision) && result.EscapedError? ==>
      EscapedCrash(op, disk.Snapshot())
    ensures AtRevision(old(disk.Snapshot()), op.oldRevision) ==> AllExplained(op, old(disk.crashes), disk.crashes)
  {
    var tx := Transact(disk, op);
    match tx
    case Committed => result := Applied;
    case Conflict => result := Conflicted;
    case TxFailed => result := RollbackAfterError(disk, op, retain);
  }

  /** The `except Exception` branch of an apply (publication.py:193-200). */
  method RollbackAfterError(disk: Disk, op: Operation, retain: bool) returns (result: ApplyResult)
    requires disk.Valid() && op.WellFormed() && Canonical in disk.dirs && Journaled(op, disk.Snapshot())
    requires op.kind.Job? ==> disk.job == Running
    modifies disk`dirs, disk`journal, disk`job, disk`crashes, disk`faults, disk`nextTemp, disk`site
    ensures disk.Faults(result.Refused?)
    ensures disk.Valid() && Canonical in disk.dirs
    ensures result.Refused? || result.EscapedError?
    ensures disk.site == if result.Refused? then Finished else Escaped
    ensures result.Refused? ==> disk.dirs[Canonical] == op.oldFiles && disk.journal.None?
    ensures result.Refused? && op.kind.Job? ==> disk.job == Failed
    ensures op.kind.DirectSave? ==> disk.job == old(disk.job)
    ensures Own(op, old(disk.Snapshot())) && result.EscapedError? ==> EscapedCrash(op, disk.Snapshot())
    ensures Own(op, old(disk.Snapshot())) ==> AllExplained(op, old(disk.crashes), disk.crashes)
  {
    var ok, _, _ := RollbackFailedTransaction(disk, op, retain);
    if ok {
      result := Refused;
    } else {
      disk.Enter(Escaped);
      result := EscapedError;
    }
  }

  datatype SaveResult = Saved | SaveRefused | SaveEscaped

  /** `_save_direct_locked` (publication.py:224-254) for the content `oldFiles` read under the same lease. */
  method SaveDirectLocked(disk: Disk, oldFiles: Files, newFiles: Files) returns (result: SaveResult, op: Operation)
    requires disk.Valid() && Canonical in disk.dirs && disk.dirs[Canonical] == oldFiles && disk.journal.None?
    requires Readable(oldFiles) && Readable(newFiles) && disk.site == Working
    modifies disk`dirs, disk`journal, disk`job, disk`crashes, disk`faults, disk`nextTemp, disk`site
    ensures disk.Faults(result.Saved?)
    ensures disk.Valid() && Canonical in disk.dirs && disk.job == old(disk.job)
    ensures op.WellFormed() && op.kind.DirectSave? && op.oldFiles == oldFiles && op.newFiles == newFiles
    ensures result.Saved? ==> disk.dirs[Canonical] == newFiles && disk.journal.None?
    ensures result.SaveRefused? ==> disk.dirs[Canonical] == oldFiles
    ensures AllExplained(op, old(disk.crashes), disk.crashes)
  {
    var oldRevision := MemoryContentRevision(oldFiles);
    var newRevision := MemoryContentRevision(newFiles);
    op := Operation(DirectSave, oldRevision, newRevision, oldFiles, newFiles, oldFiles == newFiles);
    var ok := StageDirect(disk, op);
    if !ok { return SaveRefused, op; }
    var applied := ApplyPublication(disk, op, false);
    match applied
    case Applied =>
      ok := FinalizePublication(disk, op);
      result := if ok then Saved else SaveEscaped;
    case Conflicted => assert false; result := SaveEscaped;
    case Refused => result := SaveRefused;
    case EscapedError => result := SaveEscaped;
  }

  /** The stage of a direct save (publication.py:302-315). */
  method StageDirect(disk: Disk, op: Operation) returns (ok: bool)
    requires disk.Valid() && Canonical in disk.dirs && disk.dirs[Canonical] == op.oldFiles && disk.journal.None?
    requires op.WellFormed() && op.kind.DirectSave? && disk.site == Working
    modifies disk`dirs, disk`crashes, disk`faults
    ensures disk.Faults(ok)
    ensures disk.Valid() && disk.Snapshot().Files(Canonical) == op.oldFiles && Canonical in disk.dirs
    ensures ok ==> Stage in disk.dirs && disk.dirs[Stage] == op.newFiles
    ensures AllExplained(op, old(disk.crashes), disk.crashes)
  {
    ok := Recreate(disk, Stage);
    if !ok { return; }
    ok := WriteFiles(disk, Stage, op.newFiles);
  }
}
