/** A worker that crashes anywhere, followed by `reconcile_jobs` on what it left (agency/jobs/execution.py:338-559,
    agency/jobs/reconciliation.py:65-166). */
module CrashAndReconcile {
  import opened Bytes
  import opened MemoryFiles
  import opened MemoryDisk
  import opened Publication
  import opened Recovery
  import opened Execution
  import opened Reconciliation

  /** The store after a crash of the worker of job `id`: its memory, stage, backup, journal and job status are those
      the disk was left with. */
  function Crashed(w: World, k: Key, s: DiskState): World
    requires k.op in w.jobs
  {
    World(if Canonical in s.dirs then w.memories[k.memory := s.dirs[Canonical]] else w.memories - {k.memory},
          if Stage in s.dirs then w.stages[k := s.dirs[Stage]] else w.stages - {k},
          if Backup in s.dirs then w.backups[k := s.dirs[Backup]] else w.backups - {k},
          if s.journal.Some? then w.journals[k := Accepted(s.journal.value)] else w.journals - {k},
          w.jobs[k.op := w.jobs[k.op].(status := s.job)])
  }

  lemma CrashedSlot(w: World, k: Key, s: DiskState)
    requires k.op in w.jobs && w.jobs[k.op].memory == k.memory
    ensures Crashed(w, k, s).Slot(k) == Project(s)
  {
    var v := Crashed(w, k, s);
    forall d: Dir ensures d in v.Dirs(k) <==> d in Project(s).dirs {}
    assert v.Dirs(k) == Project(s).dirs;
  }

  /** No other journal in the store lies under the job's id, or is unusable and claims it. */
  ghost predicate OnlyOwnJournal(w: World, k: Key) {
    forall o | o in w.journals && o != k ::
      o.op != k.op && (w.journals[o].Unusable? ==> k.op !in w.journals[o].claims)
  }

  /** Then a recovery that meets no trouble with it bars the job exactly when it cannot settle the job's own journal. */
  lemma OwnJournalBars(w: World, k: Key, troubled: set<Key>, blocked: set<Id>)
    requires k.op in w.jobs && OnlyOwnJournal(w, k) && BarsRightly(w, troubled, blocked) && k !in troubled
    ensures k.op in blocked <==> Stuck(w, k)
  {
    if Stuck(w, k) { assert Names(w, k, k.op); }
  }

  /** What holds of a job and its memory after a crash at `c` and the two passes. */
  ghost predicate Reconciled(found: Files, op: Operation, c: CrashPoint, t: DiskState, barred: bool) {
    if c.site == Staging then
      t.Files(Canonical) in {found, Ensured(found)} && (!barred ==> t.job == Failed)
    else
      && t.Files(Canonical) == c.disk.Files(Canonical)
      && (Fit(op, c.disk) ==> Agreement(op, t))
      && (!barred ==> (Agreement(op, t) <==> Fit(op, c.disk)) && t.job in {Complete, Failed})
  }

  /** The worker runs, and crashes when the disk was in the state `crashed`; the reconciler then works on the store,
      with any other memories, journals and jobs in it. */
  method RunCrashReconcile(disk: Disk, run: AgentRun, others: World, id: Id, crashed: DiskState, available: bool,
                           troubled: set<Key>)
      returns (store: Store, blocked: set<Id>, ghost op: Operation)
    requires disk.Valid() && disk.site == Staging && disk.journal.None? && disk.job == WaitingForMemory
    requires id in others.jobs && others.jobs[id].worker.Dead?
    modifies disk`dirs, disk`journal, disk`job, disk`crashes, disk`faults, disk`nextTemp, disk`site
    ensures fresh(store) && op.kind.Job? && op.WellFormed()
    ensures
      NulFreeFiles(op.oldFiles) && NulFreeFiles(op.newFiles) ==>
        forall c | c in disk.crashes && c !in old(disk.crashes) && c.disk == crashed ::
          Reconciled(old(disk.Snapshot()).Files(Canonical), op, c, store.Snapshot().Slot(KeyOf(others, id)),
                     id in blocked)
    ensures
      var k := KeyOf(others, id);
      available && k !in troubled && OnlyOwnJournal(Crashed(others, k, crashed), k) ==>
        && (id in blocked <==> crashed.journal.Some? && Recover(Project(crashed)).Unrecovered?)
        && (id in blocked ==> store.Snapshot().Slot(k) == Project(crashed))
  {
    ghost var found := disk.Snapshot().Files(Canonical);
    op := ExecuteLocked(disk, run);
    var k := KeyOf(others, id);
    var w := Crashed(others, k, crashed);
    CrashedSlot(others, k, crashed);
    store := new Store(w);
    var failed, left;
    ghost var recovered;
    failed, left, blocked, recovered := store.ReconcileJobs(available, troubled);
    if available && k !in troubled && OnlyOwnJournal(w, k) {
      OwnJournalBars(w, k, troubled, blocked);
      if id in blocked { BarredStays(w, recovered, store.Snapshot(), id, blocked); }
    }
    forall c | c in disk.crashes && c !in old(disk.crashes) && c.disk == crashed
               && NulFreeFiles(op.oldFiles) && NulFreeFiles(op.newFiles)
      ensures Reconciled(found, op, c, store.Snapshot().Slot(k), id in blocked)
    {
      if !available {
        UntouchedIsReconciled(found, op, c);
      } else {
        CrashIsReconciled(found, op, c, w, recovered, store.Snapshot(), id, blocked);
      }
    }
  }

  lemma UntouchedIsReconciled(found: Files, op: Operation, c: CrashPoint)
    requires op.WellFormed() && op.kind.Job? && NulFreeFiles(op.oldFiles) && NulFreeFiles(op.newFiles)
    requires if c.site == Staging then StagingCrash(found, c.disk) else Explained(op, c)
    ensures Reconciled(found, op, c, Project(c.disk), true)
  {
    if c.site != Staging {
      CrashPointsAreOfOperation(op, c);
      ProjectIsLike(op, c.disk);
      AgreementOfContents(op, Project(c.disk));
    }
  }

  function KeyOf(w: World, id: Id): Key
    requires id in w.jobs
  {
    Key(w.jobs[id].memory, id)
  }

  lemma CrashIsReconciled(found: Files, op: Operation, c: CrashPoint, w: World, m: World, v: World, id: Id,
                          blocked: set<Id>)
    requires op.WellFormed() && op.kind.Job? && NulFreeFiles(op.oldFiles) && NulFreeFiles(op.newFiles)
    requires if c.site == Staging then StagingCrash(found, c.disk) else Explained(op, c)
    requires id in w.jobs && w.jobs[id].worker.Dead? && w.Slot(KeyOf(w, id)) == Project(c.disk)
    requires RecoveringTo(w, m, {}, blocked) && Swept(m, v, {}, blocked)
    ensures Reconciled(found, op, c, v.Slot(KeyOf(w, id)), id in blocked)
  {
    if c.site == Staging {
      EndToEndWhileStaging(found, c.disk, w, m, v, id, blocked);
    } else {
      EndToEnd(op, c, w, m, v, id, blocked);
    }
  }
}
