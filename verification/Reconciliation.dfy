/** `recover_publications` over every journal on disk and `reconcile_jobs` over every job
    (agency/memory/recovery.py:40-92, 195-216; agency/jobs/reconciliation.py:65-166). */
module Reconciliation {
  import opened Bytes
  import opened MemoryFiles
  import opened MemoryDisk
  import opened CanonicalReplace
  import opened Publication
  import opened Recovery
  import opened Execution

  type Hash = Bytes
  type Id = Bytes

  /** A journal, a stage and a publication backup are named by the memory and the operation. */
  datatype Key = Key(memory: Hash, op: Id)

  /** A journal that passes the checks on its own payload, or one that does not and the ids it mentions. */
  datatype JournalFile = Accepted(journal: Journal) | Unusable(claims: set<Id>)

  /** What `worker_alive` reports. */
  datatype Liveness = Alive | Dead | Unknown

  datatype JobRecord = JobRecord(status: Status, memory: Hash, worker: Liveness)

  datatype World = World(memories: map<Hash, Files>, stages: map<Key, Files>, backups: map<Key, Files>,
                         journals: map<Key, JournalFile>, jobs: map<Id, JobRecord>) {

    predicate Owns(k: Key) { k.op in jobs && jobs[k.op].memory == k.memory }

    /** The journal of `k` resolves to an operation: `_operation_from_payload` returns. */
    predicate Usable(k: Key) {
      k in journals && journals[k].Accepted? && (journals[k].journal.kind.Job? ==> Owns(k))
    }

    predicate Present(k: Key, d: Dir) {
      match d
      case Canonical => k.memory in memories
      case Stage => k in stages
      case Backup => k in backups
      case Temp(_) => false
    }

    function Content(k: Key, d: Dir): Files
      requires Present(k, d)
    {
      match d
      case Canonical => memories[k.memory]
      case Stage => stages[k]
      case Backup => backups[k]
    }

    function Dirs(k: Key): (m: map<Dir, Files>)
      ensures forall d: Dir :: d in m <==> Present(k, d)
      ensures forall d: Dir | d in m :: m[d] == Content(k, d)
    {
      map d | d in {Canonical, Stage, Backup} && Present(k, d) :: Content(k, d)
    }

    /** The part of the world one operation is about. */
    function Slot(k: Key): DiskState {
      DiskState(Dirs(k),
                if k in journals && journals[k].Accepted? then Some(journals[k].journal) else None,
                if Owns(k) then jobs[k.op].status else Queued)
    }

    /** `_barrier_job_ids` */
    function Barrier(k: Key): set<Id> {
      var mentioned := if k in journals && journals[k].Unusable? then journals[k].claims + {k.op} else {k.op};
      set id | id in mentioned && id in jobs
    }
  }

  // ----- one crashed operation -----

  /** The two passes on one operation whose worker is confirmed dead; the flag says whether recovery refused it. */
  ghost function ReconcileSlot(s: DiskState): (DiskState, bool) {
    if s.journal.Some? && Recover(s).Unrecovered? then (s, true)
    else
      var t := if s.journal.Some? then Recover(s).disk else s;
      (if t.job in {Running, WaitingForMemory} then t.(job := Failed) else t, false)
  }

  /** What the passes may do to one operation with a dead worker, refusals and I/O errors included. */
  ghost predicate SlotReconciled(s: DiskState, t: DiskState, blocked: bool) {
    || (!blocked && t == ReconcileSlot(s).0 && !ReconcileSlot(s).1)
    || (blocked && (t == s || (s.journal.Some? && RecoveryCrash(s, t))))
  }

  /** The job's status and the memory's content agree. */
  ghost predicate Agreement(op: Operation, t: DiskState) {
    && (t.job == Complete ==> t.Files(Canonical) == op.newFiles)
    && (t.job == Failed ==> t.Files(Canonical) == op.oldFiles)
  }

  /** The agreement over revisions, as recovery can check it. */
  ghost predicate RevisionAgreement(op: Operation, t: DiskState) {
    && (t.job == Complete ==> AtRevision(t, op.newRevision))
    && (t.job == Failed ==> AtRevision(t, op.oldRevision))
  }

  /** The state belongs to the operation: its files, its journal, a job that has started to run. */
  ghost predicate OfOperation(op: Operation, s: DiskState) {
    && Own(op, s) && s.job in {Running, Complete, Failed}
    && (s.journal.Some? ==> s.journal.value == op.JournalAt(s.journal.value.phase))
  }

  /** Read off the disk: a job that is over agrees with the memory, and a running job without a journal has changed
      nothing. */
  ghost predicate Fit(op: Operation, s: DiskState) {
    RevisionAgreement(op, s) && (s.journal.None? && s.job == Running ==> AtRevision(s, op.oldRevision))
  }

  ghost predicate Sane(op: Operation, s: DiskState) { OfOperation(op, s) && Fit(op, s) }

  lemma CrashPointsAreOfOperation(op: Operation, c: CrashPoint)
    requires op.WellFormed() && op.kind.Job? && Explained(op, c)
    ensures OfOperation(op, c.disk)
  {
    assert Journaled(op, c.disk);
    if c.site == Site.RolledBack {
      assert c.disk.Files(Canonical) == op.oldFiles;
    }
  }

  /** All crash points are fit but those after an exception has left the rollback or the finalization, and those of a
      rollback that has no journal yet. */
  lemma CrashPointsAreFit(op: Operation, c: CrashPoint)
    requires op.WellFormed() && op.kind.Job? && Explained(op, c)
    requires c.site != Escaped && (c.site != RollingBack || c.disk.journal.Some?)
    ensures Fit(op, c.disk)
  {
    assert Journaled(op, c.disk);
    if c.site == Site.RolledBack {
      assert c.disk.Files(Canonical) == op.oldFiles;
    }
  }

  /** The two passes leave job and memory in agreement if and only if the state they find is fit. */
  lemma AgreementExactly(op: Operation, s: DiskState)
    requires op.WellFormed() && op.kind.Job? && OfOperation(op, s)
    ensures RevisionAgreement(op, ReconcileSlot(s).0) <==> Fit(op, s)
  {
    if s.journal.Some? && Recover(s).Recovered? { RecoverFromAnyState(s); }
  }

  lemma RecoveryKeepsSane(op: Operation, s: DiskState, t: DiskState)
    requires op.kind.Job? && Sane(op, s) && s.journal.Some? && RecoveryCrash(s, t)
    ensures Sane(op, t) && t.Files(Canonical) == s.Files(Canonical)
    ensures t.job == Running ==> t == s
  {
    if t != s {
      RecoverFromAnyState(s);
      assert t.job == Wanted(s) && t.Files(Canonical) == s.Files(Canonical);
    }
  }

  lemma RecoveredIsRecoveryCrash(s: DiskState)
    requires s.journal.Some? && Recover(s).Recovered?
    ensures RecoveryCrash(s, Recover(s).disk)
  {
    var marked := s.(job := Wanted(s));
    var t := Recover(s).disk;
    forall k: Dir | k != Stage && k != Backup
      ensures (k in t.dirs <==> k in s.dirs) && t.Files(k) == s.Files(k) {}
    assert CleanupCrash(marked, t);
  }

  lemma ReconcileKeepsSane(op: Operation, s: DiskState, t: DiskState, blocked: bool)
    requires op.kind.Job? && Sane(op, s) && SlotReconciled(s, t, blocked)
    ensures Sane(op, t) && t.Files(Canonical) == s.Files(Canonical)
    ensures !blocked ==> t.job in {Complete, Failed} && t.journal.None?
    ensures blocked && t.job == Running ==> t == s
  {
    if blocked {
      if t != s { RecoveryKeepsSane(op, s, t); }
    } else if s.journal.Some? {
      var u := Recover(s).disk;
      RecoveredIsRecoveryCrash(s);
      RecoveryKeepsSane(op, s, u);
      assert t == u || t == u.(job := Failed);
    } else {
      assert t == s || t == s.(job := Failed);
    }
  }

  /** Over NUL-free contents the agreement of revisions is one of contents. */
  lemma AgreementOfContents(op: Operation, t: DiskState)
    requires op.WellFormed() && NulFreeFiles(op.oldFiles) && NulFreeFiles(op.newFiles) && Own(op, t)
    ensures Agreement(op, t) <==> RevisionAgreement(op, t)
  {
    var current := t.Files(Canonical);
    assert NulFreeFiles(current);
    if RevisionAgreement(op, t) {
      if t.job == Complete { RevisionInjective(current, op.newFiles); }
      if t.job == Failed { RevisionInjective(current, op.oldFiles); }
    }
  }

  /** An unfit crash point of the first kind: an operation that fails before its journal exists is rolled back by
      moving the very old files out and in again, and a crash in between is reconciled to a failed job over an emptied
      memory.  The files themselves are all in the evacuation directory. */
  lemma UnjournaledRollbackIsExposed(op: Operation, begun: DiskState) returns (r: Replacement, s: DiskState)
    requires op.WellFormed() && op.kind.Job? && op.oldFiles != map[]
    requires Begun(op, begun) && begun.Files(Canonical) == op.oldFiles && begun.job == Running
    requires forall t: nat :: Temp(t) !in begun.dirs
    ensures r.start == begun && r.files == op.oldFiles && r.Fresh() && ReplaceCrash(r, s, {})
    ensures Explained(op, CrashPoint(RollingBack, s)) && Conserved(op.oldFiles, s, r.evac) && !Fit(op, s)
    ensures
      var (t, blocked) := ReconcileSlot(s);
      !blocked && t.job == Failed && t.Files(Canonical) != op.oldFiles && !RevisionAgreement(op, t)
  {
    r := Replacement(begun, op.oldFiles, 0, 1);
    s := MidRollback(op, begun);
    MidRollbackFacts(op, begun);
    MidRollbackCrash(op, begun);
    MidRollbackIsUnfit(op, s);
  }

  /** An emptied memory without a journal, under a job that is still running. */
  lemma MidRollbackIsUnfit(op: Operation, s: DiskState)
    requires op.WellFormed() && op.kind.Job? && op.oldFiles != map[]
    requires s.journal.None? && s.job == Running && s.Files(Canonical) == map[]
    ensures Explained(op, CrashPoint(RollingBack, s)) && !Fit(op, s)
    ensures
      var (t, blocked) := ReconcileSlot(s);
      !blocked && t.job == Failed && t.Files(Canonical) != op.oldFiles && !RevisionAgreement(op, t)
  {
    NoRevisionIsEmpty(op.oldFiles);
    CrashPointsAreOfOperation(op, CrashPoint(RollingBack, s));
    AgreementExactly(op, s);
  }

  lemma MidRollbackCrash(op: Operation, begun: DiskState)
    requires Begun(op, begun) && begun.Files(Canonical) == op.oldFiles && forall t: nat :: Temp(t) !in begun.dirs
    ensures ReplaceCrash(Replacement(begun, op.oldFiles, 0, 1), MidRollback(op, begun), {})
    ensures Conserved(op.oldFiles, MidRollback(op, begun), 1)
  {
    MidRollbackFacts(op, begun);
    MidRollbackConserves(op, begun);
    assert op.oldFiles - {} == op.oldFiles;
  }

  /** Scratch and evacuation directory both hold the old files, the memory none. */
  function MidRollback(op: Operation, begun: DiskState): DiskState {
    begun.Put(Canonical, map[]).Put(Temp(0), op.oldFiles).Put(Temp(1), op.oldFiles)
  }

  lemma FramedPut(before: DiskState, s: DiskState, t: nat, files: Files)
    requires Framed(before, s) && Temp(t) !in before.dirs
    ensures
      var u := s.Put(Temp(t), files);
      Framed(before, u) && u.Files(Canonical) == s.Files(Canonical)
  {}

  lemma MidRollbackFacts(op: Operation, begun: DiskState)
    requires Begun(op, begun) && forall t: nat :: Temp(t) !in begun.dirs
    ensures
      var s := MidRollback(op, begun);
      && s.journal == begun.journal && s.job == begun.job && s.Files(Canonical) == map[]
      && Framed(begun, s)
  {
    var emptied := begun.Put(Canonical, map[]);
    FramedPut(begun, emptied, 0, op.oldFiles);
    FramedPut(begun, emptied.Put(Temp(0), op.oldFiles), 1, op.oldFiles);
  }

  lemma MidRollbackConserves(op: Operation, begun: DiskState)
    ensures Conserved(op.oldFiles, MidRollback(op, begun), 1)
  {}

  /** Of the second kind: when the finalization of a changed publication fails before the job is marked, the worker
      marks the job failed over the new content, and every later recovery refuses that state. */
  lemma EscapedFinalizationDisagrees(op: Operation, f: DiskState)
    requires op.WellFormed() && op.kind.Job? && !op.noChange
    requires FinalizingCrash(op, f) && f.journal.Some? && f.job == Running && f.Files(Canonical) == op.newFiles
    ensures
      var s := f.(job := Failed);
      && Explained(op, CrashPoint(Escaped, s)) && !Agreement(op, s) && ReconcileSlot(s) == (s, true)
      && (op.oldRevision != op.newRevision ==> !Fit(op, s) && !RevisionAgreement(op, ReconcileSlot(s).0))
  {
    var s := f.(job := Failed);
    CrashPointsAreOfOperation(op, CrashPoint(Escaped, s));
    AgreementExactly(op, s);
  }

  // ----- all journals, all jobs -----

  /** Recovery leaves the memory alone and makes no directory. */
  lemma RecoveryStaysInSlot(s: DiskState, t: DiskState)
    requires s.journal.Some? && RecoveryCrash(s, t)
    ensures forall d: Dir | d != Stage && d != Backup :: (d in t.dirs <==> d in s.dirs) && t.Files(d) == s.Files(d)
    ensures t.journal == s.journal || t.journal.None?
    ensures s.journal.value.kind.DirectSave? ==> t.job == s.job
  {}

  /** The world with the directories, the journal and the job status of one operation put in from `t`. */
  function WithSlot(w: World, k: Key, t: DiskState): World {
    World(w.memories,
          if Stage in t.dirs then w.stages[k := t.dirs[Stage]] else w.stages - {k},
          if Backup in t.dirs then w.backups[k := t.dirs[Backup]] else w.backups - {k},
          if t.journal.None? then w.journals - {k} else w.journals,
          if w.Owns(k) then w.jobs[k.op := w.jobs[k.op].(status := t.job)] else w.jobs)
  }

  /** `t` is a state recovery can leave of the slot of `k`. */
  ghost predicate FitsSlot(w: World, k: Key, t: DiskState) {
    var s := w.Slot(k);
    && (forall d: Dir | d != Stage && d != Backup :: (d in t.dirs <==> d in s.dirs) && t.Files(d) == s.Files(d))
    && (t.journal == s.journal || t.journal.None?)
    && (!w.Owns(k) ==> t.job == s.job)
  }

  lemma WithSlotDirs(w: World, k: Key, t: DiskState)
    requires FitsSlot(w, k, t)
    ensures WithSlot(w, k, t).Dirs(k) == t.dirs
  {
    var v := WithSlot(w, k, t);
    forall d: Dir ensures d in t.dirs <==> d in v.Dirs(k) {
      assert d != Stage && d != Backup ==> (d in t.dirs <==> d in w.Slot(k).dirs);
    }
    forall d: Dir | d in t.dirs ensures t.dirs[d] == v.Dirs(k)[d] {
      assert d != Stage && d != Backup ==> t.Files(d) == w.Slot(k).Files(d);
    }
  }

  lemma WithSlotIsSlot(w: World, k: Key, t: DiskState)
    requires FitsSlot(w, k, t) && w.Usable(k)
    ensures WithSlot(w, k, t).Slot(k) == t
  {
    WithSlotDirs(w, k, t);
  }

  /** Two memories cannot share a job, so no other operation's slot moves. */
  lemma WithSlotFrame(w: World, k: Key, t: DiskState, o: Key)
    requires o != k
    ensures WithSlot(w, k, t).Slot(o) == w.Slot(o)
    ensures WithSlot(w, k, t).Usable(o) <==> w.Usable(o)
    ensures WithSlot(w, k, t).Owns(o) <==> w.Owns(o)
  {
    WithSlotFrameDirs(w, k, t, o);
  }

  lemma WithSlotFrameDirs(w: World, k: Key, t: DiskState, o: Key)
    requires o != k
    ensures WithSlot(w, k, t).Dirs(o) == w.Dirs(o)
  {}

  /** Recovery changes statuses, never which jobs there are, whose memory they use or whose worker is alive. */
  ghost predicate SameJobs(a: World, b: World) {
    && a.jobs.Keys == b.jobs.Keys
    && forall id | id in a.jobs :: a.jobs[id].memory == b.jobs[id].memory && a.jobs[id].worker == b.jobs[id].worker
  }

  ghost predicate SameSlot(a: World, b: World, k: Key) {
    && a.Slot(k) == b.Slot(k)
    && (k in a.journals <==> k in b.journals) && (k in a.journals ==> a.journals[k] == b.journals[k])
  }

  /** One journal of `w` has been dealt with: recovered, or its job barred from the second pass. */
  ghost predicate Handled(w: World, v: World, k: Key, blocked: set<Id>) {
    var barred := k.op in w.jobs ==> k.op in blocked;
    if w.Usable(k) then
      && RecoveryCrash(w.Slot(k), v.Slot(k))
      && (barred || Recover(w.Slot(k)) == Recovered(v.Slot(k)))
      && (Recover(w.Slot(k)).Unrecovered? ==> v.Slot(k) == w.Slot(k))
    else barred && v.Slot(k) == w.Slot(k)
  }

  /** The journals in `todo` are untouched, the others handled, and nothing else has moved. */
  ghost predicate RecoveringTo(w: World, v: World, todo: set<Key>, blocked: set<Id>) {
    && v.memories == w.memories && SameJobs(w, v) && blocked <= w.jobs.Keys
    && (forall k | k in todo :: SameSlot(w, v, k))
    && (forall k | k in w.journals && k !in todo :: Handled(w, v, k, blocked))
    && (forall k | k !in w.journals :: v.Slot(k) == w.Slot(k))
  }

  /** A job the second pass fails: active, not barred, and its worker confirmed absent. */
  predicate ToFail(w: World, id: Id, blocked: set<Id>) {
    && id in w.jobs && id !in blocked
    && w.jobs[id].status in {Running, WaitingForMemory} && w.jobs[id].worker.Dead?
  }

  /** What the second pass has done once the jobs in `todo` remain. */
  ghost predicate Swept(w: World, v: World, todo: set<Id>, blocked: set<Id>) {
    && v.(jobs := w.jobs) == w && v.jobs.Keys == w.jobs.Keys
    && forall id | id in w.jobs :: v.jobs[id] ==
         if id !in todo && ToFail(w, id, blocked) then w.jobs[id].(status := Failed) else w.jobs[id]
  }

  /** The jobs among `ids` the second pass fails, and those it leaves running. */
  ghost function FailedAmong(w: World, ids: set<Id>, blocked: set<Id>): set<Id> {
    set id | id in ids && ToFail(w, id, blocked)
  }

  ghost function LeftAmong(w: World, ids: set<Id>, blocked: set<Id>): set<Id> {
    set id | id in ids && ToLeave(w, id, blocked)
  }

  predicate ToLeave(w: World, id: Id, blocked: set<Id>) {
    && id in w.jobs && id !in blocked
    && w.jobs[id].status in {Running, WaitingForMemory} && !w.jobs[id].worker.Dead?
  }

  lemma CountFailed(w: World, done: set<Id>, id: Id, blocked: set<Id>)
    requires id !in done
    ensures |FailedAmong(w, done + {id}, blocked)| ==
      |FailedAmong(w, done, blocked)| + if ToFail(w, id, blocked) then 1 else 0
  {
    assert FailedAmong(w, done + {id}, blocked) ==
      FailedAmong(w, done, blocked) + if ToFail(w, id, blocked) then {id} else {};
  }

  lemma CountLeft(w: World, done: set<Id>, id: Id, blocked: set<Id>)
    requires id !in done
    ensures |LeftAmong(w, done + {id}, blocked)| ==
      |LeftAmong(w, done, blocked)| + if ToLeave(w, id, blocked) then 1 else 0
  {
    assert LeftAmong(w, done + {id}, blocked) ==
      LeftAmong(w, done, blocked) + if ToLeave(w, id, blocked) then {id} else {};
  }

  lemma SweepOne(w: World, v: World, u: World, todo: set<Id>, id: Id, blocked: set<Id>)
    requires Swept(w, v, todo, blocked) && id in todo && id in w.jobs
    requires u == if ToFail(w, id, blocked) then v.(jobs := v.jobs[id := v.jobs[id].(status := Failed)]) else v
    ensures Swept(w, u, todo - {id}, blocked)
  {}

  lemma SweptSlot(w: World, v: World, id: Id, blocked: set<Id>)
    requires Swept(w, v, {}, blocked) && id in w.jobs
    ensures
      var k := Key(w.jobs[id].memory, id);
      v.Slot(k) == if ToFail(w, id, blocked) then w.Slot(k).(job := Failed) else w.Slot(k)
  {
    var k := Key(w.jobs[id].memory, id);
    assert v.Dirs(k) == w.Dirs(k);
  }

  /** Both passes, seen from one job with a dead worker. */
  lemma PassesReconcile(w: World, m: World, v: World, id: Id, blocked: set<Id>)
    requires RecoveringTo(w, m, {}, blocked) && Swept(m, v, {}, blocked)
    requires id in w.jobs && w.jobs[id].worker.Dead?
    ensures var k := Key(w.jobs[id].memory, id); SlotReconciled(w.Slot(k), v.Slot(k), id in blocked)
  {
    var k := Key(w.jobs[id].memory, id);
    SweptSlot(m, v, id, blocked);
    assert w.Owns(k) && m.Owns(k);
    if k in w.journals {
      assert Handled(w, m, k, blocked);
    }
  }

  /** A barred job whose own journal, if it has one, cannot be settled: nothing of it has moved. */
  lemma BarredStays(w: World, m: World, v: World, id: Id, blocked: set<Id>)
    requires RecoveringTo(w, m, {}, blocked) && Swept(m, v, {}, blocked) && id in w.jobs && id in blocked
    requires
      var k := Key(w.jobs[id].memory, id);
      w.Slot(k).journal.Some? ==> Recover(w.Slot(k)).Unrecovered?
    ensures var k := Key(w.jobs[id].memory, id); v.Slot(k) == w.Slot(k)
  {
    var k := Key(w.jobs[id].memory, id);
    SweptSlot(m, v, id, blocked);
    if k in w.journals { assert Handled(w, m, k, blocked); }
  }

  // ----- the end-to-end claim over the whole store -----

  /** What the store keeps of a crashed disk: everything but the temporary directories. */
  function Project(s: DiskState): DiskState {
    s.(dirs := map d | d in s.dirs && !d.Temp? :: s.dirs[d])
  }

  lemma ProjectIsLike(op: Operation, s: DiskState)
    ensures Project(s).Files(Canonical) == s.Files(Canonical)
    ensures (OfOperation(op, Project(s)) <==> OfOperation(op, s)) && (Fit(op, Project(s)) <==> Fit(op, s))
  {}

  /** A worker of job `id` crashed at `c`; nobody else wrote its memory; its worker is confirmed dead.  Then the two
      passes over the whole store, whatever other journals and jobs it has, leave the job and the memory in agreement
      if the crash left a fit state, and for a job that is not barred only then.  A barred job is as the crash, or an
      interrupted recovery, left it; one that recovery refuses is as the crash left it, journal included. */
  lemma EndToEnd(op: Operation, c: CrashPoint, w: World, m: World, v: World, id: Id, blocked: set<Id>)
    requires op.WellFormed() && op.kind.Job? && NulFreeFiles(op.oldFiles) && NulFreeFiles(op.newFiles)
    requires Explained(op, c)
    requires id in w.jobs && w.jobs[id].worker.Dead? && w.Slot(Key(w.jobs[id].memory, id)) == Project(c.disk)
    requires RecoveringTo(w, m, {}, blocked) && Swept(m, v, {}, blocked)
    ensures
      var s, t := Project(c.disk), v.Slot(Key(w.jobs[id].memory, id));
      && t.Files(Canonical) == c.disk.Files(Canonical)
      && (Fit(op, c.disk) ==> Agreement(op, t))
      && (id !in blocked ==> (Agreement(op, t) <==> Fit(op, c.disk)) && t.job in {Complete, Failed} && t.journal.None?)
      && (id in blocked ==> t == s || (s.journal.Some? && RecoveryCrash(s, t)))
      && (id in blocked && (s.journal.Some? ==> Recover(s).Unrecovered?) ==> t == s)
  {
    var s, t := Project(c.disk), v.Slot(Key(w.jobs[id].memory, id));
    PassesReconcile(w, m, v, id, blocked);
    if id in blocked && (s.journal.Some? ==> Recover(s).Unrecovered?) { BarredStays(w, m, v, id, blocked); }
    CrashPointsAreOfOperation(op, c);
    ProjectIsLike(op, c.disk);
    SlotKeepsFiles(op, s, t, id in blocked);
    if Fit(op, c.disk) { ReconcileKeepsSane(op, s, t, id in blocked); }
    AgreementExactly(op, s);
    AgreementOfContents(op, t);
  }

  lemma SlotKeepsFiles(op: Operation, s: DiskState, t: DiskState, blocked: bool)
    requires op.kind.Job? && OfOperation(op, s) && SlotReconciled(s, t, blocked)
    ensures t.Files(Canonical) == s.Files(Canonical) && Own(op, t)
    ensures !blocked ==> t == ReconcileSlot(s).0 && t.job in {Complete, Failed} && t.journal.None?
  {
    if s.journal.Some? && !blocked {
      assert Recover(s).Recovered?;
      RecoverFromAnyState(s);
    }
  }

  lemma StagingSettles(found: Files, s: DiskState, t: DiskState, blocked: bool)
    requires StagingCrash(found, s) && SlotReconciled(Project(s), t, blocked)
    ensures t.Files(Canonical) in {found, Ensured(found)} && (if blocked then t == Project(s) else t.job == Failed)
  {
    assert Project(s).Files(Canonical) == s.Files(Canonical) && Project(s).journal.None?;
  }

  /** The same for a worker that crashed before its job ran: unless barred, the job fails, and the memory is as the
      worker found it or as the blank memory it had to make. */
  lemma EndToEndWhileStaging(found: Files, s: DiskState, w: World, m: World, v: World, id: Id, blocked: set<Id>)
    requires StagingCrash(found, s)
    requires id in w.jobs && w.jobs[id].worker.Dead? && w.Slot(Key(w.jobs[id].memory, id)) == Project(s)
    requires RecoveringTo(w, m, {}, blocked) && Swept(m, v, {}, blocked)
    ensures
      var t := v.Slot(Key(w.jobs[id].memory, id));
      && t.Files(Canonical) in {found, Ensured(found)}
      && (if id in blocked then t == Project(s) else t.job == Failed)
  {
    PassesReconcile(w, m, v, id, blocked);
    StagingSettles(found, s, v.Slot(Key(w.jobs[id].memory, id)), id in blocked);
  }

  /** At most the slot of `k` differs. */
  ghost predicate OnlySlot(v: World, u: World, k: Key) {
    && u.memories == v.memories && SameJobs(v, u)
    && forall o: Key | o != k :: SameSlot(v, u, o)
  }

  lemma WithSlotIsOnlySlot(v: World, k: Key, t: DiskState)
    ensures OnlySlot(v, WithSlot(v, k, t), k)
  {
    forall o | o != k ensures SameSlot(v, WithSlot(v, k, t), o) {
      WithSlotFrame(v, k, t, o);
    }
  }

  lemma HandledStays(w: World, v: World, u: World, k: Key, blocked: set<Id>, more: set<Id>)
    requires Handled(w, v, k, blocked) && v.Slot(k) == u.Slot(k) && blocked <= more
    ensures Handled(w, u, k, more)
  {}

  lemma HandleOne(w: World, v: World, u: World, todo: set<Key>, k: Key, blocked: set<Id>, more: set<Id>)
    requires RecoveringTo(w, v, todo, blocked) && k in w.journals
    requires OnlySlot(v, u, k) && blocked <= more <= w.jobs.Keys
    requires Handled(w, u, k, more)
    ensures RecoveringTo(w, u, todo - {k}, more)
  {
    forall o | o in todo - {k} ensures SameSlot(w, u, o) {
      assert SameSlot(v, u, o) && SameSlot(w, v, o);
    }
    forall o | o in w.journals && o !in todo - {k} ensures Handled(w, u, o, more) {
      if o != k {
        assert SameSlot(v, u, o);
        HandledStays(w, v, u, o, blocked, more);
      }
    }
    forall o | o !in w.journals ensures u.Slot(o) == w.Slot(o) {
      assert SameSlot(v, u, o);
    }
  }

  lemma HandledFrom(w: World, v: World, u: World, k: Key, blocked: set<Id>, more: set<Id>)
    requires SameSlot(w, v, k) && SameJobs(w, v) && Handled(v, u, k, blocked) && blocked <= more
    ensures Handled(w, u, k, more)
  {}

  /** A journal recovery cannot settle. */
  ghost predicate Stuck(w: World, k: Key) {
    k in w.journals && (!w.Usable(k) || Recover(w.Slot(k)).Unrecovered?)
  }

  /** The jobs that these journals bar. */
  ghost function Barred(w: World, keys: set<Key>): set<Id> {
    set k, id | k in keys && id in w.Barrier(k) :: id
  }

  lemma BarredGrows(w: World, keys: set<Key>, k: Key)
    ensures Barred(w, keys + {k}) == Barred(w, keys) + w.Barrier(k)
  {
    forall id ensures id in Barred(w, keys + {k}) <==> id in Barred(w, keys) + w.Barrier(k) {
      if id in Barred(w, keys + {k}) {
        var o :| o in keys + {k} && id in w.Barrier(o);
        assert o in keys ==> id in Barred(w, keys);
      }
      if id in Barred(w, keys) {
        var o :| o in keys && id in w.Barrier(o);
        assert o in keys + {k};
      }
      if id in w.Barrier(k) { assert k in keys + {k}; }
    }
  }

  /** The journal lies under the job's id, or is unusable and claims it. */
  ghost predicate Names(w: World, k: Key, id: Id) {
    k in w.journals && (k.op == id || (w.journals[k].Unusable? && id in w.journals[k].claims))
  }

  /** What stands in the way of a job: a journal of that kind which recovery cannot settle, or met trouble with. */
  ghost predicate Named(w: World, troubled: set<Key>, id: Id) {
    exists k :: Names(w, k, id) && (Stuck(w, k) || k in troubled)
  }

  /** Every job with a stuck journal is barred, and none that has neither that nor a troubled one. */
  ghost predicate BarsRightly(w: World, troubled: set<Key>, blocked: set<Id>) {
    forall id ::
      && (id in w.jobs && Named(w, {}, id) ==> id in blocked)
      && (id in blocked ==> id in w.jobs && Named(w, troubled, id))
  }

  /** A journal is stuck when no operation can be read from it, or recovery refuses what is on disk. */
  lemma StuckExactly(w: World, k: Key)
    requires k in w.journals
    ensures Stuck(w, k) <==>
      || w.journals[k].Unusable?
      || (w.journals[k].journal.kind == Job && !(k.op in w.jobs && w.jobs[k.op].memory == k.memory))
      || Recover(w.Slot(k)).Unrecovered?
  {}

  /** Both passes on any job: with a dead worker and no stuck or troubled journal that names it, the job is over; with
      a worker that is or may be alive, or a stuck journal, the sweep leaves it alone. */
  lemma EveryJobIsDealtWith(w: World, m: World, v: World, troubled: set<Key>, id: Id, blocked: set<Id>)
    requires RecoveringTo(w, m, {}, blocked) && Swept(m, v, {}, blocked) && id in w.jobs
    requires BarsRightly(w, troubled, blocked)
    ensures w.jobs[id].worker == Dead && !Named(w, troubled, id) ==> v.jobs[id].status !in {Running, WaitingForMemory}
    ensures
      var unjournaled := Key(w.jobs[id].memory, id) !in w.journals;
      var active := w.jobs[id].status in {Running, WaitingForMemory};
      w.jobs[id].worker == Dead && !Named(w, troubled, id) && unjournaled && active ==> v.jobs[id].status == Failed
    ensures w.jobs[id].worker != Dead || Named(w, {}, id) ==> v.jobs[id] == m.jobs[id]
    ensures Key(w.jobs[id].memory, id) !in w.journals ==> m.jobs[id].status == w.jobs[id].status
  {
    var k := Key(w.jobs[id].memory, id);
    assert m.Owns(k) && w.Owns(k);
    if k !in w.journals { assert m.Slot(k) == w.Slot(k); }
  }

  lemma AllDealtWith(w: World, m: World, v: World, troubled: set<Key>, blocked: set<Id>)
    requires RecoveringTo(w, m, {}, blocked) && Swept(m, v, {}, blocked) && BarsRightly(w, troubled, blocked)
    ensures forall id | id in w.jobs && w.jobs[id].worker == Dead && !Named(w, troubled, id) ::
              v.jobs[id].status !in {Running, WaitingForMemory}
  {
    forall id | id in w.jobs && w.jobs[id].worker == Dead && !Named(w, troubled, id)
      ensures v.jobs[id].status !in {Running, WaitingForMemory}
    {
      EveryJobIsDealtWith(w, m, v, troubled, id, blocked);
    }
  }

  /** Of the journals in `done`, those in `settled` were recovered as decided; the others are stuck or troubled. */
  ghost predicate Settling(w: World, v: World, troubled: set<Key>, done: set<Key>, settled: set<Key>) {
    && settled <= done <= w.journals.Keys
    && forall k | k in done ::
         if k in settled then !Stuck(w, k) && Recover(w.Slot(k)) == Recovered(v.Slot(k)) && v.Slot(k).journal.None?
         else Stuck(w, k) || k in troubled
  }

  lemma SameBarrier(w: World, v: World, k: Key)
    requires SameSlot(w, v, k) && SameJobs(w, v)
    ensures w.Barrier(k) == v.Barrier(k) && Stuck(w, k) == Stuck(v, k) && w.Usable(k) == v.Usable(k)
  {}

  lemma NewlyBarred(w: World, v: World, keys: set<Key>, k: Key)
    requires SameSlot(w, v, k) && SameJobs(w, v)
    ensures Barred(w, keys + {k}) == Barred(w, keys) + v.Barrier(k)
  {
    SameBarrier(w, v, k);
    BarredGrows(w, keys, k);
  }

  lemma SettleOne(w: World, v: World, u: World, troubled: set<Key>, done: set<Key>, settled: set<Key>, k: Key, ok: bool)
    requires Settling(w, v, troubled, done, settled) && k in w.journals && k !in done
    requires SameSlot(w, v, k) && SameJobs(w, v) && Turn(v, u, k, ok, k !in troubled)
    ensures Settling(w, u, troubled, done + {k}, if ok then settled + {k} else settled)
  {
    SameBarrier(w, v, k);
    forall o | o in done ensures SameSlot(v, u, o) {}
  }

  /** What one turn of the loop over the journals does. */
  ghost predicate Turn(v: World, u: World, k: Key, ok: bool, reliable: bool) {
    && k in v.journals && OnlySlot(v, u, k) && Handled(v, u, k, if ok then {} else v.Barrier(k))
    && if ok then !Stuck(v, k) && Recover(v.Slot(k)) == Recovered(u.Slot(k)) && u.Slot(k).journal.None?
       else Stuck(v, k) || !reliable
  }

  /** The loop over the journals once those in `todo` remain. */
  ghost predicate LoopedTo(w: World, v: World, troubled: set<Key>, todo: set<Key>, settled: set<Key>, blocked: set<Id>)
  {
    && todo <= w.journals.Keys && RecoveringTo(w, v, todo, blocked)
    && Settling(w, v, troubled, w.journals.Keys - todo, settled)
    && blocked == Barred(w, w.journals.Keys - todo - settled)
  }

  lemma LoopOnce(w: World, v: World, u: World, troubled: set<Key>, todo: set<Key>, settled: set<Key>,
                 blocked: set<Id>, k: Key, ok: bool)
    requires LoopedTo(w, v, troubled, todo, settled, blocked) && k in todo && Turn(v, u, k, ok, k !in troubled)
    ensures LoopedTo(w, u, troubled, todo - {k}, if ok then settled + {k} else settled,
                     blocked + if ok then {} else v.Barrier(k))
  {
    var done, barred := w.journals.Keys - todo, if ok then {} else v.Barrier(k);
    assert SameSlot(w, v, k);
    HandledFrom(w, v, u, k, barred, blocked + barred);
    HandleOne(w, v, u, todo, k, blocked, blocked + barred);
    SettleOne(w, v, u, troubled, done, settled, k, ok);
    assert w.journals.Keys - (todo - {k}) == done + {k};
    if ok {
      assert done + {k} - (settled + {k}) == done - settled;
    } else {
      assert done + {k} - settled == done - settled + {k};
      NewlyBarred(w, v, done - settled, k);
    }
  }

  /** The journals that were not settled bar the jobs they name, and no others.  Without trouble a job is barred exactly
      when a journal that names it is stuck. */
  lemma BarredExactly(w: World, v: World, troubled: set<Key>, settled: set<Key>)
    requires Settling(w, v, troubled, w.journals.Keys, settled)
    ensures BarsRightly(w, troubled, Barred(w, w.journals.Keys - settled))
    ensures troubled == {} ==>
      forall id :: id in Barred(w, w.journals.Keys - settled) <==> id in w.jobs && Named(w, {}, id)
  {
    var blocked := Barred(w, w.journals.Keys - settled);
    forall id | id in w.jobs && Named(w, {}, id) ensures id in blocked {
      var k :| Names(w, k, id) && Stuck(w, k);
      assert k in w.journals.Keys - settled && id in w.Barrier(k);
    }
    forall id | id in blocked ensures id in w.jobs && Named(w, troubled, id) {
      var k :| k in w.journals.Keys - settled && id in w.Barrier(k);
      assert Names(w, k, id) && (Stuck(w, k) || k in troubled);
    }
  }

  class Store {
    var memories: map<Hash, Files>
    var stages: map<Key, Files>
    var backups: map<Key, Files>
    var journals: map<Key, JournalFile>
    var jobs: map<Id, JobRecord>

    function Snapshot(): World
      reads this`memories, this`stages, this`backups, this`journals, this`jobs
    {
      World(memories, stages, backups, journals, jobs)
    }

    constructor (w: World)
      ensures Snapshot() == w
    {
      memories, stages, backups, journals, jobs := w.memories, w.stages, w.backups, w.journals, w.jobs;
    }

    /** `_recover_locked` on one usable journal, through the disk it works on. */
    method RecoverOne(k: Key, reliable: bool) returns (result: RecoverResult)
      requires Snapshot().Usable(k)
      modifies this`stages, this`backups, this`journals, this`jobs
      ensures OnlySlot(old(Snapshot()), Snapshot(), k)
      ensures result.Resolved? ==> Recover(old(Snapshot()).Slot(k)) == Recovered(Snapshot().Slot(k))
      ensures result.Rejected? ==>
        Snapshot().Slot(k) == old(Snapshot()).Slot(k) && Recover(Snapshot().Slot(k)).Unrecovered?
      ensures RecoveryCrash(old(Snapshot()).Slot(k), Snapshot().Slot(k))
      ensures reliable ==> !result.IoError?
      ensures Snapshot().Barrier(k) == old(Snapshot()).Barrier(k)
    {
      var v := Snapshot();
      var t;
      result, t := RecoverSlot(v.Slot(k), reliable);
      assert FitsSlot(v, k, t);
      WithSlotIsSlot(v, k, t);
      WithSlotIsOnlySlot(v, k, t);
      Put(WithSlot(v, k, t));
    }

    /** The store becomes `w`, whose memories it has. */
    method Put(w: World)
      requires w.memories == memories
      modifies this`stages, this`backups, this`journals, this`jobs
      ensures Snapshot() == w
    {
      stages, backups, journals, jobs := w.stages, w.backups, w.journals, w.jobs;
    }

    /** The same on the disk of the operation alone. */
    static method RecoverSlot(slot: DiskState, reliable: bool) returns (result: RecoverResult, t: DiskState)
      requires slot.journal.Some? && forall i: nat :: Temp(i) !in slot.dirs
      ensures result.Resolved? ==> Recover(slot) == Recovered(t)
      ensures result.Rejected? ==> t == slot && Recover(slot).Unrecovered?
      ensures RecoveryCrash(slot, t) && (reliable ==> !result.IoError?)
      ensures forall d: Dir | d != Stage && d != Backup ::
        (d in t.dirs <==> d in slot.dirs) && t.Files(d) == slot.Files(d)
      ensures t.journal == slot.journal || t.journal.None?
      ensures slot.journal.value.kind.DirectSave? ==> t.job == slot.job
    {
      var disk := new Disk(slot, 0, Recovering, reliable);
      result := RecoverLocked(disk);
      RecoveryStaysInSlot(slot, disk.Snapshot());
      t := disk.Snapshot();
    }

    /** One turn of the loop over the journals: recovered, or the jobs it mentions barred (recovery.py:59-87). */
    method HandleJournal(k: Key, reliable: bool) returns (settled: bool, barred: set<Id>)
      requires k in journals
      modifies this`stages, this`backups, this`journals, this`jobs
      ensures Turn(old(Snapshot()), Snapshot(), k, settled, reliable)
      ensures barred == if settled then {} else old(Snapshot()).Barrier(k)
    {
      settled, barred := false, {};
      ghost var slot := Snapshot().Slot(k);
      if Snapshot().Usable(k) {
        var result := RecoverOne(k, reliable);
        settled := result.Resolved?;
        if settled { RecoverFromAnyState(slot); }
      }
      if !settled { barred := Snapshot().Barrier(k); }
    }

    /** The loop over all journals (recovery.py:55-92).  An effect on the slots of `troubled` may fail, on others none
        does: trouble with one journal does not keep the others from being recovered. */
    method RecoverPublications(troubled: set<Key>) returns (recovered: nat, blocked: set<Id>, ghost settled: set<Key>)
      modifies this`stages, this`backups, this`journals, this`jobs
      ensures RecoveringTo(old(Snapshot()), Snapshot(), {}, blocked)
      ensures Settling(old(Snapshot()), Snapshot(), troubled, old(journals).Keys, settled) && recovered == |settled|
      ensures BarsRightly(old(Snapshot()), troubled, blocked)
    {
      recovered, blocked, settled := 0, {}, {};
      ghost var w := Snapshot();
      var todo := journals.Keys;
      while todo != {}
        invariant LoopedTo(w, Snapshot(), troubled, todo, settled, blocked) && recovered == |settled|
        decreases todo
      {
        var k :| k in todo;
        ghost var v := Snapshot();
        assert SameSlot(w, v, k);
        var ok, barred := HandleJournal(k, k !in troubled);
        LoopOnce(w, v, Snapshot(), troubled, todo, settled, blocked, k, ok);
        assert k !in settled;
        if ok { recovered, settled := recovered + 1, settled + {k}; }
        blocked := blocked + barred;
        todo := todo - {k};
      }
      assert w.journals.Keys - {} == w.journals.Keys;
      BarredExactly(w, Snapshot(), troubled, settled);
    }

    /** `reconcile_jobs`: recovery first, then every job whose worker is gone (reconciliation.py:65-166).  When recovery
        itself is unavailable the second pass skips every job. */
    method ReconcileJobs(available: bool, troubled: set<Key>)
        returns (failed: nat, leftRunning: nat, blocked: set<Id>, ghost recovered: World)
      modifies this
      ensures SameJobs(old(Snapshot()), recovered)
      ensures
        if available
        then RecoveringTo(old(Snapshot()), recovered, {}, blocked) && Swept(recovered, Snapshot(), {}, blocked)
        else Snapshot() == old(Snapshot()) && blocked == old(jobs).Keys
      ensures available ==> BarsRightly(old(Snapshot()), troubled, blocked)
      ensures available ==>
        forall id | id in old(jobs) && old(jobs)[id].worker == Dead && !Named(old(Snapshot()), troubled, id) ::
          jobs[id].status !in {Running, WaitingForMemory}
      ensures failed == |FailedAmong(recovered, recovered.jobs.Keys, blocked)|
      ensures leftRunning == |LeftAmong(recovered, recovered.jobs.Keys, blocked)|
    {
      failed, leftRunning, blocked := 0, 0, {};
      if available {
        var _, refused, _ := RecoverPublications(troubled);
        blocked := refused;
      } else {
        blocked := jobs.Keys;
      }
      recovered := Snapshot();
      failed, leftRunning := SweepJobs(blocked);
      if available { AllDealtWith(old(Snapshot()), recovered, Snapshot(), troubled, blocked); }
    }

    /** reconciliation.py:98-165 */
    method SweepJobs(blocked: set<Id>) returns (failed: nat, leftRunning: nat)
      modifies `jobs
      ensures Swept(old(Snapshot()), Snapshot(), {}, blocked)
      ensures failed == |FailedAmong(old(Snapshot()), old(jobs).Keys, blocked)|
      ensures leftRunning == |LeftAmong(old(Snapshot()), old(jobs).Keys, blocked)|
    {
      failed, leftRunning := 0, 0;
      ghost var w := Snapshot();
      ghost var done: set<Id> := {};
      var todo := jobs.Keys;
      while todo != {}
        invariant todo <= w.jobs.Keys && done == w.jobs.Keys - todo && Swept(w, Snapshot(), todo, blocked)
        invariant failed == |FailedAmong(w, done, blocked)| && leftRunning == |LeftAmong(w, done, blocked)|
        decreases todo
      {
        var id :| id in todo;
        ghost var v := Snapshot();
        assert jobs[id] == w.jobs[id];
        if id !in blocked && jobs[id].status in {Running, WaitingForMemory} {
          if jobs[id].worker.Dead? {
            jobs := jobs[id := jobs[id].(status := Failed)];
            failed := failed + 1;
          } else {
            leftRunning := leftRunning + 1;
          }
        }
        SweepOne(w, v, Snapshot(), todo, id, blocked);
        CountFailed(w, done, id, blocked);
        CountLeft(w, done, id, blocked);
        todo, done := todo - {id}, done + {id};
      }
      assert done == w.jobs.Keys;
    }
  }
}
