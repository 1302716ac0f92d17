/** `_recover_locked`: finish, fail or refuse what a crash left of one publication (agency/memory/recovery.py). */
module Recovery {
  import opened Bytes
  import opened MemoryFiles
  import opened MemoryDisk
  import opened CanonicalReplace
  import opened Publication

  datatype Verdict = Refuse | Finish | CleanUp | FailWithOld

  /** The checks and the decision (recovery.py:325-328, 424-499), before any effect. */
  ghost function Decide(s: DiskState): Verdict
    requires s.journal.Some?
  {
    var j := s.journal.value;
    var published := j.phase in {BackedUp, Published};
    if Stage !in s.dirs || (published && !j.noChange && Backup !in s.dirs) then Refuse
    else if !Readable(s.Files(Canonical)) || !Readable(s.dirs[Stage]) then Refuse
    else if Revision(s.dirs[Stage]) != j.newRevision then Refuse
    else if Backup in s.dirs && (!Readable(s.dirs[Backup]) || Revision(s.dirs[Backup]) != j.oldRevision) then Refuse
    else if j.noChange && Backup in s.dirs then Refuse
    else if j.noChange != (j.oldRevision == j.newRevision) then Refuse
    else
      var current := Revision(s.Files(Canonical));
      if published && current == j.newRevision then Finish
      else if !published && j.noChange && current == j.oldRevision then (if j.kind.Job? then Finish else CleanUp)
      else if current == j.oldRevision then FailWithOld
      else Refuse
  }

  /** The job status a verdict asks for; a direct save has no job. */
  ghost function Wanted(s: DiskState): Status
    requires s.journal.Some?
  {
    if s.journal.value.kind.DirectSave? then s.job
    else match Decide(s)
      case Finish => Complete
      case FailWithOld => Failed
      case _ => s.job
  }

  datatype Recovered = Unrecovered | Recovered(disk: DiskState)

  ghost function Recover(s: DiskState): Recovered
    requires s.journal.Some?
  {
    if Decide(s).Refuse? || (s.journal.value.kind.Job? && s.job !in {Running, Wanted(s)}) then Unrecovered
    else Recovered(s.(job := Wanted(s), journal := None, dirs := s.dirs - {Stage, Backup}))
  }

  /** From any state at all: a recovery that returns leaves the memory as it was and the job in the one status that
      agrees with it. */
  lemma RecoverFromAnyState(s: DiskState)
    requires s.journal.Some? && Recover(s).Recovered?
    ensures
      var j, t := s.journal.value, Recover(s).disk;
      && t.Files(Canonical) == s.Files(Canonical) && t.journal.None?
      && (j.kind.Job? ==>
            || (t.job == Complete && AtRevision(t, j.newRevision))
            || (t.job == Failed && AtRevision(t, j.oldRevision) && !j.noChange))
      && (j.kind.Job? && j.noChange ==> t.job == Complete)
      && (j.kind.DirectSave? ==> t.job == s.job && (AtRevision(t, j.oldRevision) || AtRevision(t, j.newRevision)))
  {}

  /** Whatever is on disk: a journal is recovered exactly when all it relies on is there and whole, the memory is at a
      revision its phase allows, and its job is still running or already has the status the memory calls for. */
  lemma RecoveredExactly(s: DiskState)
    requires s.journal.Some?
    ensures
      var j := s.journal.value;
      var old', new' := AtRevision(s, j.oldRevision), AtRevision(s, j.newRevision);
      Recover(s).Recovered? <==>
        && Stage in s.dirs && Readable(s.dirs[Stage]) && Revision(s.dirs[Stage]) == j.newRevision
        && (Backup in s.dirs ==>
              !j.noChange && Readable(s.dirs[Backup]) && Revision(s.dirs[Backup]) == j.oldRevision)
        && (j.noChange || j.phase == Prepared || Backup in s.dirs)
        && (j.noChange <==> j.oldRevision == j.newRevision)
        && Readable(s.Files(Canonical)) && (old' || (new' && j.phase != Prepared))
        && (j.kind == Job ==>
              s.job == Running || s.job == if j.noChange || (new' && j.phase != Prepared) then Complete else Failed)
  {}

  /** What stands in the way of recovering an operation whose journal and stage are whole: the memory cannot be read
      or is at no revision the phase allows, or there is a backup that should not be there or is not whole, or the two
      contents of a change share a revision. */
  ghost predicate Unsettled(op: Operation, s: DiskState)
    requires s.journal.Some?
  {
    || !Readable(s.Files(Canonical))
    || (!AtRevision(s, op.oldRevision) && (s.journal.value.phase.Prepared? || !AtRevision(s, op.newRevision)))
    || (Backup in s.dirs && (op.noChange || !Readable(s.dirs[Backup]) || Revision(s.dirs[Backup]) != op.oldRevision))
    || (!op.noChange && op.oldRevision == op.newRevision)
  }

  /** The status of a job that recovery accepts beside `Running`. */
  ghost predicate Marked(op: Operation, s: DiskState)
    requires s.journal.Some?
  {
    s.job ==
      if op.noChange || (AtRevision(s, op.newRevision) && s.journal.value.phase != Prepared) then Complete else Failed
  }

  /** Of the states publication and recovery can leave, recovery refuses exactly those that cannot be settled, and
      those whose job has the wrong one of the two final statuses. */
  lemma RefusedExactly(op: Operation, s: DiskState)
    requires op.WellFormed() && Journaled(op, s) && s.journal.Some?
    ensures Recover(s).Unrecovered? <==> Unsettled(op, s) || (op.kind.Job? && s.job != Running && !Marked(op, s))
  {
    assert op.noChange ==> op.oldRevision == op.newRevision;
  }

  /** A worker that died in a finalization, before or after the mark: the job ends complete over the new content. */
  lemma FinalizationIsFinished(op: Operation, s: DiskState)
    requires op.WellFormed() && op.kind.Job? && Explained(op, CrashPoint(Finalizing, s)) && s.journal.Some?
    requires !Unsettled(op, s)
    ensures Recover(s) ==
      Recovered(s.(job := Complete, journal := None, dirs := s.dirs - {Stage, Backup}))
  {
    RefusedExactly(op, s);
  }

  /** A worker that died in a rollback with its files back: the job ends failed over the old content, unless nothing
      was to change; then a job still running ends complete, and one already marked failed is refused for ever. */
  lemma RollbackIsFinished(op: Operation, s: DiskState)
    requires op.WellFormed() && op.kind.Job? && Explained(op, CrashPoint(Site.RolledBack, s)) && s.journal.Some?
    requires !Unsettled(op, s)
    ensures
      if op.noChange && s.job == Failed then Recover(s) == Unrecovered
      else
        Recover(s) == Recovered(s.(job := if op.noChange then Complete else Failed, journal := None,
                                   dirs := s.dirs - {Stage, Backup}))
  {
    RefusedExactly(op, s);
    assert AtRevision(s, op.oldRevision);
  }

  datatype RecoverResult = Resolved | Rejected | IoError

  /** What is on disk while a recovery that began at `start` runs: nothing yet, the job marked, or the journal gone. */
  ghost predicate RecoveryCrash(start: DiskState, s: DiskState)
    requires start.journal.Some?
  {
    || s == start
    || (Recover(start).Recovered?
        && (s == start.(job := Wanted(start)) || CleanupCrash(start.(job := Wanted(start)), s)))
  }

  ghost predicate RecoveryCrashes(start: DiskState, before: set<CrashPoint>, after: set<CrashPoint>)
    requires start.journal.Some?
  {
    before <= after && forall c | c in after && c !in before :: RecoveryCrash(start, c.disk)
  }

  /** The reading half of `_recover_locked`: decide without touching anything. */
  method Examine(disk: Disk) returns (verdict: Verdict)
    requires disk.journal.Some?
    ensures verdict == Decide(disk.Snapshot())
  {
    var j := disk.journal.value;
    var published := j.phase in {BackedUp, Published};
    if Stage !in disk.dirs || (published && !j.noChange && Backup !in disk.dirs) { return Refuse; }
    var canonical := disk.Snapshot().Files(Canonical);
    if !Readable(canonical) || !Readable(disk.dirs[Stage]) { return Refuse; }
    var current := MemoryContentRevision(canonical);
    var stage := MemoryContentRevision(disk.dirs[Stage]);
    if stage != j.newRevision { return Refuse; }
    if Backup in disk.dirs {
      if !Readable(disk.dirs[Backup]) { return Refuse; }
      var backup := MemoryContentRevision(disk.dirs[Backup]);
      if backup != j.oldRevision || j.noChange { return Refuse; }
    }
    if j.noChange != (j.oldRevision == j.newRevision) { return Refuse; }
    if published && current == j.newRevision { return Finish; }
    if !published && j.noChange && current == j.oldRevision {
      return if j.kind.Job? then Finish else CleanUp;
    }
    return if current == j.oldRevision then FailWithOld else Refuse;
  }

  lemma CleanedUp(start: DiskState, s: DiskState)
    requires CleanupCrash(start, s) && s.journal.None? && Backup !in s.dirs && Stage !in s.dirs
    ensures s == start.(journal := None, dirs := start.dirs - {Stage, Backup})
  {
    forall k: Dir ensures k in s.dirs <==> k in start.dirs - {Stage, Backup} {}
    forall k: Dir | k in s.dirs ensures s.dirs[k] == start.dirs[k] {
      assert s.Files(k) == start.Files(k);
    }
  }

  /** The effects of a recovery that was not refused: mark the job, then clean up (recovery.py:502-522). */
  method MarkAndCleanUp(disk: Disk, verdict: Verdict) returns (ok: bool)
    requires disk.Valid() && disk.journal.Some? && Recover(disk.Snapshot()).Recovered?
    requires verdict == Decide(disk.Snapshot())
    modifies disk`dirs, disk`journal, disk`job, disk`crashes, disk`faults
    ensures disk.Valid() && disk.Faults(ok)
    ensures ok ==> Recover(old(disk.Snapshot())) == Recovered(disk.Snapshot())
    ensures RecoveryCrash(old(disk.Snapshot()), disk.Snapshot())
    ensures RecoveryCrashes(old(disk.Snapshot()), old(disk.crashes), disk.crashes)
  {
    if disk.journal.value.kind.Job? {
      ok := Mark(disk, if verdict.FailWithOld? then Failed else Complete);
      if !ok { return; }
    }
    ghost var marked, before := disk.Snapshot(), disk.crashes;
    assert marked == old(disk.Snapshot()).(job := Wanted(old(disk.Snapshot())));
    ok := CleanupPaths(disk);
    if ok { CleanedUp(marked, disk.Snapshot()); }
    forall c | c in disk.crashes && c !in before ensures RecoveryCrash(old(disk.Snapshot()), c.disk) {
      assert CleanupCrash(marked, c.disk);
    }
  }

  /** `_recover_locked` (recovery.py:424-522), under the memory lock. */
  method RecoverLocked(disk: Disk) returns (result: RecoverResult)
    requires disk.Valid() && disk.journal.Some?
    modifies disk`dirs, disk`journal, disk`job, disk`crashes, disk`faults
    ensures disk.Valid() && disk.Faults(!result.IoError?)
    ensures result.Resolved? ==> Recover(old(disk.Snapshot())) == Recovered(disk.Snapshot())
    ensures result.Rejected? ==> disk.Snapshot() == old(disk.Snapshot())
    ensures result.Rejected? <==> Recover(old(disk.Snapshot())).Unrecovered?
    ensures RecoveryCrash(old(disk.Snapshot()), disk.Snapshot())
    ensures RecoveryCrashes(old(disk.Snapshot()), old(disk.crashes), disk.crashes)
  {
    var verdict := Examine(disk);
    if verdict.Refuse? { return Rejected; }
    var status := if verdict.FailWithOld? then Failed else Complete;
    if disk.journal.value.kind.Job? && disk.job !in {Running, status} { return Rejected; }
    var ok := MarkAndCleanUp(disk, verdict);
    result := if ok then Resolved else IoError;
  }

  // ----- recovery is idempotent, however often it is interrupted -----

  /** The job status and the memory once recovery has run on `s`. */
  ghost function Settled(s: DiskState): (Status, Files) {
    if s.journal.None? || Recover(s).Unrecovered? then (s.job, s.Files(Canonical))
    else (Recover(s).disk.job, s.Files(Canonical))
  }

  /** A recovery that got through the checks gets through them again as long as its journal is there: interrupted
      anywhere, it comes to the same end. */
  lemma RestartRecovers(start: DiskState, s: DiskState)
    requires start.journal.Some? && Recover(start).Recovered? && RecoveryCrash(start, s) && s.journal.Some?
    ensures Recover(s) == Recover(start)
  {
    if s != start {
      var marked := start.(job := Wanted(start));
      assert s == marked && Decide(marked) == Decide(start) && Wanted(marked) == Wanted(start);
    }
  }

  lemma RestartSettles(start: DiskState, s: DiskState)
    requires start.journal.Some? && RecoveryCrash(start, s)
    ensures Settled(s) == Settled(start)
  {
    if s != start {
      var marked := start.(job := Wanted(start));
      assert Decide(marked) == Decide(start);
      assert Wanted(marked) == Wanted(start);
      if s.journal.Some? {
        assert s == marked;
      } else {
        assert s.Files(Canonical) == start.Files(Canonical);
      }
    }
  }

  /** Recoveries interrupted one after the other: each starts from the state a crash of the one before left. */
  ghost predicate Interrupted(states: seq<DiskState>) {
    && states != []
    && forall i | 0 <= i < |states| - 1 :: states[i].journal.Some? && RecoveryCrash(states[i], states[i + 1])
  }

  lemma {:induction false} RecoveryIsCrashTolerant(states: seq<DiskState>)
    requires Interrupted(states)
    ensures Settled(states[|states| - 1]) == Settled(states[0])
    ensures
      var last := states[|states| - 1];
      states[0].journal.Some? && last.journal.Some? ==> Recover(last) == Recover(states[0])
  {
    if |states| > 1 {
      RestartSettles(states[0], states[1]);
      if Recover(states[0]).Recovered? && states[1].journal.Some? { RestartRecovers(states[0], states[1]); }
      forall i | 0 <= i < |states[1..]| - 1
        ensures states[1..][i].journal.Some? && RecoveryCrash(states[1..][i], states[1..][i + 1])
      {
        assert states[1..][i] == states[i + 1] && states[1..][i + 1] == states[i + 2];
      }
      RecoveryIsCrashTolerant(states[1..]);
    }
  }

  /** Recovery keeps the journal's promises at each of its own crash points. */
  lemma RecoveryKeepsJournaled(op: Operation, start: DiskState, s: DiskState)
    requires start.journal.Some? && Journaled(op, start) && RecoveryCrash(start, s)
    ensures Journaled(op, s) && s.Files(Canonical) == start.Files(Canonical)
  {}
}
