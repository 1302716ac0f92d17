/** The durable state behind one memory and one publication operation, changed one indivisible effect
    at a time.  A fail-stop crash leaves one of the recorded `crashes` behind. */
module MemoryDisk {
  import opened Bytes
  import opened MemoryFiles

  datatype Option<+T> = None | Some(value: T)

  /** job record statuses (agency/jobs/models.py) */
  datatype Status = Queued | WaitingForMemory | Running | Complete | Failed | Cancelled

  /** `canonical` is the memory itself; a `Temp` is a directory made by mkdtemp under `.backups`. */
  datatype Dir = Canonical | Stage | Backup | Temp(id: nat)

  datatype Phase = Prepared | BackedUp | Published
  datatype Kind = Job | DirectSave
  datatype Journal = Journal(kind: Kind, oldRevision: Bytes, newRevision: Bytes, phase: Phase, noChange: bool)

  datatype DiskState = DiskState(dirs: map<Dir, Files>, journal: Option<Journal>, job: Status) {
    /** `_read_canonical_files` reads a missing directory as an empty one. */
    function Files(d: Dir): Files {
      if d in dirs then dirs[d] else map[]
    }

    function Put(d: Dir, files: Files): DiskState { this.(dirs := dirs[d := files]) }

    function Drop(d: Dir): DiskState { this.(dirs := dirs - {d}) }

    /** One file renamed from `src` into `dst`. */
    function Rename(src: Dir, n: Name, dst: Dir): DiskState
      requires src in dirs && dst in dirs && n in dirs[src]
    {
      Put(src, dirs[src] - {n}).Put(dst, dirs[dst][n := dirs[src][n]])
    }

    ghost predicate Has(d: Dir, n: Name, p: Payload) {
      n in Files(d) && Files(d)[n] == p
    }
  }

  /** What the process was doing when a durable state was on disk. */
  datatype Site =
    | Staging | Working | Failing | Publishing | RollingBack | RolledBack | Finalizing | Finished | Escaped | Recovering

  datatype CrashPoint = CrashPoint(site: Site, disk: DiskState)

  ghost predicate Sub(a: Files, b: Files) {
    forall n | n in a :: n in b && a[n] == b[n]
  }

  /** `after` differs from `before` at most in the directory `d`. */
  ghost predicate OnlyDir(d: Dir, before: DiskState, after: DiskState) {
    && after.journal == before.journal && after.job == before.job
    && forall k | k != d :: (k in after.dirs <==> k in before.dirs) && after.Files(k) == before.Files(k)
  }

  lemma OnlyDirPut(d: Dir, start: DiskState, s: DiskState, files: Files)
    requires OnlyDir(d, start, s)
    ensures OnlyDir(d, start, s.Put(d, files))
  {}

  lemma OnlyDirDrop(d: Dir, start: DiskState, s: DiskState)
    requires OnlyDir(d, start, s)
    ensures OnlyDir(d, start, s.Drop(d))
  {}

  datatype Transition = Moved | Invalid | Unwritten

  class Disk {
    var dirs: map<Dir, Files>
    var journal: Option<Journal>
    var job: Status
    var nextTemp: nat
    ghost var site: Site
    ghost var crashes: set<CrashPoint>
    ghost var faults: nat                 // how many effects have failed
    const reliable: bool                  // whether none ever does

    constructor (state: DiskState, firstTemp: nat, site: Site, reliable: bool)
      requires forall t: nat | Temp(t) in state.dirs :: t < firstTemp
      ensures Snapshot() == state && this.site == site && crashes == {CrashPoint(site, state)} && faults == 0
      ensures Valid() && this.reliable == reliable
    {
      dirs, journal, job := state.dirs, state.journal, state.job;
      nextTemp := firstTemp;
      this.site := site;
      crashes := {CrashPoint(site, state)};
      faults := 0;
      this.reliable := reliable;
    }

    ghost predicate Valid() reads this {
      (reliable ==> faults == 0) && forall t: nat | Temp(t) in dirs :: t < nextTemp
    }

    /** Whether the next effect succeeds. */
    method Succeeds() returns (ok: bool)
      ensures reliable ==> ok
    {
      ok := *;
      if reliable { ok := true; }
    }

    function Snapshot(): DiskState reads this { DiskState(dirs, journal, job) }

    /** One durable effect took the disk to `after`, or failed leaving it as it was or already there. */
    twostate predicate Effect(ok: bool, after: DiskState) reads this {
      && (Snapshot() == after || (!ok && Snapshot() == old(Snapshot())))
      && crashes == old(crashes) + {CrashPoint(site, Snapshot())}
      && site == old(site) && nextTemp == old(nextTemp) && Valid() && Faults(ok)
    }

    /** A fault has been met since exactly when `ok` is false. */
    twostate predicate Faults(ok: bool) reads this { if ok then faults == old(faults) else faults > old(faults) }

    ghost method Enter(where: Site)
      requires Valid()
      modifies `site, `crashes
      ensures site == where && crashes == old(crashes) + {CrashPoint(where, Snapshot())}
      ensures Valid()
    {
      site := where;
      crashes := crashes + {CrashPoint(where, Snapshot())};
    }

    method MakeDir(d: Dir) returns (ok: bool)
      requires Valid() && d !in dirs && (d.Temp? ==> d.id < nextTemp)
      modifies `dirs, `crashes, `faults
      ensures Effect(ok, old(Snapshot()).Put(d, map[]))
    {
      ok := Succeeds();
      var done: bool := *;
      if ok || done { dirs := dirs[d := map[]]; }
      crashes := crashes + {CrashPoint(site, Snapshot())};
      faults := faults + if ok then 0 else 1;
    }

    /** mkdtemp: an unused directory name. */
    method MakeTemp() returns (ok: bool, id: nat)
      requires Valid()
      modifies `dirs, `crashes, `faults, `nextTemp
      ensures Valid() && id == old(nextTemp) && Temp(id) !in old(dirs) && nextTemp == id + 1
      ensures Snapshot() == old(Snapshot()).Put(Temp(id), map[]) || (!ok && Snapshot() == old(Snapshot()))
      ensures crashes == old(crashes) + {CrashPoint(site, Snapshot())} && Faults(ok)
    {
      id := nextTemp;
      nextTemp := nextTemp + 1;
      ok := MakeDir(Temp(id));
    }

    /** `atomic_write_bytes` */
    method WriteFile(d: Dir, n: Name, p: Payload) returns (ok: bool)
      requires Valid() && d in dirs
      modifies `dirs, `crashes, `faults
      ensures Effect(ok, old(Snapshot()).Put(d, old(dirs)[d][n := p]))
    {
      ok := Succeeds();
      var done: bool := *;
      if ok || done { dirs := dirs[d := dirs[d][n := p]]; }
      crashes := crashes + {CrashPoint(site, Snapshot())};
      faults := faults + if ok then 0 else 1;
    }

    method Unlink(d: Dir, n: Name) returns (ok: bool)
      requires Valid() && d in dirs && n in dirs[d]
      modifies `dirs, `crashes, `faults
      ensures Effect(ok, old(Snapshot()).Put(d, old(dirs)[d] - {n}))
    {
      ok := Succeeds();
      var done: bool := *;
      if ok || done { dirs := dirs[d := dirs[d] - {n}]; }
      crashes := crashes + {CrashPoint(site, Snapshot())};
      faults := faults + if ok then 0 else 1;
    }

    method RemoveDir(d: Dir) returns (ok: bool)
      requires Valid() && d in dirs && dirs[d] == map[]
      modifies `dirs, `crashes, `faults
      ensures Effect(ok, old(Snapshot()).Drop(d))
    {
      ok := Succeeds();
      var done: bool := *;
      if ok || done { dirs := dirs - {d}; }
      crashes := crashes + {CrashPoint(site, Snapshot())};
      faults := faults + if ok then 0 else 1;
    }

    /** A rename of one file between two directories. */
    method Move(src: Dir, n: Name, dst: Dir) returns (ok: bool)
      requires Valid() && src in dirs && dst in dirs && src != dst && n in dirs[src]
      modifies `dirs, `crashes, `faults
      ensures Effect(ok, old(Snapshot()).Rename(src, n, dst))
    {
      ok := Succeeds();
      var done: bool := *;
      if ok || done { dirs := dirs[src := dirs[src] - {n}][dst := dirs[dst][n := dirs[src][n]]]; }
      crashes := crashes + {CrashPoint(site, Snapshot())};
      faults := faults + if ok then 0 else 1;
    }

    method WriteJournal(j: Journal) returns (ok: bool)
      requires Valid()
      modifies `journal, `crashes, `faults
      ensures Effect(ok, old(Snapshot()).(journal := Some(j)))
    {
      ok := Succeeds();
      var done: bool := *;
      if ok || done { journal := Some(j); }
      crashes := crashes + {CrashPoint(site, Snapshot())};
      faults := faults + if ok then 0 else 1;
    }

    method UnlinkJournal() returns (ok: bool)
      requires Valid()
      modifies `journal, `crashes, `faults
      ensures Effect(ok, old(Snapshot()).(journal := None))
    {
      ok := Succeeds();
      var done: bool := *;
      if ok || done { journal := None; }
      crashes := crashes + {CrashPoint(site, Snapshot())};
      faults := faults + if ok then 0 else 1;
    }

    /** The status part of `transition_job`, for a permitted move of the transition table. */
    method TransitionJob(expected: Status, status: Status) returns (r: Transition)
      requires Valid()
      modifies `job, `crashes, `faults
      ensures r.Invalid? <==> old(job) != expected
      ensures r.Invalid? ==> Effect(true, old(Snapshot()))
      ensures !r.Invalid? ==> Effect(r.Moved?, old(Snapshot()).(job := status))
    {
      if job != expected {
        r := Invalid;
      } else {
        var ok := Succeeds();
        var done: bool := *;
        r := if ok then Moved else Unwritten;
        if ok || done { job := status; }
      }
      crashes := crashes + {CrashPoint(site, Snapshot())};
      faults := faults + if r.Unwritten? then 1 else 0;
    }

    /** `_safe_rmtree`: unlink the entries one by one, then remove the directory. */
    method RemoveTree(d: Dir) returns (ok: bool)
      requires Valid() && d in dirs
      modifies `dirs, `crashes, `faults
      ensures Valid() && Faults(ok)
      ensures OnlyDir(d, old(Snapshot()), Snapshot())
      ensures if ok then d !in dirs else Sub(Snapshot().Files(d), old(dirs)[d])
      ensures old(crashes) <= crashes && CrashPoint(site, Snapshot()) in crashes
      ensures forall c | c in crashes && c !in old(crashes) ::
        c.site == site && OnlyDir(d, old(Snapshot()), c.disk) && Sub(c.disk.Files(d), old(dirs)[d])
    {
      while dirs[d] != map[]
        invariant Valid() && d in dirs && Faults(true)
        invariant OnlyDir(d, old(Snapshot()), Snapshot()) && Sub(dirs[d], old(dirs)[d])
        invariant old(crashes) <= crashes
        invariant forall c | c in crashes && c !in old(crashes) ::
          c.site == site && OnlyDir(d, old(Snapshot()), c.disk) && Sub(c.disk.Files(d), old(dirs)[d])
        decreases dirs[d].Keys
      {
        var n :| n in dirs[d];
        OnlyDirPut(d, old(Snapshot()), Snapshot(), dirs[d] - {n});
        ok := Unlink(d, n);
        if !ok { return; }
      }
      OnlyDirDrop(d, old(Snapshot()), Snapshot());
      ok := RemoveDir(d);
    }
  }
}
