/** `_replace_canonical_files` and its rollback (agency/memory/store.py): the non-atomic middle of a
    publication, file by file, with every failure and every crash point. */
module CanonicalReplace {
  import opened Bytes
  import opened MemoryFiles
  import opened MemoryDisk

  /** `Done` is the normal return.  The others raise: after a rollback that succeeded, after one that did
      not, and when only the removal of the emptied scratch directory failed. */
  datatype Outcome = Done | Restored | Unrestored | ScratchLeft

  /** One replacement: the state it began in, the new files, and its two temporary directories. */
  datatype Replacement = Replacement(start: DiskState, files: Files, scratch: nat, evac: nat) {
    ghost predicate Fresh() {
      && scratch != evac && Canonical in start.dirs
      && Temp(scratch) !in start.dirs && Temp(evac) !in start.dirs
    }

    function Original(): Files { start.Files(Canonical) }

    /** All is as at the start, but for the memory and for these two directories. */
    ghost predicate Frames(s: DiskState) {
      Framed(start, s) && forall t: nat | Temp(t) in s.dirs :: Temp(t) in start.dirs || t in {scratch, evac}
    }
  }

  function Restrict(files: Files, keep: set<Name>): (r: Files)
    ensures forall n :: n in r <==> n in files && n in keep
    ensures forall n | n in r :: r[n] == files[n]
  {
    map n | n in files && n in keep :: files[n]
  }

  /** Every file of `original` sits unharmed in the memory or in the evacuation directory. */
  ghost predicate Conserved(original: Files, s: DiskState, evac: nat) {
    forall n | n in original :: s.Has(Canonical, n, original[n]) || s.Has(Temp(evac), n, original[n])
  }

  /** A replacement touches only the memory and directories that did not exist before. */
  ghost predicate Framed(before: DiskState, after: DiskState) {
    && after.journal == before.journal && after.job == before.job
    && Canonical in after.dirs
    && (Stage in after.dirs <==> Stage in before.dirs) && after.Files(Stage) == before.Files(Stage)
    && (Backup in after.dirs <==> Backup in before.dirs) && after.Files(Backup) == before.Files(Backup)
    && forall t: nat | Temp(t) in before.dirs :: Temp(t) in after.dirs && after.dirs[Temp(t)] == before.dirs[Temp(t)]
  }

  /** The memory holds nothing but files of `a` and files of `b`. */
  ghost predicate Mixed(a: Files, b: Files, s: DiskState) {
    forall n | n in s.Files(Canonical) ::
      (n in a && s.Files(Canonical)[n] == a[n]) || (n in b && s.Files(Canonical)[n] == b[n])
  }

  /** What a crash during the replacement may leave, once `discarded` is gone for good. */
  ghost predicate ReplaceCrash(r: Replacement, s: DiskState, discarded: set<Name>) {
    && r.Frames(s) && Mixed(r.Original(), r.files, s)
    && (s.Files(Canonical) == r.files || Conserved(r.Original() - discarded, s, r.evac))
  }

  ghost predicate NewCrashes(r: Replacement, before: set<CrashPoint>, after: set<CrashPoint>, site: Site,
                             discarded: set<Name>) {
    && before <= after
    && forall c | c in after && c !in before :: c.site == site && ReplaceCrash(r, c.disk, discarded)
  }

  /** `whole` is split between `left` and `right`. */
  ghost predicate Parted(whole: Files, left: Files, right: Files) {
    && left.Keys !! right.Keys && left.Keys + right.Keys == whole.Keys
    && Sub(left, whole) && Sub(right, whole)
  }

  // ----- the stages of a replacement, as predicates on the disk -----

  ghost predicate Writing(r: Replacement, s: DiskState) {
    && r.Fresh() && r.Frames(s) && Temp(r.scratch) in s.dirs && Temp(r.evac) in s.dirs
    && s.dirs[Canonical] == r.Original() && s.dirs[Temp(r.evac)] == map[]
  }

  ghost predicate Evacuating(r: Replacement, s: DiskState) {
    && r.Fresh() && r.Frames(s) && Temp(r.scratch) in s.dirs && Temp(r.evac) in s.dirs
    && Parted(r.Original(), s.dirs[Canonical], s.dirs[Temp(r.evac)])
    && s.dirs[Temp(r.scratch)] == r.files
  }

  ghost predicate Installing(r: Replacement, s: DiskState) {
    && r.Fresh() && r.Frames(s) && Temp(r.scratch) in s.dirs && Temp(r.evac) in s.dirs
    && s.dirs[Temp(r.evac)] == r.Original()
    && Parted(r.files, s.dirs[Canonical], s.dirs[Temp(r.scratch)])
  }

  /** Rollback, first half: what was installed is being unlinked. */
  ghost predicate Uninstalling(r: Replacement, s: DiskState, kept: Files, installed: set<Name>) {
    && r.Fresh() && r.Frames(s) && Temp(r.scratch) in s.dirs
    && s.dirs[Canonical].Keys <= installed && Sub(s.dirs[Canonical], r.files) && s.Files(Temp(r.evac)) == kept
  }

  /** Rollback, second half: what was evacuated is being moved back. */
  ghost predicate Restoring(r: Replacement, s: DiskState, kept: Files) {
    && r.Fresh() && r.Frames(s) && Temp(r.scratch) in s.dirs
    && Parted(kept, s.dirs[Canonical], s.Files(Temp(r.evac)))
  }

  lemma WriteStep(r: Replacement, s: DiskState, n: Name)
    requires Writing(r, s) && n in r.files
    ensures Writing(r, s.Put(Temp(r.scratch), s.dirs[Temp(r.scratch)][n := r.files[n]]))
  {}

  lemma EvacuateStep(r: Replacement, s: DiskState, n: Name)
    requires Evacuating(r, s) && n in s.dirs[Canonical]
    ensures Evacuating(r, s.Rename(Canonical, n, Temp(r.evac)))
  {}

  lemma InstallStep(r: Replacement, s: DiskState, n: Name)
    requires Installing(r, s) && n in s.dirs[Temp(r.scratch)]
    ensures Installing(r, s.Rename(Temp(r.scratch), n, Canonical))
  {}

  lemma UninstallStep(r: Replacement, s: DiskState, kept: Files, installed: set<Name>, n: Name)
    requires Uninstalling(r, s, kept, installed)
    ensures Uninstalling(r, s.Put(Canonical, s.dirs[Canonical] - {n}), kept, installed - {n})
  {}

  lemma RestoreStep(r: Replacement, s: DiskState, kept: Files, n: Name)
    requires Restoring(r, s, kept) && Temp(r.evac) in s.dirs && n in s.dirs[Temp(r.evac)]
    ensures Restoring(r, s.Rename(Temp(r.evac), n, Canonical), kept)
  {}

  lemma StageCrash(r: Replacement, s: DiskState, kept: Files, discarded: set<Name>)
    requires kept == r.Original() - discarded
    requires Writing(r, s) || Evacuating(r, s) || Installing(r, s) || Restoring(r, s, kept)
             || Uninstalling(r, s, kept, s.Files(Canonical).Keys)
    ensures ReplaceCrash(r, s, discarded) && Conserved(kept, s, r.evac)
  {}

  // ----- the loops -----

  /** store.py:418-419 */
  method WriteScratch(disk: Disk, scratch: nat, files: Files, ghost r: Replacement) returns (ok: bool)
    requires disk.Valid() && Writing(r, disk.Snapshot()) && r.scratch == scratch && r.files == files
    requires disk.dirs[Temp(scratch)] == map[]
    modifies disk`dirs, disk`crashes, disk`faults
    ensures disk.Faults(ok)
    ensures disk.Valid() && Writing(r, disk.Snapshot())
    ensures ok ==> disk.dirs[Temp(scratch)] == files
    ensures NewCrashes(r, old(disk.crashes), disk.crashes, disk.site, {})
  {
    var pending := files.Keys;
    while pending != {}
      invariant disk.Faults(true)
      invariant pending <= files.Keys
      invariant disk.Valid() && Writing(r, disk.Snapshot())
      invariant disk.dirs[Temp(scratch)] == Restrict(files, files.Keys - pending)
      invariant NewCrashes(r, old(disk.crashes), disk.crashes, disk.site, {})
      decreases pending
    {
      var name :| name in pending;
      WriteStep(r, disk.Snapshot(), name);
      ok := disk.WriteFile(Temp(scratch), name, files[name]);
      StageCrash(r, disk.Snapshot(), r.Original(), {});
      if !ok { return; }
      pending := pending - {name};
    }
    ok := true;
    assert Restrict(files, files.Keys) == files;
  }

  /** store.py:420-422 */
  method Evacuate(disk: Disk, evac: nat, ghost r: Replacement) returns (ok: bool)
    requires disk.Valid() && Evacuating(r, disk.Snapshot()) && r.evac == evac
    modifies disk`dirs, disk`crashes, disk`faults
    ensures disk.Faults(ok)
    ensures disk.Valid() && Evacuating(r, disk.Snapshot())
    ensures ok ==> disk.dirs[Canonical] == map[]
    ensures NewCrashes(r, old(disk.crashes), disk.crashes, disk.site, {})
  {
    ok := true;
    while disk.dirs[Canonical] != map[]
      invariant disk.Faults(true)
      invariant ok && disk.Valid() && Evacuating(r, disk.Snapshot())
      invariant NewCrashes(r, old(disk.crashes), disk.crashes, disk.site, {})
      decreases disk.dirs[Canonical].Keys
    {
      var entry :| entry in disk.dirs[Canonical];
      EvacuateStep(r, disk.Snapshot(), entry);
      ok := disk.Move(Canonical, entry, Temp(evac));
      StageCrash(r, disk.Snapshot(), r.Original(), {});
      if !ok { return; }
    }
  }

  /** store.py:423-426: the target is recorded before the rename. */
  method Install(disk: Disk, scratch: nat, ghost r: Replacement) returns (ok: bool, moved: set<Name>)
    requires disk.Valid() && Installing(r, disk.Snapshot()) && r.scratch == scratch
    requires disk.dirs[Canonical] == map[]
    modifies disk`dirs, disk`crashes, disk`faults
    ensures disk.Faults(ok)
    ensures disk.Valid() && Installing(r, disk.Snapshot())
    ensures disk.dirs[Canonical].Keys <= moved
    ensures ok ==> disk.dirs[Canonical] == r.files
    ensures NewCrashes(r, old(disk.crashes), disk.crashes, disk.site, {})
  {
    ok, moved := true, {};
    while disk.dirs[Temp(scratch)] != map[]
      invariant disk.Faults(true)
      invariant ok && disk.Valid() && Installing(r, disk.Snapshot())
      invariant disk.dirs[Canonical].Keys <= moved
      invariant NewCrashes(r, old(disk.crashes), disk.crashes, disk.site, {})
      decreases disk.dirs[Temp(scratch)].Keys
    {
      var entry :| entry in disk.dirs[Temp(scratch)];
      moved := moved + {entry};
      InstallStep(r, disk.Snapshot(), entry);
      ok := disk.Move(Temp(scratch), entry, Canonical);
      StageCrash(r, disk.Snapshot(), r.Original(), {});
      if !ok { return; }
    }
  }

  /** store.py:454-459 */
  method Uninstall(disk: Disk, moved: set<Name>, ghost r: Replacement, ghost discarded: set<Name>) returns (ok: bool)
    requires disk.Valid() && Uninstalling(r, disk.Snapshot(), r.Original() - discarded, moved)
    modifies disk`dirs, disk`crashes, disk`faults
    ensures disk.Faults(ok)
    ensures disk.Valid() && Uninstalling(r, disk.Snapshot(), r.Original() - discarded, if ok then {} else moved)
    ensures NewCrashes(r, old(disk.crashes), disk.crashes, disk.site, discarded)
  {
    ok := true;
    ghost var kept := r.Original() - discarded;
    var paths := moved;
    while paths != {}
      invariant disk.Faults(true)
      invariant ok && paths <= moved && disk.Valid() && Uninstalling(r, disk.Snapshot(), kept, paths)
      invariant NewCrashes(r, old(disk.crashes), disk.crashes, disk.site, discarded)
      decreases paths
    {
      var path :| path in paths;
      if path in disk.dirs[Canonical] {
        UninstallStep(r, disk.Snapshot(), kept, paths, path);
        ok := disk.Unlink(Canonical, path);
        StageCrash(r, disk.Snapshot(), kept, discarded);
        if !ok { return; }
      }
      paths := paths - {path};
    }
  }

  lemma EmptiedStep(r: Replacement, s: DiskState, kept: Files)
    requires Restoring(r, s, kept) && Temp(r.evac) in s.dirs && s.dirs[Temp(r.evac)] == map[]
    ensures s.dirs[Canonical] == kept && Restoring(r, s.Drop(Temp(r.evac)), kept)
  {}

  /** store.py:461-462 */
  method RestoreFiles(disk: Disk, evac: nat, ghost r: Replacement, ghost discarded: set<Name>) returns (ok: bool)
    requires disk.Valid() && Restoring(r, disk.Snapshot(), r.Original() - discarded)
    requires r.evac == evac && Temp(evac) in disk.dirs
    modifies disk`dirs, disk`crashes, disk`faults
    ensures disk.Faults(ok)
    ensures disk.Valid() && Restoring(r, disk.Snapshot(), r.Original() - discarded) && Temp(evac) in disk.dirs
    ensures ok ==> disk.dirs[Temp(evac)] == map[]
    ensures NewCrashes(r, old(disk.crashes), disk.crashes, disk.site, discarded)
  {
    ok := true;
    ghost var kept := r.Original() - discarded;
    while disk.dirs[Temp(evac)] != map[]
      invariant disk.Faults(true)
      invariant ok && disk.Valid() && Restoring(r, disk.Snapshot(), kept) && Temp(evac) in disk.dirs
      invariant NewCrashes(r, old(disk.crashes), disk.crashes, disk.site, discarded)
      decreases disk.dirs[Temp(evac)].Keys
    {
      var entry :| entry in disk.dirs[Temp(evac)];
      RestoreStep(r, disk.Snapshot(), kept, entry);
      ok := disk.Move(Temp(evac), entry, Canonical);
      StageCrash(r, disk.Snapshot(), kept, discarded);
      if !ok { return; }
    }
  }

  /** store.py:460-463 */
  method Restore(disk: Disk, evac: nat, ghost r: Replacement, ghost discarded: set<Name>) returns (ok: bool)
    requires disk.Valid() && Restoring(r, disk.Snapshot(), r.Original() - discarded) && r.evac == evac
    modifies disk`dirs, disk`crashes, disk`faults
    ensures disk.Faults(ok)
    ensures disk.Valid() && Restoring(r, disk.Snapshot(), r.Original() - discarded)
    ensures ok ==> disk.dirs[Canonical] == r.Original() - discarded && Temp(evac) !in disk.dirs
    ensures NewCrashes(r, old(disk.crashes), disk.crashes, disk.site, discarded)
  {
    ok := true;
    if Temp(evac) in disk.dirs {
      ok := RestoreFiles(disk, evac, r, discarded);
      if ok {
        EmptiedStep(r, disk.Snapshot(), r.Original() - discarded);
        ok := disk.RemoveDir(Temp(evac));
        StageCrash(r, disk.Snapshot(), r.Original() - discarded, discarded);
      }
    } else {
      assert Parted(r.Original() - discarded, disk.dirs[Canonical], map[]);
    }
  }

  /** `_rollback_canonical_replace` (store.py:448-466) */
  method RollbackReplace(disk: Disk, evac: nat, moved: set<Name>, ghost r: Replacement, ghost discarded: set<Name>)
    returns (ok: bool)
    requires disk.Valid() && r.evac == evac
    requires if moved == {} then Restoring(r, disk.Snapshot(), r.Original() - discarded)
             else Uninstalling(r, disk.Snapshot(), r.Original() - discarded, moved)
    modifies disk`dirs, disk`crashes, disk`faults
    ensures disk.Faults(ok)
    ensures disk.Valid() && r.Frames(disk.Snapshot()) && Temp(r.scratch) in disk.dirs
    ensures ok ==> disk.dirs[Canonical] == r.Original() - discarded && Temp(evac) !in disk.dirs
    ensures ReplaceCrash(r, disk.Snapshot(), discarded) && Conserved(r.Original() - discarded, disk.Snapshot(), evac)
    ensures NewCrashes(r, old(disk.crashes), disk.crashes, disk.site, discarded)
  {
    ghost var kept := r.Original() - discarded;
    ok := true;
    if moved != {} {
      ok := Uninstall(disk, moved, r, discarded);
    }
    if ok {
      assert Restoring(r, disk.Snapshot(), kept);
      ok := Restore(disk, evac, r, discarded);
    }
    StageCrash(r, disk.Snapshot(), kept, discarded);
  }

  lemma FramedRemoval(r: Replacement, s: DiskState, t: DiskState, d: nat)
    requires r.Fresh() && r.Frames(s) && OnlyDir(Temp(d), s, t) && (d == r.scratch || d == r.evac)
    ensures r.Frames(t)
  {}

  lemma Weaken(r: Replacement, before: set<CrashPoint>, after: set<CrashPoint>, site: Site, discarded: set<Name>)
    requires NewCrashes(r, before, after, site, {})
    ensures NewCrashes(r, before, after, site, discarded)
  {
    assert r.Original() - {} == r.Original();
    forall c | c in after && c !in before ensures ReplaceCrash(r, c.disk, discarded) {}
  }

  /** Original files are only ever missing after the removal of the evacuation directory broke off half-way, and by
      then every new file was installed. */
  ghost predicate Halved(r: Replacement, crashes: set<CrashPoint>, discarded: set<Name>) {
    discarded != {} ==>
      exists c :: c in crashes && c.disk.Files(Canonical) == r.files
                  && c.disk.Files(Temp(r.evac)) == r.Original() - discarded
  }

  /** The removal of the evacuation directory after everything is installed (store.py:427). */
  method DropEvacuated(disk: Disk, evac: nat, ghost r: Replacement) returns (ok: bool, ghost discarded: set<Name>)
    requires disk.Valid() && Installing(r, disk.Snapshot()) && disk.dirs[Canonical] == r.files && r.evac == evac
    modifies disk`dirs, disk`crashes, disk`faults
    ensures disk.Faults(ok)
    ensures disk.Valid() && r.Frames(disk.Snapshot()) && disk.dirs[Canonical] == r.files
    ensures Temp(r.scratch) in disk.dirs
    ensures discarded <= r.Original().Keys
    ensures if ok then discarded == {} && Temp(evac) !in disk.dirs
            else disk.Snapshot().Files(Temp(evac)) == r.Original() - discarded
    ensures Halved(r, disk.crashes, discarded)
    ensures NewCrashes(r, old(disk.crashes), disk.crashes, disk.site, {})
  {
    ghost var s := disk.Snapshot();
    ok := disk.RemoveTree(Temp(evac));
    discarded := if ok then {} else r.Original().Keys - disk.Snapshot().Files(Temp(evac)).Keys;
    FramedRemoval(r, s, disk.Snapshot(), evac);
    forall c | c in disk.crashes && c !in old(disk.crashes) ensures ReplaceCrash(r, c.disk, {}) {
      FramedRemoval(r, s, c.disk, evac);
    }
  }

  /** The removal of the scratch directory in the `finally` clause (store.py:443-445). */
  method DropScratch(disk: Disk, scratch: nat, ghost r: Replacement, ghost discarded: set<Name>) returns (ok: bool)
    requires disk.Valid() && r.Fresh() && r.Frames(disk.Snapshot()) && Temp(scratch) in disk.dirs
    requires r.scratch == scratch && ReplaceCrash(r, disk.Snapshot(), discarded)
    modifies disk`dirs, disk`crashes, disk`faults
    ensures disk.Faults(ok)
    ensures disk.Valid() && r.Frames(disk.Snapshot()) &&
      OnlyDir(Temp(scratch), old(disk.Snapshot()), disk.Snapshot())
    ensures ok ==> Temp(scratch) !in disk.dirs
    ensures ReplaceCrash(r, disk.Snapshot(), discarded)
    ensures NewCrashes(r, old(disk.crashes), disk.crashes, disk.site, discarded)
  {
    ghost var s := disk.Snapshot();
    ok := disk.RemoveTree(Temp(scratch));
    FramedRemoval(r, s, disk.Snapshot(), scratch);
    forall c | c in disk.crashes && c !in old(disk.crashes) ensures ReplaceCrash(r, c.disk, discarded) {
      FramedRemoval(r, s, c.disk, scratch);
    }
  }

  /** Making the temporary directories touches nothing else. */
  lemma TempsAside(r: Replacement, s: DiskState)
    requires r.Frames(s) && s.Files(Canonical) == r.Original()
    ensures ReplaceCrash(r, s, {})
  {
    assert r.Original() - {} == r.Original();
  }

  /** The two mkdtemp calls, which come before the `try` (store.py:406-415). */
  method MakeTemps(disk: Disk, files: Files) returns (ok: bool, scratch: nat, evac: nat)
    requires disk.Valid() && Canonical in disk.dirs
    modifies disk`dirs, disk`crashes, disk`faults, disk`nextTemp
    ensures disk.Faults(ok)
    ensures disk.Valid() && Framed(old(disk.Snapshot()), disk.Snapshot())
    ensures disk.dirs[Canonical] == old(disk.dirs[Canonical])
    ensures var r := Replacement(old(disk.Snapshot()), files, scratch, evac);
            r.Fresh() && r.Frames(disk.Snapshot()) && NewCrashes(r, old(disk.crashes), disk.crashes, disk.site, {})
            && (ok ==> Writing(r, disk.Snapshot()) && disk.dirs[Temp(scratch)] == map[])
  {
    ok, scratch := disk.MakeTemp();
    evac := scratch + 1;
    ghost var s := disk.Snapshot();
    TempsAside(Replacement(old(disk.Snapshot()), files, scratch, evac), s);
    if ok {
      ok, evac := disk.MakeTemp();
      TempsAside(Replacement(old(disk.Snapshot()), files, scratch, evac), s);
      TempsAside(Replacement(old(disk.Snapshot()), files, scratch, evac), disk.Snapshot());
    }
  }

  /** The new files are written aside, the old ones moved out (store.py:418-422). */
  method MakeRoom(disk: Disk, scratch: nat, evac: nat, files: Files, ghost r: Replacement) returns (ok: bool)
    requires disk.Valid() && Writing(r, disk.Snapshot())
    requires r.scratch == scratch && r.evac == evac && r.files == files && disk.dirs[Temp(scratch)] == map[]
    modifies disk`dirs, disk`crashes, disk`faults
    ensures disk.Faults(ok) && disk.Valid()
    ensures if ok then Installing(r, disk.Snapshot()) && disk.dirs[Canonical] == map[]
            else Restoring(r, disk.Snapshot(), r.Original())
    ensures NewCrashes(r, old(disk.crashes), disk.crashes, disk.site, {})
  {
    ok := WriteScratch(disk, scratch, files, r);
    if !ok { return; }
    assert Evacuating(r, disk.Snapshot());
    ok := Evacuate(disk, evac, r);
  }

  /** The body of the `try` (store.py:417-427), with the list of targets an exception leaves behind. */
  method TryReplace(disk: Disk, scratch: nat, evac: nat, files: Files, ghost r: Replacement)
    returns (ok: bool, moved: set<Name>, ghost discarded: set<Name>)
    requires disk.Valid() && Writing(r, disk.Snapshot())
    requires r.scratch == scratch && r.evac == evac && r.files == files && disk.dirs[Temp(scratch)] == map[]
    modifies disk`dirs, disk`crashes, disk`faults
    ensures disk.Faults(ok)
    ensures disk.Valid() && r.Frames(disk.Snapshot()) && Temp(scratch) in disk.dirs
    ensures discarded <= r.Original().Keys
    ensures ok ==> disk.dirs[Canonical] == files && discarded == {} && Temp(r.evac) !in disk.dirs
    ensures discarded != {} ==> disk.dirs[Canonical] == files
    ensures Halved(r, disk.crashes, discarded)
    ensures !ok ==>
      var kept := r.Original() - discarded;
      if moved == {} then Restoring(r, disk.Snapshot(), kept) else Uninstalling(r, disk.Snapshot(), kept, moved)
    ensures NewCrashes(r, old(disk.crashes), disk.crashes, disk.site, discarded)
  {
    moved, discarded := {}, {};
    assert r.Original() - {} == r.Original();
    ok := MakeRoom(disk, scratch, evac, files, r);
    if !ok { return; }
    ok, moved := Install(disk, scratch, r);
    if !ok { return; }
    ok, discarded := DropEvacuated(disk, evac, r);
    Weaken(r, old(disk.crashes), disk.crashes, disk.site, discarded);
  }

  /** The `try` and its `except` clause (store.py:417-442). */
  method ReplaceOrRollback(disk: Disk, scratch: nat, evac: nat, files: Files, ghost r: Replacement)
    returns (outcome: Outcome, ghost discarded: set<Name>)
    requires disk.Valid() && Writing(r, disk.Snapshot())
    requires r.scratch == scratch && r.evac == evac && r.files == files && disk.dirs[Temp(scratch)] == map[]
    modifies disk`dirs, disk`crashes, disk`faults
    ensures disk.Faults(outcome == Done) && outcome in {Done, Restored, Unrestored}
    ensures if outcome == Unrestored then disk.faults >= old(disk.faults) + 2 else Temp(r.evac) !in disk.dirs
    ensures Halved(r, disk.crashes, discarded)
    ensures disk.Valid() && r.Frames(disk.Snapshot()) && Temp(scratch) in disk.dirs
    ensures discarded <= r.Original().Keys
    ensures outcome == Done ==> disk.dirs[Canonical] == files && discarded == {}
    ensures outcome == Restored ==> disk.dirs[Canonical] == r.Original() - discarded
    ensures outcome == Unrestored ==> Conserved(r.Original() - discarded, disk.Snapshot(), evac)
    ensures ReplaceCrash(r, disk.Snapshot(), discarded)
    ensures NewCrashes(r, old(disk.crashes), disk.crashes, disk.site, discarded)
  {
    var ok, moved;
    ok, moved, discarded := TryReplace(disk, scratch, evac, files, r);
    outcome := Done;
    if !ok {
      ok := RollbackReplace(disk, evac, moved, r, discarded);
      outcome := if ok then Restored else Unrestored;
    }
  }

  lemma NothingElse(r: Replacement, s: DiskState)
    requires r.Fresh() && r.Frames(s) && Temp(r.scratch) !in s.dirs && Temp(r.evac) !in s.dirs
    ensures s == r.start.Put(Canonical, s.dirs[Canonical])
  {
    var t := r.start.Put(Canonical, s.dirs[Canonical]);
    forall d: Dir ensures (d in s.dirs <==> d in t.dirs) && (d in s.dirs ==> s.dirs[d] == t.dirs[d]) {
      match d
      case Temp(id) =>
      case Canonical =>
      case Stage => assert s.Files(Stage) == r.start.Files(Stage);
      case Backup => assert s.Files(Backup) == r.start.Files(Backup);
    }
    assert s.dirs == t.dirs;
  }

  /** store.py:395-445.  `discarded` names the original files that a failing removal of the evacuation
      directory (store.py:427) had already unlinked; they are what a rollback cannot bring back. */
  method ReplaceCanonicalFiles(disk: Disk, files: Files)
    returns (outcome: Outcome, ghost r: Replacement, ghost discarded: set<Name>)
    requires disk.Valid() && Canonical in disk.dirs
    modifies disk`dirs, disk`crashes, disk`faults, disk`nextTemp
    ensures disk.Faults(outcome == Done)
    ensures outcome == Done ==> disk.Snapshot() == old(disk.Snapshot()).Put(Canonical, files)
    ensures outcome == ScratchLeft ==> Temp(r.evac) !in disk.dirs
    ensures outcome == Unrestored ==> disk.faults >= old(disk.faults) + 2
    ensures Halved(r, disk.crashes, discarded)
    ensures disk.Valid() && Framed(old(disk.Snapshot()), disk.Snapshot())
    ensures r.start == old(disk.Snapshot()) && r.files == files && r.Fresh()
    ensures discarded <= r.Original().Keys
    ensures outcome in {Done, ScratchLeft} ==> disk.dirs[Canonical] == files && discarded == {}
    ensures outcome == Restored ==> disk.dirs[Canonical] == old(disk.dirs[Canonical]) - discarded
    ensures outcome == Unrestored ==> Conserved(old(disk.dirs[Canonical]) - discarded, disk.Snapshot(), r.evac)
    ensures ReplaceCrash(r, disk.Snapshot(), discarded)
    ensures NewCrashes(r, old(disk.crashes), disk.crashes, disk.site, discarded)
  {
    var ok, scratch, evac := MakeTemps(disk, files);
    r := Replacement(old(disk.Snapshot()), files, scratch, evac);
    assert r.Original() - {} == r.Original();
    if !ok { return Restored, r, {}; }
    ghost var made := disk.crashes;
    outcome, discarded := ReplaceOrRollback(disk, scratch, evac, files, r);
    Weaken(r, old(disk.crashes), made, disk.site, discarded);
    ok := DropScratch(disk, scratch, r, discarded);
    if outcome == Done {
      if ok { NothingElse(r, disk.Snapshot()); } else { outcome := ScratchLeft; }
    }
  }
}
