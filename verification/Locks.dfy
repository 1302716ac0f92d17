/** `exclusive_lock` (agency/fs/locks.py:45-96): a lock of the process around a lock of the operating system. */
module Locks {
  import opened MemoryDisk

  // ----- one caller: the polling loop and its exits -----

  datatype RemoteReply = Granted | Refused | Broken   // `Broken`: an exception other than LockException

  /** What one round of the loop sees: both calls of `cancelled`, both locks, and the clock. */
  datatype Round = Round(cancelledFirst: bool, localFree: bool, remote: RemoteReply, now: real, cancelledThen: bool)

  datatype Exit = Entered | Busy | TimedOut | LockCancelled | Raised | StillPolling

  const POLL_INTERVAL: real := 0.05

  predicate Enters(r: Round) { !r.cancelledFirst && r.localFree && r.remote.Granted? }

  /** The loop goes round once more. */
  predicate Continues(r: Round, wait: bool, deadline: Option<real>) {
    && !r.cancelledFirst && !(r.localFree && !r.remote.Refused?) && wait
    && (deadline.Some? ==> r.now < deadline.value) && !r.cancelledThen
  }

  function Ending(r: Round, wait: bool, deadline: Option<real>): Exit {
    if r.cancelledFirst then LockCancelled
    else if Enters(r) then Entered
    else if r.localFree && r.remote.Broken? then Raised
    else if !wait then Busy
    else if deadline.Some? && deadline.value <= r.now then TimedOut
    else LockCancelled
  }

  /** How the loop ends when it sees these rounds: at the first one that does not continue. */
  function Acquisition(rounds: seq<Round>, wait: bool, deadline: Option<real>): Exit {
    if rounds == [] then StillPolling
    else if Continues(rounds[0], wait, deadline) then Acquisition(rounds[1..], wait, deadline)
    else Ending(rounds[0], wait, deadline)
  }

  /** The two flags of the function beside what the caller really holds. */
  class Caller {
    var acquiredLocal: bool
    var acquiredRemote: bool
    var holdsLocal: bool
    var holdsRemote: bool

    ghost predicate Consistent() reads this {
      acquiredLocal == holdsLocal && acquiredRemote == holdsRemote
    }

    ghost predicate Holds(local: bool, remote: bool) reads this {
      Consistent() && holdsLocal == local && holdsRemote == remote
    }

    constructor ()
      ensures Holds(false, false)
    {
      acquiredLocal, acquiredRemote, holdsLocal, holdsRemote := false, false, false, false;
    }

    method Acquire(rounds: seq<Round>, wait: bool, deadline: Option<real>) returns (exit: Exit)
      requires Holds(false, false)
      modifies this
      ensures exit == Acquisition(rounds, wait, deadline)
      ensures Consistent()
      ensures exit.Entered? <==> holdsRemote
      ensures exit.Entered? || exit.Raised? <==> holdsLocal
    {
      var i := 0;
      while i < |rounds|
        invariant 0 <= i <= |rounds| && Holds(false, false)
        invariant Acquisition(rounds, wait, deadline) == Acquisition(rounds[i..], wait, deadline)
      {
        var r := rounds[i];
        assert rounds[i..][1..] == rounds[i + 1..];
        if r.cancelledFirst { return LockCancelled; }
        acquiredLocal, holdsLocal := r.localFree, r.localFree;
        if !acquiredLocal {
          if !wait { return Busy; }
        } else {
          match r.remote
          case Granted =>
            acquiredRemote, holdsRemote := true, true;
            return Entered;
          case Broken =>
            return Raised;
          case Refused =>
            holdsLocal := false;
            acquiredLocal := false;
            if !wait { return Busy; }
        }
        if !wait { return Busy; }
        if deadline.Some? && r.now >= deadline.value { return TimedOut; }
        if r.cancelledThen { return LockCancelled; }
        i := i + 1;
      }
      return StillPolling;
    }

    /** The `finally` clause; a failing unlock is ignored and closing the file drops the lock anyway. */
    method Release(unlocks: bool)
      requires Consistent()
      modifies this
      ensures !holdsLocal && !holdsRemote
    {
      if acquiredRemote && unlocks { holdsRemote := false; }
      holdsRemote := false;                 // lock_file.close()
      if acquiredLocal { holdsLocal := false; }
    }

    /** The whole context manager.  `entered` says whether the body ran; it ran holding both locks. */
    method ExclusiveLock(rounds: seq<Round>, wait: bool, start: real, timeout: Option<real>, unlocks: bool)
        returns (exit: Exit, entered: bool)
      requires Holds(false, false)
      modifies this
      ensures exit == Acquisition(rounds, wait, Deadline(start, timeout))
      ensures entered <==> exit.Entered?
      ensures !holdsLocal && !holdsRemote
    {
      exit := Acquire(rounds, wait, Deadline(start, timeout));
      entered := exit.Entered?;
      assert entered ==> holdsLocal && holdsRemote;
      Release(unlocks);
    }
  }

  function Deadline(start: real, timeout: Option<real>): Option<real> {
    if timeout.None? then None else Some(start + timeout.value)
  }

  /** A caller enters exactly when some round grants both locks and no earlier round ended the loop. */
  lemma {:induction false} EntersExactlyWhenGranted(rounds: seq<Round>, wait: bool, deadline: Option<real>)
    ensures Acquisition(rounds, wait, deadline).Entered? <==>
      exists i :: 0 <= i < |rounds| && Enters(rounds[i]) &&
        forall j | 0 <= j < i :: Continues(rounds[j], wait, deadline)
  {
    if rounds != [] {
      var rest := rounds[1..];
      EntersExactlyWhenGranted(rest, wait, deadline);
      if Continues(rounds[0], wait, deadline) {
        if Acquisition(rest, wait, deadline).Entered? {
          var i :| 0 <= i < |rest| && Enters(rest[i]) && forall j | 0 <= j < i :: Continues(rest[j], wait, deadline);
          assert Enters(rounds[i + 1]);
          assert forall j | 0 <= j < i + 1 :: Continues(rounds[j], wait, deadline) by {
            forall j | 0 <= j < i + 1 ensures Continues(rounds[j], wait, deadline) {
              if j > 0 { assert Continues(rest[j - 1], wait, deadline); }
            }
          }
        }
        forall i | 0 <= i < |rounds| && Enters(rounds[i]) &&
          forall j | 0 <= j < i :: Continues(rounds[j], wait, deadline)
          ensures Acquisition(rest, wait, deadline).Entered?
        {
          assert Enters(rest[i - 1]);
          assert forall j | 0 <= j < i - 1 :: Continues(rest[j], wait, deadline) by {
            forall j | 0 <= j < i - 1 ensures Continues(rest[j], wait, deadline) { assert rest[j] == rounds[j + 1]; }
          }
        }
      }
    }
  }

  /** The same in terms of what the caller asked for: with `wait`, a round before `start + timeout` in which nobody
      cancels and some lock is taken is followed by another; the first round that frees both locks is the entry. */
  lemma EntersInTime(rounds: seq<Round>, wait: bool, start: real, timeout: Option<real>)
    ensures Acquisition(rounds, wait, Deadline(start, timeout)).Entered? <==>
      exists i :: 0 <= i < |rounds| && !rounds[i].cancelledFirst && rounds[i].localFree && rounds[i].remote.Granted? &&
        forall j | 0 <= j < i ::
          && wait && !rounds[j].cancelledFirst && !rounds[j].cancelledThen
          && (rounds[j].localFree ==> rounds[j].remote == Refused)
          && (timeout.Some? ==> rounds[j].now < start + timeout.value)
  {
    EntersExactlyWhenGranted(rounds, wait, Deadline(start, timeout));
    forall j | 0 <= j < |rounds|
      ensures Continues(rounds[j], wait, Deadline(start, timeout)) <==>
        && wait && !rounds[j].cancelledFirst && !rounds[j].cancelledThen
        && (rounds[j].localFree ==> rounds[j].remote == Refused)
        && (timeout.Some? ==> rounds[j].now < start + timeout.value) {}
  }

  /** How a caller that does not enter is told: by the first round that does not go on. */
  lemma {:induction false} EndsAsSeen(rounds: seq<Round>, i: nat, wait: bool, deadline: Option<real>)
    requires i < |rounds| && !Enters(rounds[i]) && !Continues(rounds[i], wait, deadline)
    requires forall j | 0 <= j < i :: Continues(rounds[j], wait, deadline)
    ensures
      var r := rounds[i];
      Acquisition(rounds, wait, deadline) ==
        if r.cancelledFirst then LockCancelled
        else if r.localFree && r.remote == Broken then Raised
        else if !wait then Busy
        else if deadline.Some? && r.now >= deadline.value then TimedOut
        else LockCancelled
  {
    if i > 0 {
      assert Continues(rounds[0], wait, deadline);
      EndsAsSeen(rounds[1..], i - 1, wait, deadline);
    }
  }

  /** With a timeout the loop ends: a round happens at least one poll interval after the one before it, so no run
      sees more rounds than fit before the deadline. */
  lemma TimeoutEndsPolling(rounds: seq<Round>, wait: bool, start: real, timeout: real)
    requires forall i | 0 <= i < |rounds| :: rounds[i].now >= start + POLL_INTERVAL * i as real
    requires rounds != [] && POLL_INTERVAL * (|rounds| - 1) as real >= timeout
    ensures Acquisition(rounds, wait, Deadline(start, Some(timeout))) != StillPolling
  {
    LaterRoundsEnd(rounds, wait, start, timeout, 0);
  }

  lemma {:induction false} LaterRoundsEnd(rounds: seq<Round>, wait: bool, start: real, timeout: real, passed: nat)
    requires forall i | 0 <= i < |rounds| :: rounds[i].now >= start + POLL_INTERVAL * (passed + i) as real
    requires POLL_INTERVAL * (passed + |rounds| - 1) as real >= timeout && rounds != []
    ensures Acquisition(rounds, wait, Deadline(start, Some(timeout))) != StillPolling
  {
    if Continues(rounds[0], wait, Deadline(start, Some(timeout))) {
      assert rounds[0].now < start + timeout;
      assert |rounds| > 1;
      LaterRoundsEnd(rounds[1..], wait, start, timeout, passed + 1);
    }
  }

  lemma NoWaitAsksOnce(rounds: seq<Round>, deadline: Option<real>)
    requires rounds != []
    ensures Acquisition(rounds, false, deadline) == Acquisition(rounds[..1], false, deadline) != StillPolling
  {}

  // ----- every interleaving of any number of callers in any number of processes -----

  datatype Thread = Thread(process: nat, id: nat)

  datatype Pc = Outside | Polling | HasLocal | Inside | Leaving | Unlocked | Closed

  datatype Attempt = Attempt(pc: Pc, acquiredLocal: bool, acquiredRemote: bool)

  /** `local` is the in-process lock table, `remote` the callers whose file handle carries the OS lock. */
  datatype State = State(attempts: map<Thread, Attempt>, local: map<nat, Thread>, remote: set<Thread>) {
    function At(t: Thread): Attempt { if t in attempts then attempts[t] else Attempt(Outside, false, false) }

    function Go(t: Thread, a: Attempt): State { this.(attempts := attempts[t := a]) }
  }

  datatype Step =
    | Open(t: Thread)
    | TakeLocal(t: Thread)
    | TakeRemote(t: Thread)
    | RefuseRemote(t: Thread)
    | BreakRemote(t: Thread)
    | GiveUp(t: Thread)                   // busy, timed out or cancelled
    | Leave(t: Thread)                    // the body ended, normally or not
    | Unlock(t: Thread, works: bool)
    | Close(t: Thread)
    | FreeLocal(t: Thread)

  /** The OS lock is only trusted to keep other processes out. */
  predicate OsGrants(s: State, t: Thread) {
    forall u | u in s.remote :: u.process == t.process
  }

  function Next(s: State, step: Step): State {
    var t := step.t;
    var a := s.At(t);
    match step
    case Open(_) => if a.pc.Outside? then s.Go(t, Attempt(Polling, false, false)) else s
    case TakeLocal(_) =>
      if a.pc.Polling? && t.process !in s.local
      then s.Go(t, Attempt(HasLocal, true, a.acquiredRemote)).(local := s.local[t.process := t]) else s
    case TakeRemote(_) =>
      if a.pc.HasLocal? && OsGrants(s, t)
      then s.Go(t, Attempt(Inside, a.acquiredLocal, true)).(remote := s.remote + {t})
      else s
    case RefuseRemote(_) =>
      if a.pc.HasLocal? then s.Go(t, Attempt(Polling, false, a.acquiredRemote)).(local := s.local - {t.process}) else s
    case BreakRemote(_) => if a.pc.HasLocal? then s.Go(t, a.(pc := Leaving)) else s
    case GiveUp(_) => if a.pc.Polling? then s.Go(t, a.(pc := Leaving)) else s
    case Leave(_) => if a.pc.Inside? then s.Go(t, a.(pc := Leaving)) else s
    case Unlock(_, works) =>
      if !a.pc.Leaving? then s
      else s.Go(t, a.(pc := Unlocked)).(remote := if a.acquiredRemote && works then s.remote - {t} else s.remote)
    case Close(_) => if a.pc.Unlocked? then s.Go(t, a.(pc := Closed)).(remote := s.remote - {t}) else s
    case FreeLocal(_) =>
      if !a.pc.Closed? then s
      else s.Go(t, Attempt(Outside, false, false)).(local := if a.acquiredLocal then s.local - {t.process} else s.local)
  }

  function Run(s: State, steps: seq<Step>): State
    decreases |steps|
  {
    if steps == [] then s else Run(Next(s, steps[0]), steps[1..])
  }

  ghost predicate Owns(s: State, t: Thread) { t.process in s.local && s.local[t.process] == t }

  ghost predicate AttemptOk(s: State, t: Thread) {
    var a := s.At(t);
    && (a.acquiredLocal <==> Owns(s, t))
    && (t in s.remote ==> a.acquiredRemote && a.acquiredLocal && a.pc in {Inside, Leaving, Unlocked})
    && (a.pc.Inside? ==> t in s.remote)
    && (a.pc.HasLocal? ==> a.acquiredLocal && !a.acquiredRemote)
    && (a.pc in {Outside, Polling} ==> !a.acquiredLocal && !a.acquiredRemote)
  }

  ghost predicate Inv(s: State) {
    && (forall t: Thread :: AttemptOk(s, t))
    && (forall p | p in s.local :: s.local[p].process == p)
    && forall t, u | t in s.remote && u in s.remote :: t == u
  }

  lemma StepKeepsInv(s: State, step: Step)
    requires Inv(s)
    ensures Inv(Next(s, step))
  {
    var n := Next(s, step);
    assert AttemptOk(s, step.t);
    forall t: Thread ensures AttemptOk(n, t) { assert AttemptOk(s, t); }
    forall t, u | t in n.remote && u in n.remote ensures t == u {
      assert AttemptOk(s, t) && AttemptOk(s, u);
    }
  }

  lemma {:induction false} RunKeepsInv(s: State, steps: seq<Step>)
    requires Inv(s)
    ensures Inv(Run(s, steps))
    decreases |steps|
  {
    if steps != [] {
      StepKeepsInv(s, steps[0]);
      RunKeepsInv(Next(s, steps[0]), steps[1..]);
    }
  }

  /** At most one caller is inside, across all threads of all processes. */
  lemma MutualExclusion(steps: seq<Step>, t: Thread, u: Thread)
    ensures
      var s := Run(State(map[], map[], {}), steps);
      s.At(t).pc.Inside? && s.At(u).pc.Inside? ==> t == u
  {
    var start := State(map[], map[], {});
    assert forall t: Thread :: AttemptOk(start, t);
    RunKeepsInv(start, steps);
    var s := Run(start, steps);
    assert AttemptOk(s, t) && AttemptOk(s, u);
  }

  /** A caller that is out, whichever way it left, holds nothing; and when every caller is out or polling, the next
      one to try gets in. */
  lemma NothingIsLeaked(steps: seq<Step>, t: Thread)
    ensures
      var s := Run(State(map[], map[], {}), steps);
      && (s.At(t).pc.Outside? ==> !Owns(s, t) && t !in s.remote)
      && (s.At(t).pc.Polling? && (forall u: Thread :: s.At(u).pc in {Outside, Polling}) ==>
            Next(Next(s, TakeLocal(t)), TakeRemote(t)).At(t).pc.Inside?)
  {
    var start := State(map[], map[], {});
    assert forall t: Thread :: AttemptOk(start, t);
    RunKeepsInv(start, steps);
    var s := Run(start, steps);
    assert AttemptOk(s, t);
    assert t.process in s.local ==> AttemptOk(s, s.local[t.process]);
    forall u | u in s.remote ensures s.At(u).pc !in {Outside, Polling} { assert AttemptOk(s, u); }
  }

  /** The steps by which a caller leaves, from wherever it is: the body ends, an exception or refusal ends the attempt;
      then the `finally` clause. */
  function WayOut(s: State, t: Thread, works: bool): seq<Step> {
    match s.At(t).pc
    case Outside => []
    case Polling => [GiveUp(t), Unlock(t, works), Close(t), FreeLocal(t)]
    case HasLocal => [BreakRemote(t), Unlock(t, works), Close(t), FreeLocal(t)]
    case Inside => [Leave(t), Unlock(t, works), Close(t), FreeLocal(t)]
    case Leaving => [Unlock(t, works), Close(t), FreeLocal(t)]
    case Unlocked => [Close(t), FreeLocal(t)]
    case Closed => [FreeLocal(t)]
  }

  /** The caller is out and holds nothing, and nothing of the others has changed. */
  ghost predicate GotOut(s: State, n: State, t: Thread) {
    && n.At(t).pc == Outside && !Owns(n, t) && t !in n.remote
    && (forall u: Thread | u != t :: n.At(u) == s.At(u) && (u in n.remote <==> u in s.remote))
    && forall p | p != t.process :: (p in n.local <==> p in s.local) && (p in s.local ==> n.local[p] == s.local[p])
  }

  /** Every caller can get out by itself, whether the unlocking works or not. */
  lemma EveryoneGetsOut(s: State, t: Thread, works: bool)
    requires Inv(s)
    ensures GotOut(s, Run(s, WayOut(s, t, works)), t)
  {
    assert AttemptOk(s, t);
    var a := s.At(t);
    if a.pc in {Polling, HasLocal, Inside} {
      var first := WayOut(s, t, works)[0];
      assert WayOut(s, t, works)[1..] == [Unlock(t, works), Close(t), FreeLocal(t)];
      StepKeepsInv(s, first);
      FinallyGetsOut(Next(s, first), t, works);
    } else if a.pc.Leaving? {
      FinallyGetsOut(s, t, works);
    } else if a.pc.Unlocked? {
      ClosingGetsOut(s, t);
    } else if a.pc.Closed? {
      LastStep(s, t);
    }
  }

  lemma LastStep(s: State, t: Thread)
    requires Inv(s) && s.At(t).pc.Closed?
    ensures GotOut(s, Run(s, [FreeLocal(t)]), t)
  {
    assert AttemptOk(s, t);
    assert [FreeLocal(t)][1..] == [];
  }

  lemma ClosingGetsOut(s: State, t: Thread)
    requires Inv(s) && s.At(t).pc.Unlocked?
    ensures GotOut(s, Run(s, [Close(t), FreeLocal(t)]), t)
  {
    assert AttemptOk(s, t);
    StepKeepsInv(s, Close(t));
    assert [Close(t), FreeLocal(t)][1..] == [FreeLocal(t)];
    LastStep(Next(s, Close(t)), t);
  }

  lemma FinallyGetsOut(s: State, t: Thread, works: bool)
    requires Inv(s) && s.At(t).pc.Leaving?
    ensures GotOut(s, Run(s, [Unlock(t, works), Close(t), FreeLocal(t)]), t)
  {
    assert AttemptOk(s, t);
    StepKeepsInv(s, Unlock(t, works));
    assert [Unlock(t, works), Close(t), FreeLocal(t)][1..] == [Close(t), FreeLocal(t)];
    ClosingGetsOut(Next(s, Unlock(t, works)), t);
  }
}
