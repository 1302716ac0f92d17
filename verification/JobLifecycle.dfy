/** One durable job record under any number of workers, cancellers, reconcilers and metadata writers
    (agency/jobs/store.py, agency/jobs/execution.py, agency/jobs/submission.py, agency/jobs/reconciliation.py). */
module JobLifecycle {
  import opened Bytes
  import opened MemoryDisk

  /** The immutable part of a record is its spec; the digest is identified with what it digests. */
  datatype JobRecord = JobRecord(spec: Bytes, digest: Bytes, status: Status, metadata: Bytes)

  function ImmutableDigest(spec: Bytes): Bytes { spec }

  /** The transition table (jobs/store.py:26-33). */
  function ValidTransitions(from: Status): set<Status> {
    match from
    case Queued => {WaitingForMemory, Running, Failed, Cancelled}
    case WaitingForMemory => {Running, Failed, Cancelled, Complete}
    case Running => {Complete, Failed}
    case Complete => {}
    case Failed => {}
    case Cancelled => {}
  }

  predicate Terminal(status: Status) { status in {Complete, Failed, Cancelled} }

  function Rank(status: Status): nat {
    match status
    case Queued => 3
    case WaitingForMemory => 2
    case Running => 1
    case _ => 0
  }

  lemma TransitionsDescend(from: Status, to: Status)
    requires to in ValidTransitions(from)
    ensures Rank(to) < Rank(from) && from !in {Complete, Failed, Cancelled}
  {}

  lemma TerminalExactly(status: Status)
    ensures Terminal(status) <==> ValidTransitions(status) == {}
    ensures Terminal(status) <==> status !in {Queued, WaitingForMemory, Running}
  {
    if !Terminal(status) { assert Failed in ValidTransitions(status); }
  }

  /** The table allows every move down but two: a queued job cannot be complete at once, nor a running one cancelled. */
  lemma TableExactly(from: Status, to: Status)
    ensures to in ValidTransitions(from) <==>
      Rank(to) < Rank(from) && (from, to) != (Queued, Complete) && (from, to) != (Running, Cancelled)
  {}

  /** `transition_job`: under the job lock, from the expected status only. */
  function Transitioned(r: JobRecord, expected: Status, status: Status): Option<JobRecord> {
    if r.status != expected || status !in ValidTransitions(expected) then None else Some(r.(status := status))
  }

  /** `cancel_job` */
  function CancelledRecord(r: JobRecord): Option<JobRecord> {
    if r.status in {Queued, WaitingForMemory} then Some(r.(status := Cancelled)) else None
  }

  /** The record file, written as a whole. */
  class JobFile {
    var record: JobRecord

    ghost predicate Valid() reads this { record.digest == ImmutableDigest(record.spec) }

    /** `write_job` refuses a record whose digest does not match its spec. */
    method WriteJob(updated: JobRecord) returns (ok: bool)
      requires Valid()
      modifies this
      ensures Valid() && ok == (updated.digest == ImmutableDigest(updated.spec))
      ensures record == if ok then updated else old(record)
    {
      ok := updated.digest == ImmutableDigest(updated.spec);
      if ok { record := updated; }
    }

    method TransitionJob(expected: Status, status: Status, metadata: Bytes) returns (ok: bool)
      requires Valid()
      modifies this
      ensures Valid()
      ensures ok <==> Transitioned(old(record), expected, status).Some?
      ensures record ==
        if ok then Transitioned(old(record), expected, status).value.(metadata := metadata) else old(record)
    {
      if record.status != expected { return false; }
      if status !in ValidTransitions(expected) { return false; }
      ok := WriteJob(record.(status := status, metadata := metadata));
    }

    method CancelJob() returns (ok: bool)
      requires Valid()
      modifies this
      ensures Valid()
      ensures ok <==> CancelledRecord(old(record)).Some?
      ensures record == if ok then CancelledRecord(old(record)).value else old(record)
    {
      if record.status !in {Queued, WaitingForMemory} { return false; }
      ok := WriteJob(record.(status := Cancelled));
    }
  }

  // ----- every interleaving -----

  /** Where a worker is in `execute_job`.  `MetadataWrite` and `FailWrite` carry what an earlier unlocked read saw. */
  datatype Pc =
    | Fresh                                // before queued -> waiting_for_memory
    | AwaitingLock                         // polling for the memory lock
    | Locked                               // lock held, cancellation not yet re-checked
    | Checked                              // about to stage
    | Staged                               // about to go waiting_for_memory -> running
    | Started                              // about to call integration.run
    | Ran                                  // integration.run has been called
    | Refused(wanted: Status)              // a mark was refused; about to read whether the job has that status
    | SawComplete                          // the publication ended with the job complete
    | Caught                               // a failed publication; about to read whether the job is failed
    | MetadataWrite(seen: JobRecord)
    | Terminalizing                        // about to read the status in _terminalize_failure
    | FailWrite(expected: Status)
    | Exited

  /** Who holds the job lock. */
  datatype Actor = Worker(w: nat) | Canceller | Sweeper(r: nat) | Recoverer

  /** A locked transition between its read and its write: what will be written. */
  datatype Pending = Pending(author: Actor, update: JobRecord)

  /** A locked transition is two steps: one reads the record under the job lock, `Land` writes and releases it.
      `LaunchFailed` and `WriteMetadata` take no lock. */
  datatype Action =
    | Claim(w: nat)
    | Lock(w: nat)
    | SeeCancelled(w: nat)                 // `cancelled()` while polling or under the lock
    | CheckCancelled(w: nat)
    | Stage(w: nat)
    | Start(w: nat)
    | Run(w: nat)
    | MarkComplete(w: nat)
    | MarkFailed(w: nat)
    | Recheck(w: nat)
    | PublicationError(w: nat)             // `except MemoryPublicationError` in the worker
    | ReadForMetadata(w: nat, metadata: Bytes)
    | WriteMetadata(w: nat)
    | Raise(w: nat)                        // any other exception the worker turns into a failure
    | ReadForFailure(w: nat)
    | FailLocked(w: nat, caught: bool)     // a refused transition may be caught by the outer handler
    | Cancel
    | SweepRead(r: nat)                    // the reconciler read the status and found the worker dead
    | SweepLocked(r: nat)
    | RecoverComplete
    | RecoverFailed
    | LaunchFailed(metadata: Bytes)        // the submitter saves the record it created as failed, whatever is there now
    | Land                                 // the holder of the job lock writes and releases it
    | Abandon(dies: bool)                  // it dies, or its write raises; the lock is released all the same

  /** `claimant`, `runs`, `cancels` and `trace` are bookkeeping: who passed the first transition, how often
      `integration.run` was reached, how often a cancel was written, and the statuses the record went through. */
  datatype State = State(record: JobRecord, pending: Option<Pending>, workers: map<nat, Pc>, holder: Option<nat>,
                         sweeps: map<nat, Status>, claimant: Option<nat>, runs: nat, cancels: nat,
                         trace: seq<Status>) {
    function At(w: nat): Pc { if w in workers then workers[w] else Exited }

    function Go(w: nat, pc: Pc): State { this.(workers := workers[w := pc]) }

    function Leave(w: nat): State {
      Go(w, Exited).(holder := if holder == Some(w) then None else holder)
    }

    function Save(r: JobRecord): State {
      this.(record := r, trace := if r.status == record.status then trace else trace + [r.status])
    }

    /** The worker is between a locked read and its write. */
    predicate Holds(w: nat) { pending.Some? && pending.value.author == Worker(w) }

    /** The locked read: nothing else happens when the transition is refused. */
    function Take(author: Actor, next: Option<JobRecord>): State {
      if next.Some? then this.(pending := Some(Pending(author, next.value))) else this
    }

    /** What a worker does after its write. */
    function GoOn(w: nat): State {
      match At(w)
      case Fresh => Go(w, AwaitingLock).(claimant := Some(w))
      case Staged => Go(w, Started)
      case Ran => Go(w, if record.status == Complete then SawComplete else Caught)
      case _ => Leave(w)
    }

    /** What a worker does when its write raises. */
    function Raised(w: nat): State {
      match At(w)
      case Fresh => Go(w, Exited)
      case Ran => Go(w, Caught)
      case _ => Go(w, Terminalizing)
    }

    function Landed(author: Actor): State {
      match author
      case Worker(w) => GoOn(w)
      case Canceller => this.(cancels := cancels + 1)
      case Sweeper(r) => this.(sweeps := sweeps - {r})
      case Recoverer => this
    }

    function Abandoned(author: Actor, dies: bool): State {
      match author
      case Worker(w) => if dies then Leave(w) else Raised(w)
      case Sweeper(r) => this.(sweeps := sweeps - {r})
      case _ => this
    }
  }

  /** Steps of the canceller, the reconciler, recovery and the submitter. */
  predicate External(a: Action) {
    a.Cancel? || a.SweepRead? || a.SweepLocked? || a.RecoverComplete? || a.RecoverFailed? || a.LaunchFailed?
  }

  predicate OfWorker(a: Action) { !External(a) && !a.Land? && !a.Abandon? }

  /** One atomic step; an action that is not enabled changes nothing.  A worker that holds the job lock does nothing
      else. */
  function Next(s: State, a: Action): State {
    if a.Land? then if s.pending.None? then s else LandStep(s)
    else if a.Abandon? then
      (if s.pending.None? then s else s.(pending := None).Abandoned(s.pending.value.author, a.dies))
    else if External(a) then ExternalStep(s, a)
    else if s.Holds(a.w) then s
    else if Early(a) then EarlyStep(s, a)
    else LateStep(s, a)
  }

  function LandStep(s: State): State
    requires s.pending.Some?
  {
    s.(pending := None).Save(s.pending.value.update).Landed(s.pending.value.author)
  }

  function ExternalStep(s: State, a: Action): State
    requires External(a)
  {
    if a.LaunchFailed? then s.Save(s.record.(status := Failed, metadata := a.metadata))
    else if a.SweepRead? then
      (if s.record.status in {Running, WaitingForMemory} then s.(sweeps := s.sweeps[a.r := s.record.status]) else s)
    else if s.pending.Some? then s
    else if a.Cancel? then s.Take(Canceller, CancelledRecord(s.record))
    else if a.RecoverComplete? then s.Take(Recoverer, Transitioned(s.record, Running, Complete))
    else if a.RecoverFailed? then s.Take(Recoverer, Transitioned(s.record, Running, Failed))
    else if a.r !in s.sweeps then s
    else
      var next := Transitioned(s.record, s.sweeps[a.r], Failed);
      if next.None? then s.(sweeps := s.sweeps - {a.r}) else s.Take(Sweeper(a.r), next)
  }

  /** The steps up to the call of `integration.run`. */
  predicate Early(a: Action) {
    a.Claim? || a.Lock? || a.SeeCancelled? || a.CheckCancelled? || a.Stage? || a.Start? || a.Run?
  }

  function EarlyStep(s: State, a: Action): State
    requires Early(a)
  {
    match a
    case Claim(w) =>
      if s.At(w) != Fresh || s.pending.Some? then s
      else
        var next := Transitioned(s.record, Queued, WaitingForMemory);
        if next.None? then s.Go(w, Exited) else s.Take(Worker(w), next)
    case Lock(w) =>
      if s.At(w) == AwaitingLock && s.holder.None? then s.Go(w, Locked).(holder := Some(w)) else s
    case SeeCancelled(w) =>
      if s.At(w) in {AwaitingLock, Locked} && s.record.status == Cancelled then s.Leave(w) else s
    case CheckCancelled(w) =>
      if s.At(w) == Locked && s.record.status != Cancelled then s.Go(w, Checked) else s
    case Stage(w) => if s.At(w) == Checked then s.Go(w, Staged) else s
    case Start(w) =>
      if s.At(w) != Staged || s.pending.Some? then s
      else
        var next := Transitioned(s.record, WaitingForMemory, Running);
        if next.None? then s.Go(w, Terminalizing) else s.Take(Worker(w), next)
    case Run(w) => if s.At(w) == Started then s.Go(w, Ran).(runs := s.runs + 1) else s
  }

  function Mark(s: State, w: nat, status: Status): State {
    if s.At(w) != Ran || s.pending.Some? then s
    else
      var next := Transitioned(s.record, Running, status);
      if next.None? then s.Go(w, Refused(status)) else s.Take(Worker(w), next)
  }

  function LateStep(s: State, a: Action): State
    requires OfWorker(a) && !Early(a)
  {
    match a
    case MarkComplete(w) => Mark(s, w, Complete)
    case MarkFailed(w) => Mark(s, w, Failed)
    case Recheck(w) =>
      if !s.At(w).Refused? then s
      else if s.record.status != s.At(w).wanted then s.Go(w, Terminalizing)
      else s.Go(w, if s.record.status == Complete then SawComplete else Caught)
    case PublicationError(w) => if s.At(w) == Ran || s.At(w).Refused? then s.Go(w, Caught) else s
    case ReadForMetadata(w, metadata) =>
      if s.At(w) == SawComplete then
        (if s.record.status == Complete then s.Go(w, MetadataWrite(s.record.(metadata := metadata))) else s.Leave(w))
      else if s.At(w) == Caught then
        (if s.record.status == Failed then s.Go(w, MetadataWrite(s.record.(metadata := metadata)))
         else s.Go(w, Terminalizing))
      else s
    case WriteMetadata(w) =>
      if s.At(w).MetadataWrite? then s.Save(s.At(w).seen).Leave(w) else s
    case Raise(w) =>
      if s.At(w) in {AwaitingLock, Locked, Checked, Staged, Started, Ran, SawComplete, Caught} || s.At(w).Refused?
      then s.Go(w, Terminalizing) else s
    case ReadForFailure(w) =>
      if s.At(w) != Terminalizing then s
      else if s.record.status in {Running, WaitingForMemory} then s.Go(w, FailWrite(s.record.status)) else s.Leave(w)
    case FailLocked(w, caught) =>
      if !s.At(w).FailWrite? || s.pending.Some? then s
      else
        var next := Transitioned(s.record, s.At(w).expected, Failed);
        if next.Some? then s.Take(Worker(w), next)
        else if caught then s.Go(w, Terminalizing)
        else s.Leave(w)
  }

  function Execute(s: State, actions: seq<Action>): State
    decreases |actions|
  {
    if actions == [] then s else Execute(Next(s, actions[0]), actions[1..])
  }

  ghost predicate Init(s: State) {
    && s.record.status == Queued && s.record.digest == ImmutableDigest(s.record.spec) && s.pending.None?
    && (forall w | w in s.workers :: s.workers[w] == Fresh)
    && s.holder.None? && s.sweeps == map[] && s.claimant.None? && s.runs == 0 && s.cancels == 0 && s.trace == [Queued]
  }

  // ----- the invariant -----

  /** A path of the transition table. */
  ghost predicate Path(trace: seq<Status>) {
    && trace != []
    && forall i | 0 <= i < |trace| - 1 :: trace[i + 1] in ValidTransitions(trace[i])
  }

  /** The phases before and after the call of `integration.run`. */
  predicate BeforeRun(pc: Pc) { pc in {AwaitingLock, Locked, Checked, Staged} }

  predicate AfterRun(pc: Pc) { pc in {Ran, SawComplete, Caught} || pc.Refused? || pc.MetadataWrite? }

  /** The job was running once: it still is, or is over, and so is whatever is about to be written. */
  predicate Launched(s: State) {
    && s.record.status in {Running, Complete, Failed}
    && (s.pending.Some? ==> s.pending.value.update.status in {Complete, Failed})
  }

  ghost predicate WorkerOk(s: State, w: nat) {
    var pc := s.At(w);
    && (pc != Fresh && pc != Exited ==> s.claimant == Some(w))
    && (pc == Fresh ==> s.claimant != Some(w))
    && (BeforeRun(pc) ==> s.runs == 0)
    && (pc == Started ==> s.runs == 0 && s.cancels == 0 && Launched(s))
    && (AfterRun(pc) ==> s.runs == 1)
    && (pc.MetadataWrite? ==>
          (pc.seen.status in {Complete, Failed} && pc.seen.spec == s.record.spec && pc.seen.digest == s.record.digest))
  }

  /** What a locked transition is about to write fits where its author stands. */
  predicate AuthorOk(s: State, author: Actor, status: Status) {
    match author
    case Worker(w) =>
      (match s.At(w)
       case Fresh => s.claimant.None? && status == WaitingForMemory
       case Staged => status == Running
       case Ran => status in {Complete, Failed}
       case FailWrite(_) => status == Failed
       case _ => false)
    case Canceller => s.runs == 0 && status == Cancelled
    case Sweeper(_) => status == Failed
    case Recoverer => status in {Complete, Failed}
  }

  predicate PendingOk(s: State) {
    s.pending.Some? ==>
      var p := s.pending.value;
      && p.update.spec == s.record.spec && p.update.digest == s.record.digest
      && s.cancels == 0 && s.record.status != Cancelled && AuthorOk(s, p.author, p.update.status)
  }

  predicate CountsOk(s: State) {
    && s.record.digest == ImmutableDigest(s.record.spec)
    && (s.claimant.Some? ==> s.record.status != Queued)
    && (s.claimant.None? ==> s.runs == 0)
    && s.runs <= 1
    && (s.runs == 1 ==> Launched(s))
    && (s.cancels > 0 ==> s.runs == 0 && s.record.status in {Cancelled, Failed})
  }

  /** What every step keeps, whatever it is. */
  ghost predicate Exclusive(s: State) {
    && CountsOk(s) && PendingOk(s)
    && forall w: nat :: WorkerOk(s, w)
  }

  /** The record became failed under a transition to something else that has been read and not yet written. */
  predicate Stale(s: State) {
    s.pending.Some? && s.record.status == Failed && s.pending.value.update.status != Failed
  }

  /** What a metadata write will save is what the record says by then. */
  ghost predicate Fits(s: State, w: nat) {
    s.At(w).MetadataWrite? ==> s.At(w).seen.status == s.record.status
  }

  /** What is kept as long as every write respects the table. */
  ghost predicate OnTable(s: State) {
    && Path(s.trace) && s.trace[0] == Queued && s.trace[|s.trace| - 1] == s.record.status
    && (forall w: nat :: Fits(s, w))
    && (s.cancels > 0 ==> s.record.status == Cancelled)
    && (s.pending.Some? ==>
          s.record.status == Failed || s.pending.value.update.status in ValidTransitions(s.record.status))
  }

  ghost predicate Inv(s: State) { Exclusive(s) && OnTable(s) }

  /** What no step may undo. */
  ghost predicate Monotone(s: State, t: State) {
    && t.record.spec == s.record.spec && t.record.digest == s.record.digest
    && s.trace <= t.trace && s.runs <= t.runs && s.cancels <= t.cancels
    && (Terminal(s.record.status) ==> t.record.status == s.record.status)
  }

  lemma InitIsInv(s: State)
    requires Init(s)
    ensures Inv(s)
  {}

  // ----- running at most once, and not after a cancel: for every run -----

  /** Nothing that was counted is taken back. */
  predicate Counted(s: State, t: State) {
    && s.runs <= t.runs && s.cancels <= t.cancels
    && t.record.spec == s.record.spec && t.record.digest == s.record.digest
  }

  predicate Kept(s: State, t: State) { CountsOk(t) && PendingOk(t) && Counted(s, t) }

  lemma OutsidersKeep(s: State, a: Action)
    requires Exclusive(s) && External(a)
    ensures Kept(s, ExternalStep(s, a))
  {}

  lemma EarlyKeeps(s: State, a: Action)
    requires Exclusive(s) && Early(a) && !s.Holds(a.w)
    ensures Kept(s, EarlyStep(s, a))
  {
    assert WorkerOk(s, a.w);
  }

  predicate Marks(a: Action) { a.MarkComplete? || a.MarkFailed? }

  lemma MarkKeeps(s: State, a: Action)
    requires Exclusive(s) && Marks(a) && !s.Holds(a.w)
    ensures Kept(s, LateStep(s, a))
  {
    assert WorkerOk(s, a.w);
  }

  lemma FailLockedKeeps(s: State, w: nat, caught: bool)
    requires Exclusive(s) && !s.Holds(w)
    ensures Kept(s, LateStep(s, FailLocked(w, caught)))
  {
    assert WorkerOk(s, w);
  }

  lemma MetadataKeeps(s: State, w: nat)
    requires Exclusive(s) && !s.Holds(w)
    ensures Kept(s, LateStep(s, WriteMetadata(w)))
  {
    assert WorkerOk(s, w);
  }

  /** The other steps after the run only move the worker on. */
  predicate Turns(a: Action) { OfWorker(a) && !Early(a) && !Marks(a) && !a.FailLocked? && !a.WriteMetadata? }

  ghost predicate Turned(s: State, t: State, w: nat) {
    t == s.(workers := t.workers, holder := t.holder) && forall v: nat | v != w :: t.At(v) == s.At(v)
  }

  lemma TurnsOnly(s: State, a: Action)
    requires Turns(a)
    ensures Turned(s, LateStep(s, a), a.w)
  {}

  lemma TurnedKeeps(s: State, t: State, w: nat)
    requires Exclusive(s) && Turned(s, t, w) && !s.Holds(w)
    ensures Kept(s, t)
  {}

  lemma LateKeeps(s: State, a: Action)
    requires Exclusive(s) && OfWorker(a) && !Early(a) && !s.Holds(a.w)
    ensures Kept(s, LateStep(s, a))
  {
    if Marks(a) { MarkKeeps(s, a); }
    else if a.FailLocked? { FailLockedKeeps(s, a.w, a.caught); }
    else if a.WriteMetadata? { MetadataKeeps(s, a.w); }
    else {
      TurnsOnly(s, a);
      TurnedKeeps(s, LateStep(s, a), a.w);
    }
  }

  lemma EndKeeps(s: State, a: Action)
    requires Exclusive(s) && (a.Land? || a.Abandon?)
    ensures Kept(s, Next(s, a))
  {
    if s.pending.Some? && s.pending.value.author.Worker? { assert WorkerOk(s, s.pending.value.author.w); }
  }

  lemma UnderOutsiders(s: State, a: Action, w: nat)
    requires Exclusive(s) && External(a)
    ensures WorkerOk(ExternalStep(s, a), w)
  {
    assert WorkerOk(s, w);
  }

  lemma UnderEarly(s: State, a: Action, w: nat)
    requires Exclusive(s) && Early(a) && !s.Holds(a.w) && a.w != w
    ensures WorkerOk(EarlyStep(s, a), w)
  {
    assert WorkerOk(s, w) && WorkerOk(s, a.w);
  }

  lemma UnderLate(s: State, a: Action, w: nat)
    requires Exclusive(s) && OfWorker(a) && !Early(a) && !s.Holds(a.w) && a.w != w
    ensures WorkerOk(LateStep(s, a), w)
  {
    assert WorkerOk(s, w) && WorkerOk(s, a.w);
  }

  lemma EarlyActorKept(s: State, a: Action)
    requires Exclusive(s) && Early(a) && !s.Holds(a.w)
    ensures WorkerOk(EarlyStep(s, a), a.w)
  {
    assert WorkerOk(s, a.w);
  }

  lemma LateActorKept(s: State, a: Action)
    requires Exclusive(s) && OfWorker(a) && !Early(a) && !s.Holds(a.w)
    ensures WorkerOk(LateStep(s, a), a.w)
  {
    assert WorkerOk(s, a.w);
  }

  lemma KeptAtLanding(s: State, w: nat)
    requires Exclusive(s)
    ensures WorkerOk(Next(s, Land), w)
  {
    assert WorkerOk(s, w);
    if s.pending.Some? && s.pending.value.author.Worker? { assert WorkerOk(s, s.pending.value.author.w); }
  }

  lemma KeptWhenAbandoned(s: State, dies: bool, w: nat)
    requires Exclusive(s)
    ensures WorkerOk(Next(s, Abandon(dies)), w)
  {
    assert WorkerOk(s, w);
    if s.pending.Some? && s.pending.value.author.Worker? { assert WorkerOk(s, s.pending.value.author.w); }
  }

  lemma OutsideStep(s: State, a: Action)
    requires Exclusive(s) && External(a)
    ensures Exclusive(Next(s, a)) && Counted(s, Next(s, a))
  {
    OutsidersKeep(s, a);
    forall w: nat ensures WorkerOk(ExternalStep(s, a), w) { UnderOutsiders(s, a, w); }
  }

  lemma WorkerStep(s: State, a: Action)
    requires Exclusive(s) && OfWorker(a) && !s.Holds(a.w)
    ensures Exclusive(Next(s, a)) && Counted(s, Next(s, a))
  {
    if Early(a) { EarlyKeeps(s, a); } else { LateKeeps(s, a); }
    forall w: nat ensures WorkerOk(Next(s, a), w) {
      if Early(a) {
        if a.w == w { EarlyActorKept(s, a); } else { UnderEarly(s, a, w); }
      } else {
        if a.w == w { LateActorKept(s, a); } else { UnderLate(s, a, w); }
      }
    }
  }

  lemma EndStep(s: State, a: Action)
    requires Exclusive(s) && (a.Land? || a.Abandon?)
    ensures Exclusive(Next(s, a)) && Counted(s, Next(s, a))
  {
    EndKeeps(s, a);
    forall w: nat ensures WorkerOk(Next(s, a), w) {
      if a.Land? { KeptAtLanding(s, w); } else { KeptWhenAbandoned(s, a.dies, w); }
    }
  }

  lemma StepKeepsExclusive(s: State, a: Action)
    requires Exclusive(s)
    ensures Exclusive(Next(s, a)) && Counted(s, Next(s, a))
  {
    if External(a) { OutsideStep(s, a); }
    else if !OfWorker(a) { EndStep(s, a); }
    else if !s.Holds(a.w) { WorkerStep(s, a); }
  }

  lemma {:induction false} RunKeepsExclusive(s: State, actions: seq<Action>)
    requires Exclusive(s)
    ensures Exclusive(Execute(s, actions)) && Counted(s, Execute(s, actions))
    decreases |actions|
  {
    if actions != [] {
      StepKeepsExclusive(s, actions[0]);
      RunKeepsExclusive(Next(s, actions[0]), actions[1..]);
    }
  }

  /** In every interleaving, launch failures included: `integration.run` is reached at most once and never for a job
      that was cancelled, a job that ran is not cancelled, and spec and digest stay what they were. */
  lemma ExecutionIsExclusive(s: State, actions: seq<Action>)
    requires Init(s)
    ensures
      var t := Execute(s, actions);
      && t.runs <= 1 && (t.cancels > 0 ==> t.runs == 0)
      && (t.runs == 1 ==> t.record.status in {Running, Complete, Failed})
      && t.record.spec == s.record.spec && t.record.digest == s.record.digest
  {
    InitIsInv(s);
    RunKeepsExclusive(s, actions);
  }

  lemma {:induction false} ExecuteInParts(s: State, before: seq<Action>, after: seq<Action>)
    ensures Execute(s, before + after) == Execute(Execute(s, before), after)
    decreases |before|
  {
    if before == [] {
      assert before + after == after;
    } else {
      assert (before + after)[1..] == before[1..] + after;
      ExecuteInParts(Next(s, before[0]), before[1..], after);
    }
  }

  /** Cancelling and running exclude each other for good, from any moment of a run on. */
  lemma CancelExcludesRun(s: State, before: seq<Action>, after: seq<Action>)
    requires Init(s)
    ensures
      var m, t := Execute(s, before), Execute(s, before + after);
      && (m.cancels > 0 || m.record.status == Cancelled ==> t.runs == 0)
      && (m.runs == 1 ==> t.cancels == 0 && t.record.status != Cancelled)
  {
    InitIsInv(s);
    ExecuteInParts(s, before, after);
    RunKeepsExclusive(s, before);
    RunKeepsExclusive(Execute(s, before), after);
    CancelledMeansCancel(s, before);
  }

  lemma CancelledByCancel(s: State, a: Action)
    requires Exclusive(s) && (s.record.status == Cancelled ==> s.cancels > 0)
    ensures Next(s, a).record.status == Cancelled ==> Next(s, a).cancels > 0
  {
    if a.WriteMetadata? { assert WorkerOk(s, a.w); }
    else if OfWorker(a) { WorkersRead(s, a); }
    else if External(a) && !a.LaunchFailed? { OutsidersRead(s, a); }
  }

  /** The record says cancelled only after a cancel. */
  lemma {:induction false} CancelledMeansCancel(s: State, actions: seq<Action>)
    requires Exclusive(s) && (s.record.status == Cancelled ==> s.cancels > 0)
    ensures Execute(s, actions).record.status == Cancelled ==> Execute(s, actions).cancels > 0
    decreases |actions|
  {
    if actions != [] {
      CancelledByCancel(s, actions[0]);
      StepKeepsExclusive(s, actions[0]);
      CancelledMeansCancel(Next(s, actions[0]), actions[1..]);
    }
  }

  // ----- a job under way has its worker, unless that died -----

  /** A worker that still has something to do about a job in this status. */
  predicate AtWork(pc: Pc, status: Status) {
    pc !in {Exited, Fresh, SawComplete} && !pc.MetadataWrite? && (pc.FailWrite? ==> pc.expected == status)
  }

  /** Whoever made the job wait or run is still at work on it. */
  ghost predicate Attended(s: State) {
    s.record.status in {WaitingForMemory, Running} ==>
      s.claimant.Some? && AtWork(s.At(s.claimant.value), s.record.status)
  }

  lemma OutsidersLeaveAttended(s: State, a: Action)
    requires Exclusive(s) && Attended(s) && External(a)
    ensures Attended(Next(s, a))
  {}

  lemma EarlyAttends(s: State, a: Action)
    requires Exclusive(s) && Attended(s) && Early(a) && !s.Holds(a.w)
    ensures Attended(EarlyStep(s, a))
  {
    assert WorkerOk(s, a.w);
  }

  lemma LateAttends(s: State, a: Action)
    requires Exclusive(s) && Attended(s) && OfWorker(a) && !Early(a) && !s.Holds(a.w)
    ensures Attended(LateStep(s, a))
  {
    assert WorkerOk(s, a.w);
  }

  lemma LandAttends(s: State)
    requires Exclusive(s) && Attended(s)
    ensures Attended(Next(s, Land))
  {
    if s.pending.Some? && s.pending.value.author.Worker? { assert WorkerOk(s, s.pending.value.author.w); }
  }

  lemma StepKeepsAttended(s: State, a: Action)
    requires Exclusive(s) && Attended(s) && !a.Abandon?
    ensures Attended(Next(s, a))
  {
    if a.Land? { LandAttends(s); }
    else if External(a) { OutsidersLeaveAttended(s, a); }
    else if !s.Holds(a.w) {
      if Early(a) { EarlyAttends(s, a); } else { LateAttends(s, a); }
    }
  }

  lemma {:induction false} RunKeepsAttended(s: State, actions: seq<Action>)
    requires Exclusive(s) && Attended(s) && Steady(actions)
    ensures Attended(Execute(s, actions))
    decreases |actions|
  {
    if actions != [] {
      assert actions[0] in actions;
      StepKeepsAttended(s, actions[0]);
      StepKeepsExclusive(s, actions[0]);
      RunKeepsAttended(Next(s, actions[0]), actions[1..]);
    }
  }

  /** As long as nobody dies under the job lock, a waiting or running job has a worker that is not done with it: no exit
      of `execute_job` leaves the job behind. */
  lemma NoJobIsLeftBehind(s: State, actions: seq<Action>)
    requires Init(s) && Steady(actions)
    ensures
      var t := Execute(s, actions);
      t.record.status in {WaitingForMemory, Running} ==>
        t.claimant.Some? && t.At(t.claimant.value) != Exited && t.At(t.claimant.value) != Fresh
  {
    InitIsInv(s);
    RunKeepsAttended(s, actions);
  }

  // ----- the transition table: which steps keep to it -----

  /** A write that respects the table: the launch failure asks no status, and a locked write trusts what was read. */
  predicate Gentle(s: State, a: Action) {
    && (a.LaunchFailed? ==> s.record.status !in {Cancelled, Complete})
    && (a.Land? ==> !Stale(s))
  }

  lemma SaveKeepsPath(s: State, r: JobRecord)
    requires Path(s.trace) && s.trace[|s.trace| - 1] == s.record.status
    requires r.status == s.record.status || r.status in ValidTransitions(s.record.status)
    ensures Path(s.Save(r).trace) && s.trace <= s.Save(r).trace && s.Save(r).trace[|s.Save(r).trace| - 1] == r.status
  {}

  /** The status moves along the table, and what the next write will do is known. */
  ghost predicate Moved(s: State, t: State) {
    && (t.record.status == s.record.status || t.record.status in ValidTransitions(s.record.status))
    && t.trace == s.Save(t.record).trace
    && (t.cancels > 0 ==> t.record.status == Cancelled)
    && (t.pending.Some? ==>
          t.record.status == Failed || t.pending.value.update.status in ValidTransitions(t.record.status))
  }

  /** Nothing was written; at most a transition the table allows was read under the lock. */
  predicate OnlyRead(s: State, t: State) {
    && t.record == s.record && t.trace == s.trace && t.cancels == s.cancels
    && (t.pending == s.pending
        || (s.pending.None? && t.pending.Some? && t.pending.value.update.status in ValidTransitions(s.record.status)))
  }

  lemma WorkersRead(s: State, a: Action)
    requires OfWorker(a) && !a.WriteMetadata?
    ensures OnlyRead(s, Next(s, a))
  {}

  lemma OutsidersRead(s: State, a: Action)
    requires External(a) && !a.LaunchFailed?
    ensures OnlyRead(s, Next(s, a)) && Next(s, a).workers == s.workers
  {}

  lemma MetadataMoves(s: State, w: nat)
    requires Inv(s)
    ensures
      var t := Next(s, WriteMetadata(w));
      t.record.status == s.record.status && t.trace == s.trace && t.cancels == s.cancels && t.pending == s.pending
  {
    assert Fits(s, w);
  }

  lemma StepMoves(s: State, a: Action)
    requires Inv(s) && Gentle(s, a)
    ensures Moved(s, Next(s, a))
  {
    if a.WriteMetadata? { MetadataMoves(s, a.w); }
    else if OfWorker(a) { WorkersRead(s, a); }
    else if External(a) && !a.LaunchFailed? { OutsidersRead(s, a); }
  }

  /** A worker has only just read the record it will save, or has read it before. */
  lemma SeenNowOrBefore(s: State, a: Action, w: nat)
    requires OfWorker(a) && Next(s, a).At(w).MetadataWrite?
    ensures Next(s, a).At(w) == s.At(w) || Next(s, a).At(w).seen.status == s.record.status
  {}

  lemma WorkersFit(s: State, a: Action, w: nat)
    requires Inv(s) && OfWorker(a)
    ensures Fits(Next(s, a), w)
  {
    assert Fits(s, w);
    if a.WriteMetadata? { MetadataMoves(s, a.w); } else { WorkersRead(s, a); }
    if Next(s, a).At(w).MetadataWrite? { SeenNowOrBefore(s, a, w); }
  }

  lemma OutsidersFit(s: State, a: Action, w: nat)
    requires Inv(s) && Gentle(s, a) && External(a)
    ensures Fits(Next(s, a), w)
  {
    assert WorkerOk(s, w) && Fits(s, w);
    if !a.LaunchFailed? { OutsidersRead(s, a); }
  }

  lemma EndsFit(s: State, a: Action, w: nat)
    requires Inv(s) && Gentle(s, a) && (a.Land? || a.Abandon?)
    ensures Fits(Next(s, a), w)
  {
    assert WorkerOk(s, w) && Fits(s, w);
  }

  lemma StepKeepsInv(s: State, a: Action)
    requires Inv(s) && Gentle(s, a)
    ensures Inv(Next(s, a)) && Monotone(s, Next(s, a))
  {
    var t := Next(s, a);
    StepKeepsExclusive(s, a);
    StepMoves(s, a);
    SaveKeepsPath(s, t.record);
    forall w: nat ensures Fits(t, w) {
      if OfWorker(a) { WorkersFit(s, a, w); } else if External(a) { OutsidersFit(s, a, w); } else { EndsFit(s, a, w); }
    }
  }

  /** A launch failure that finds the job cancelled or complete, and a locked write over a record that has become
      failed since it was read: no table entry allows either. */
  lemma HarmIsOffTable(s: State, a: Action)
    requires Inv(s) && !Gentle(s, a)
    ensures !Path(Next(s, a).trace)
  {
    var t, n := Next(s, a), |s.trace|;
    assert t.trace == s.trace + [t.record.status] && t.record.status !in ValidTransitions(s.record.status);
    assert t.trace[n - 1] == s.record.status && t.trace[n - 1 + 1] == t.record.status;
  }

  ghost predicate AllGentle(s: State, actions: seq<Action>)
    decreases |actions|
  {
    actions != [] ==> Gentle(s, actions[0]) && AllGentle(Next(s, actions[0]), actions[1..])
  }

  lemma {:induction false} RunKeepsInv(s: State, actions: seq<Action>)
    requires Inv(s) && AllGentle(s, actions)
    ensures Inv(Execute(s, actions)) && Monotone(s, Execute(s, actions))
    decreases |actions|
  {
    if actions != [] {
      StepKeepsInv(s, actions[0]);
      RunKeepsInv(Next(s, actions[0]), actions[1..]);
    }
  }

  lemma TraceStep(s: State, a: Action)
    ensures s.trace <= Next(s, a).trace
  {
    if OfWorker(a) && !a.WriteMetadata? { WorkersRead(s, a); }
    else if External(a) && !a.LaunchFailed? { OutsidersRead(s, a); }
  }

  lemma {:induction false} TraceGrows(s: State, actions: seq<Action>)
    ensures s.trace <= Execute(s, actions).trace
    decreases |actions|
  {
    if actions != [] {
      TraceStep(s, actions[0]);
      TraceGrows(Next(s, actions[0]), actions[1..]);
    }
  }

  lemma PrefixOfPath(prefix: seq<Status>, trace: seq<Status>)
    requires prefix <= trace && prefix != [] && Path(trace)
    ensures Path(prefix)
  {
    forall i | 0 <= i < |prefix| - 1 ensures prefix[i + 1] in ValidTransitions(prefix[i]) {
      assert trace[i + 1] in ValidTransitions(trace[i]);
    }
  }

  lemma {:induction false} HarmStays(s: State, actions: seq<Action>)
    requires Inv(s) && !AllGentle(s, actions)
    ensures !Path(Execute(s, actions).trace)
    decreases |actions|
  {
    var t := Next(s, actions[0]);
    if Gentle(s, actions[0]) {
      StepKeepsInv(s, actions[0]);
      HarmStays(t, actions[1..]);
    } else {
      HarmIsOffTable(s, actions[0]);
      TraceGrows(t, actions[1..]);
      TraceStep(s, actions[0]);
      if Path(Execute(s, actions).trace) { PrefixOfPath(t.trace, Execute(s, actions).trace); }
    }
  }

  // ----- exactly which launch failures leave it -----

  /** The locked transition at work is written in the end: its holder neither dies nor fails before. */
  ghost predicate Lands(actions: seq<Action>)
    decreases |actions|
  {
    actions != [] && (actions[0].Land? || (!actions[0].Abandon? && Lands(actions[1..])))
  }

  /** No locked transition to anything but failed is between its read and a write that will come. */
  ghost predicate NoneUnderway(s: State, rest: seq<Action>) {
    s.pending.Some? && s.pending.value.update.status != Failed ==> !Lands(rest)
  }

  /** Each launch failure finds the job neither cancelled nor complete, and no such transition under way. */
  ghost predicate AllHarmless(s: State, actions: seq<Action>)
    decreases |actions|
  {
    actions != [] ==>
      && (actions[0].LaunchFailed? ==>
            s.record.status !in {Cancelled, Complete} && NoneUnderway(s, actions[1..]))
      && AllHarmless(Next(s, actions[0]), actions[1..])
  }

  /** Only a launch failure makes a pending transition stale, and only its end ends that. */
  lemma StaleStep(s: State, a: Action)
    requires Inv(s) && Gentle(s, a)
    ensures
      var t := Next(s, a);
      && (a.Land? || a.Abandon? ==> !Stale(t))
      && (a.LaunchFailed? ==> (Stale(t) <==> s.pending.Some? && s.pending.value.update.status != Failed))
      && (!a.Land? && !a.Abandon? && !a.LaunchFailed? ==> (Stale(t) <==> Stale(s)))
  {
    if a.WriteMetadata? { MetadataMoves(s, a.w); }
    else if OfWorker(a) { WorkersRead(s, a); }
    else if External(a) && !a.LaunchFailed? { OutsidersRead(s, a); }
  }

  lemma {:induction false} GentleExactly(s: State, actions: seq<Action>)
    requires Inv(s)
    ensures AllGentle(s, actions) <==> AllHarmless(s, actions) && (Stale(s) ==> !Lands(actions))
    decreases |actions|
  {
    if actions != [] {
      if Gentle(s, actions[0]) {
        StaleStep(s, actions[0]);
        StepKeepsInv(s, actions[0]);
        GentleExactly(Next(s, actions[0]), actions[1..]);
      }
    }
  }

  /** A run keeps to the transition table if and only if no launch failure meets a cancelled or a complete job, or
      falls between the read and the write of a locked transition to anything but failed. */
  lemma OnTableExactly(s: State, actions: seq<Action>)
    requires Init(s)
    ensures Path(Execute(s, actions).trace) <==> AllHarmless(s, actions)
  {
    InitIsInv(s);
    GentleExactly(s, actions);
    if AllGentle(s, actions) { RunKeepsInv(s, actions); } else { HarmStays(s, actions); }
  }

  /** The same without looking ahead: nothing but `failed` is about to be written. */
  ghost predicate AllClear(s: State, actions: seq<Action>)
    decreases |actions|
  {
    actions != [] ==>
      && (actions[0].LaunchFailed? ==>
            && s.record.status !in {Cancelled, Complete}
            && (s.pending.Some? ==> s.pending.value.update.status == Failed))
      && AllClear(Next(s, actions[0]), actions[1..])
  }

  /** Nobody dies or fails while it holds the job lock. */
  predicate Steady(actions: seq<Action>) { forall a | a in actions :: !a.Abandon? }

  lemma PendingStays(s: State, a: Action)
    requires s.pending.Some? && !a.Land? && !a.Abandon?
    ensures Next(s, a).pending == s.pending
  {}

  lemma {:induction false} SteadyLands(s: State, actions: seq<Action>)
    requires s.pending.Some? && Steady(actions) && Execute(s, actions).pending.None?
    ensures Lands(actions)
    decreases |actions|
  {
    assert actions[0] in actions;
    if !actions[0].Land? {
      PendingStays(s, actions[0]);
      SteadyLands(Next(s, actions[0]), actions[1..]);
    }
  }

  lemma {:induction false} ClearExactly(s: State, actions: seq<Action>)
    requires Steady(actions) && Execute(s, actions).pending.None?
    ensures AllHarmless(s, actions) <==> AllClear(s, actions)
    decreases |actions|
  {
    if actions != [] {
      var t := Next(s, actions[0]);
      if actions[0].LaunchFailed? && s.pending.Some? { SteadyLands(t, actions[1..]); }
      ClearExactly(t, actions[1..]);
    }
  }

  /** For runs in which every locked transition that was read is written, the condition is about the moments of the
      launch failures alone. */
  lemma OnTableWhenSettled(s: State, actions: seq<Action>)
    requires Init(s) && Steady(actions) && Execute(s, actions).pending.None?
    ensures Path(Execute(s, actions).trace) <==> AllClear(s, actions)
  {
    OnTableExactly(s, actions);
    ClearExactly(s, actions);
  }

  /** For one launch failure: whether it and the write of what was being written then keep to the table. */
  lemma LaunchFailureExactly(s: State, metadata: Bytes)
    requires Inv(s)
    ensures
      var t := Next(s, LaunchFailed(metadata));
      (Path(t.trace) && Path(Next(t, Land).trace) <==>
         s.record.status !in {Cancelled, Complete} && (s.pending.Some? ==> s.pending.value.update.status == Failed))
  {
    var a := LaunchFailed(metadata);
    if Gentle(s, a) {
      StepKeepsInv(s, a);
      StaleStep(s, a);
      if Stale(Next(s, a)) { HarmIsOffTable(Next(s, a), Land); } else { StepKeepsInv(Next(s, a), Land); }
    } else {
      HarmIsOffTable(s, a);
    }
  }

  lemma {:induction false} PathDescends(trace: seq<Status>, i: nat)
    requires Path(trace) && i < |trace|
    ensures Rank(trace[i]) + i <= Rank(trace[0])
  {
    if i > 0 {
      PathDescends(trace, i - 1);
      TransitionsDescend(trace[i - 1], trace[i]);
    }
  }

  /** Then the record has moved at most three times, ends where the trace ends, a cancelled job is still cancelled, and
      from a terminal status on nothing moves. */
  lemma SafetyOverRuns(s: State, before: seq<Action>, after: seq<Action>)
    requires Init(s) && AllHarmless(s, before + after)
    ensures
      var m, t := Execute(s, before), Execute(s, before + after);
      && t.trace != [] && t.trace[0] == Queued && t.trace[|t.trace| - 1] == t.record.status && |t.trace| <= 4
      && (t.cancels > 0 ==> t.record.status == Cancelled)
      && (m.record.status in {Complete, Failed, Cancelled} ==> t.trace == m.trace && t.record.status == m.record.status)
  {
    InitIsInv(s);
    GentleExactly(s, before + after);
    RunKeepsInv(s, before + after);
    var m, t := Execute(s, before), Execute(s, before + after);
    PathDescends(t.trace, |t.trace| - 1);
    GentleInParts(s, before, after);
    ExecuteInParts(s, before, after);
    RunKeepsInv(s, before);
    RunKeepsInv(m, after);
    var n := |m.trace|;
    assert n < |t.trace| ==> t.trace[n - 1 + 1] in ValidTransitions(t.trace[n - 1]);
  }

  lemma {:induction false} GentleInParts(s: State, before: seq<Action>, after: seq<Action>)
    requires AllGentle(s, before + after)
    ensures AllGentle(s, before) && AllGentle(Execute(s, before), after)
    decreases |before|
  {
    if before == [] {
      assert before + after == after;
    } else {
      assert (before + after)[1..] == before[1..] + after;
      GentleInParts(Next(s, before[0]), before[1..], after);
    }
  }

  // ----- how a job gets through -----

  lemma Extend(start: State, actions: seq<Action>, a: Action, s: State) returns (more: seq<Action>, t: State)
    requires s == Execute(start, actions)
    ensures more == actions + [a] && t == Next(s, a) && t == Execute(start, more)
  {
    more, t := actions + [a], Next(s, a);
    ExecuteInParts(start, actions, [a]);
    assert [a][1..] == [];
  }

  function Record(spec: Bytes, status: Status, m: Bytes): JobRecord {
    JobRecord(spec, ImmutableDigest(spec), status, m)
  }

  /** A worker moves on, without a write. */
  lemma Walk(start: State, before: seq<Action>, s: State, a: Action, pc: Pc) returns (actions: seq<Action>, t: State)
    requires s == Execute(start, before) && s.pending.None? && 0 in s.workers
    requires
      || (a == Lock(0) && s.At(0) == AwaitingLock && s.holder.None? && pc == Locked)
      || (a == CheckCancelled(0) && s.At(0) == Locked && s.record.status == WaitingForMemory && pc == Checked)
      || (a == Action.Stage(0) && s.At(0) == Checked && pc == Staged)
      || (a == Run(0) && s.At(0) == Started && pc == Ran)
      || (a == Raise(0) && s.At(0) == Ran && pc == Terminalizing)
      || (a == ReadForFailure(0) && s.At(0) == Terminalizing && s.record.status == Running && pc == FailWrite(Running))
    ensures t == Execute(start, actions)
    ensures t == s.(workers := s.workers[0 := pc], holder := if a.Lock? then Some(0) else s.holder,
                    runs := if a.Run? then s.runs + 1 else s.runs)
  {
    actions, t := Extend(start, before, a, s);
  }

  /** A locked transition that is read and written undisturbed. */
  lemma Transition(start: State, before: seq<Action>, s: State, a: Action, author: Actor, to: Status)
      returns (actions: seq<Action>, t: State)
    requires s == Execute(start, before) && s.pending.None?
    requires
      || (a == Claim(0) && author == Worker(0) && s.At(0) == Fresh && s.record.status == Queued
          && to == WaitingForMemory)
      || (a == Action.Start(0) && author == Worker(0) && s.At(0) == Staged && s.record.status == WaitingForMemory
          && to == Running)
      || (a == MarkComplete(0) && author == Worker(0) && s.At(0) == Ran && s.record.status == Running
          && to == Complete)
      || (a == FailLocked(0, false) && author == Worker(0) && s.At(0) == FailWrite(Running)
          && s.record.status == Running && to == Failed)
      || (a == Cancel && author == Canceller && s.record.status in {Queued, WaitingForMemory} && to == Cancelled)
      || (a == SweepLocked(1) && author == Sweeper(1) && 1 in s.sweeps && s.sweeps[1] == s.record.status == Running
          && to == Failed)
      || (a == RecoverComplete && author == Recoverer && s.record.status == Running && to == Complete)
      || (a == RecoverFailed && author == Recoverer && s.record.status == Running && to == Failed)
      || (a == MarkFailed(0) && author == Worker(0) && s.At(0) == Ran && s.record.status == Running && to == Failed)
    ensures t == Execute(start, actions)
    ensures t == s.(record := s.record.(status := to), trace := s.trace + [to]).Landed(author)
  {
    var held;
    actions, held := Extend(start, before, a, s);
    assert held == s.(pending := Some(Pending(author, s.record.(status := to))));
    actions, t := Extend(start, actions, Land, held);
  }

  /** One worker, undisturbed, claims the job, gets the memory lock and comes to call `integration.run`. */
  lemma Claimed(spec: Bytes, m: Bytes) returns (actions: seq<Action>, t: State)
    ensures t == Execute(Created(spec, m, map[0 := Fresh]), actions)
    ensures t == State(Record(spec, WaitingForMemory, m), None, map[0 := Locked], Some(0), map[], Some(0), 0, 0,
                       [Queued, WaitingForMemory])
  {
    var start := Created(spec, m, map[0 := Fresh]);
    actions, t := Transition(start, [], start, Claim(0), Worker(0), WaitingForMemory);
    assert t.workers == map[0 := AwaitingLock];
    actions, t := Walk(start, actions, t, Lock(0), Locked);
    assert t.workers == map[0 := Locked];
  }

  lemma StageMade(spec: Bytes, m: Bytes) returns (actions: seq<Action>, t: State)
    ensures t == Execute(Created(spec, m, map[0 := Fresh]), actions)
    ensures t == State(Record(spec, WaitingForMemory, m), None, map[0 := Staged], Some(0), map[], Some(0), 0, 0,
                       [Queued, WaitingForMemory])
  {
    var start := Created(spec, m, map[0 := Fresh]);
    actions, t := Claimed(spec, m);
    actions, t := Walk(start, actions, t, CheckCancelled(0), Checked);
    assert t.workers == map[0 := Checked];
    actions, t := Walk(start, actions, t, Action.Stage(0), Staged);
    assert t.workers == map[0 := Staged];
  }

  lemma Called(spec: Bytes, m: Bytes) returns (actions: seq<Action>, t: State)
    ensures t == Execute(Created(spec, m, map[0 := Fresh]), actions)
    ensures t == State(Record(spec, Running, m), None, map[0 := Ran], Some(0), map[], Some(0), 1, 0,
                       [Queued, WaitingForMemory, Running])
  {
    var start := Created(spec, m, map[0 := Fresh]);
    actions, t := StageMade(spec, m);
    actions, t := Transition(start, actions, t, Action.Start(0), Worker(0), Running);
    assert t.workers == map[0 := Started];
    actions, t := Walk(start, actions, t, Run(0), Ran);
    assert t.workers == map[0 := Ran];
  }

  lemma RunRaised(spec: Bytes, m: Bytes) returns (actions: seq<Action>, t: State)
    ensures t == Execute(Created(spec, m, map[0 := Fresh]), actions)
    ensures t == State(Record(spec, Running, m), None, map[0 := Terminalizing], Some(0), map[], Some(0), 1, 0,
                       [Queued, WaitingForMemory, Running])
  {
    var start := Created(spec, m, map[0 := Fresh]);
    actions, t := Called(spec, m);
    actions, t := Walk(start, actions, t, Raise(0), Terminalizing);
    assert t.workers == map[0 := Terminalizing];
  }

  lemma FoundFailing(spec: Bytes, m: Bytes) returns (actions: seq<Action>, t: State)
    ensures t == Execute(Created(spec, m, map[0 := Fresh]), actions)
    ensures t == State(Record(spec, Running, m), None, map[0 := FailWrite(Running)], Some(0), map[], Some(0), 1, 0,
                       [Queued, WaitingForMemory, Running])
  {
    var start := Created(spec, m, map[0 := Fresh]);
    actions, t := RunRaised(spec, m);
    actions, t := Walk(start, actions, t, ReadForFailure(0), FailWrite(Running));
    assert t.workers == map[0 := FailWrite(Running)];
  }

  /** It dies under the job lock, its publication on disk. */
  lemma DiedMarking(spec: Bytes, m: Bytes) returns (actions: seq<Action>, t: State)
    ensures t == Execute(Created(spec, m, map[0 := Fresh]), actions)
    ensures t == State(Record(spec, Running, m), None, map[0 := Exited], None, map[], Some(0), 1, 0,
                       [Queued, WaitingForMemory, Running])
  {
    var start := Created(spec, m, map[0 := Fresh]);
    var s, held;
    actions, s := Called(spec, m);
    actions, held := Extend(start, actions, MarkComplete(0), s);
    assert held == s.(pending := Some(Pending(Worker(0), Record(spec, Complete, m))));
    actions, t := Extend(start, actions, Abandon(true), held);
    assert t.workers == map[0 := Exited];
  }

  /** A worker with metadata to add reads the record ... */
  lemma ReadsMetadata(start: State, before: seq<Action>, s: State, result: Bytes)
      returns (actions: seq<Action>, t: State)
    requires s == Execute(start, before) && s.pending.None?
    requires (s.At(0) == SawComplete && s.record.status == Complete) || (s.At(0) == Caught && s.record.status == Failed)
    ensures t == Execute(start, actions) && t == s.Go(0, MetadataWrite(s.record.(metadata := result)))
  {
    actions, t := Extend(start, before, ReadForMetadata(0, result), s);
  }

  /** ... writes it back, and is done. */
  lemma WritesBack(start: State, before: seq<Action>, s: State, r: JobRecord) returns (actions: seq<Action>, t: State)
    requires s == Execute(start, before) && s.pending.None?
    requires s.At(0) == MetadataWrite(r) && r.status == s.record.status
    ensures t == Execute(start, actions) && t == s.(record := r).Leave(0)
  {
    actions, t := Extend(start, before, WriteMetadata(0), s);
  }

  lemma WritesMetadata(start: State, before: seq<Action>, s: State, result: Bytes)
      returns (actions: seq<Action>, t: State)
    requires s == Execute(start, before) && s.pending.None?
    requires (s.At(0) == SawComplete && s.record.status == Complete) || (s.At(0) == Caught && s.record.status == Failed)
    ensures t == Execute(start, actions)
    ensures t == s.(record := s.record.(metadata := result)).Leave(0)
  {
    var seen;
    actions, seen := ReadsMetadata(start, before, s, result);
    actions, t := WritesBack(start, actions, seen, s.record.(metadata := result));
    assert t.workers == s.Leave(0).workers;
  }

  /** A run that succeeds: the job is complete, with the metadata of the run. */
  lemma JobSucceeds(spec: Bytes, m: Bytes, result: Bytes) returns (actions: seq<Action>)
    ensures
      var t := Execute(Created(spec, m, map[0 := Fresh]), actions);
      && t.trace == [Queued, WaitingForMemory, Running, Complete] && t.runs == 1
      && t.record == Record(spec, Complete, result) && t.At(0) == Exited && t.holder.None? && t.pending.None?
  {
    var start := Created(spec, m, map[0 := Fresh]);
    var t;
    actions, t := Called(spec, m);
    actions, t := Transition(start, actions, t, MarkComplete(0), Worker(0), Complete);
    actions, t := WritesMetadata(start, actions, t, result);
  }

  /** A run that does not: the job is failed. */
  lemma JobFails(spec: Bytes, m: Bytes) returns (actions: seq<Action>)
    ensures
      var t := Execute(Created(spec, m, map[0 := Fresh]), actions);
      && t.trace == [Queued, WaitingForMemory, Running, Failed] && t.runs == 1
      && t.At(0) == Exited && t.holder.None? && t.pending.None?
  {
    var start := Created(spec, m, map[0 := Fresh]);
    var t;
    actions, t := FoundFailing(spec, m);
    actions, t := Transition(start, actions, t, FailLocked(0, false), Worker(0), Failed);
  }

  /** A publication that fails and marks the job: the record keeps the metadata of the run. */
  lemma PublicationFails(spec: Bytes, m: Bytes, result: Bytes) returns (actions: seq<Action>)
    ensures
      var t := Execute(Created(spec, m, map[0 := Fresh]), actions);
      && t.trace == [Queued, WaitingForMemory, Running, Failed] && t.runs == 1
      && t.record == Record(spec, Failed, result) && t.At(0) == Exited && t.holder.None? && t.pending.None?
  {
    var start := Created(spec, m, map[0 := Fresh]);
    var t;
    actions, t := Called(spec, m);
    actions, t := Transition(start, actions, t, MarkFailed(0), Worker(0), Failed);
    actions, t := WritesMetadata(start, actions, t, result);
  }

  /** A publication that fails before it marks the job: the worker does. */
  lemma PublicationRaises(spec: Bytes, m: Bytes) returns (actions: seq<Action>, t: State)
    ensures t == Execute(Created(spec, m, map[0 := Fresh]), actions)
    ensures t == State(Record(spec, Running, m), None, map[0 := Terminalizing], Some(0), map[], Some(0), 1, 0,
                       [Queued, WaitingForMemory, Running])
  {
    var start := Created(spec, m, map[0 := Fresh]);
    var s;
    actions, s := Called(spec, m);
    actions, t := Extend(start, actions, PublicationError(0), s);
    assert t.workers == map[0 := Caught];
    actions, t := Extend(start, actions, ReadForMetadata(0, m), t);
    assert t.workers == map[0 := Terminalizing];
  }

  /** Recovery has finished the job under its worker, whose own mark is refused. */
  lemma MarkRefused(spec: Bytes, m: Bytes, done: Status) returns (actions: seq<Action>, t: State)
    requires done in {Complete, Failed}
    ensures t == Execute(Created(spec, m, map[0 := Fresh]), actions)
    ensures t == State(Record(spec, done, m), None, map[0 := Refused(Complete)], Some(0), map[], Some(0), 1, 0,
                       [Queued, WaitingForMemory, Running, done])
  {
    var start := Created(spec, m, map[0 := Fresh]);
    var s;
    actions, s := Called(spec, m);
    actions, s := Transition(start, actions, s, if done == Complete then RecoverComplete else RecoverFailed, Recoverer,
                             done);
    actions, t := Extend(start, actions, MarkComplete(0), s);
    assert t.workers == map[0 := Refused(Complete)];
  }

  /** A job found complete is as good as marked. */
  lemma FoundComplete(spec: Bytes, m: Bytes, result: Bytes) returns (actions: seq<Action>)
    ensures
      var t := Execute(Created(spec, m, map[0 := Fresh]), actions);
      t.trace == [Queued, WaitingForMemory, Running, Complete] && t.record == Record(spec, Complete, result)
  {
    var start := Created(spec, m, map[0 := Fresh]);
    var s, t;
    actions, s := MarkRefused(spec, m, Complete);
    actions, t := Extend(start, actions, Recheck(0), s);
    assert t.At(0) == SawComplete;
    actions, t := WritesMetadata(start, actions, t, result);
  }

  /** One found failed is left failed. */
  lemma FoundFailed(spec: Bytes, m: Bytes) returns (actions: seq<Action>)
    ensures
      var t := Execute(Created(spec, m, map[0 := Fresh]), actions);
      t.trace == [Queued, WaitingForMemory, Running, Failed] && t.At(0) == Exited && t.holder.None?
  {
    var start := Created(spec, m, map[0 := Fresh]);
    var s, t;
    actions, s := MarkRefused(spec, m, Failed);
    actions, t := Extend(start, actions, Recheck(0), s);
    assert t.At(0) == Terminalizing;
    actions, t := Extend(start, actions, ReadForFailure(0), t);
  }

  /** The worker dies in its run: the reconciler fails the job. */
  lemma DeadJobIsSwept(spec: Bytes, m: Bytes) returns (actions: seq<Action>)
    ensures
      var t := Execute(Created(spec, m, map[0 := Fresh]), actions);
      t.trace == [Queued, WaitingForMemory, Running, Failed] && t.sweeps == map[] && t.pending.None?
  {
    var start := Created(spec, m, map[0 := Fresh]);
    var t;
    actions, t := Called(spec, m);
    actions, t := Extend(start, actions, SweepRead(1), t);
    actions, t := Transition(start, actions, t, SweepLocked(1), Sweeper(1), Failed);
    assert t.sweeps == map[];
  }

  /** It dies under the job lock with its publication on disk: recovery completes the job. */
  lemma DeadJobIsRecovered(spec: Bytes, m: Bytes) returns (actions: seq<Action>)
    ensures
      var t := Execute(Created(spec, m, map[0 := Fresh]), actions);
      t.trace == [Queued, WaitingForMemory, Running, Complete] && t.pending.None?
  {
    var start := Created(spec, m, map[0 := Fresh]);
    var t;
    actions, t := DiedMarking(spec, m);
    actions, t := Transition(start, actions, t, RecoverComplete, Recoverer, Complete);
  }

  lemma CancelledWaiting(spec: Bytes, m: Bytes) returns (actions: seq<Action>, t: State)
    ensures t == Execute(Created(spec, m, map[0 := Fresh]), actions)
    ensures t == State(Record(spec, Cancelled, m), None, map[0 := AwaitingLock], None, map[], Some(0), 0, 1,
                       [Queued, WaitingForMemory, Cancelled])
  {
    var start := Created(spec, m, map[0 := Fresh]);
    actions, t := Transition(start, [], start, Claim(0), Worker(0), WaitingForMemory);
    assert t.workers == map[0 := AwaitingLock];
    actions, t := Transition(start, actions, t, Cancel, Canceller, Cancelled);
  }

  /** A user cancels a job whose worker waits for the memory lock: the worker leaves. */
  lemma WaitingJobIsCancelled(spec: Bytes, m: Bytes) returns (actions: seq<Action>)
    ensures
      var t := Execute(Created(spec, m, map[0 := Fresh]), actions);
      t.trace == [Queued, WaitingForMemory, Cancelled] && t.runs == 0 && t.cancels == 1 && t.At(0) == Exited
  {
    var start := Created(spec, m, map[0 := Fresh]);
    var s, t;
    actions, s := CancelledWaiting(spec, m);
    actions, t := Extend(start, actions, SeeCancelled(0), s);
  }

  // ----- the runs that leave it -----

  function Created(spec: Bytes, metadata: Bytes, workers: map<nat, Pc>): State {
    State(JobRecord(spec, ImmutableDigest(spec), Queued, metadata), None, workers, None, map[], None, 0, 0, [Queued])
  }

  lemma ThreeSteps(s: State, a: Action, b: Action, c: Action)
    ensures Execute(s, [a, b, c]) == Next(Next(Next(s, a), b), c)
  {
    assert [a, b, c][1..] == [b, c] && [b, c][1..] == [c] && [c][1..] == [];
    assert Execute(Next(Next(s, a), b), [c]) == Execute(Next(Next(Next(s, a), b), c), []);
  }

  /** The user cancels between the creation of the record and the failing launch. */
  lemma CancelledThenLaunchFailed(spec: Bytes, m: Bytes)
    ensures
      var s := Created(spec, m, map[]);
      && Init(s)
      && Execute(s, [Cancel, Land, LaunchFailed(m)]).trace == [Queued, Cancelled, Failed]
  {
    ThreeSteps(Created(spec, m, map[]), Cancel, Land, LaunchFailed(m));
  }

  /** The launch fails between the read and the write of a cancel: a failed job becomes cancelled. */
  lemma LaunchFailedThenCancelled(spec: Bytes, m: Bytes)
    ensures
      var s := Created(spec, m, map[]);
      && Init(s)
      && Execute(s, [Cancel, LaunchFailed(m), Land]).trace == [Queued, Failed, Cancelled]
  {
    ThreeSteps(Created(spec, m, map[]), Cancel, LaunchFailed(m), Land);
  }

  /** The launch fails between the read and the write of a worker's first transition: the failed job goes on to run. */
  lemma LaunchFailedThenClaimed(spec: Bytes, m: Bytes)
    ensures
      var s := Created(spec, m, map[0 := Fresh]);
      && Init(s)
      && Execute(s, [Claim(0), LaunchFailed(m), Land]).trace == [Queued, Failed, WaitingForMemory]
      && Execute(s, [Claim(0), LaunchFailed(m), Land]).At(0) == AwaitingLock
  {
    ThreeSteps(Created(spec, m, map[0 := Fresh]), Claim(0), LaunchFailed(m), Land);
  }
}
