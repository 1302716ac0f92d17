/** The order in which operations take group, memory and leaf locks, and why no set of them can block each other
    (agency/jobs/store.py:48-101, agency/instances.py:219-304, agency/memory/recovery.py:59-92,
    agency/jobs/submission.py:104-125, agency/jobs/execution.py:308-362). */
module LockOrder {
  import opened Bytes
  import opened MemoryFiles

  /** Config, job and cache locks are leaves: nothing is locked under them. */
  datatype Lock = Group(path: Bytes) | Memory(hash: Bytes) | Leaf(name: Bytes)

  predicate Before(a: Lock, b: Lock) {
    match (a, b)
    case (Group(p), Group(q)) => Less(p, q)
    case (Group(_), _) => !b.Group?
    case (Memory(h), Memory(k)) => Less(h, k)
    case (Memory(_), _) => b.Leaf?
    case (Leaf(_), _) => false
  }

  lemma BeforeIsStrict(a: Lock, b: Lock, c: Lock)
    ensures !Before(a, a)
    ensures Before(a, b) && Before(b, c) ==> Before(a, c)
  {
    match a
    case Group(p) =>
      LessIrreflexive(p);
      if b.Group? && c.Group? && Less(p, b.path) && Less(b.path, c.path) { LessTransitive(p, b.path, c.path); }
    case Memory(h) =>
      LessIrreflexive(h);
      if b.Memory? && c.Memory? && Less(h, b.hash) && Less(b.hash, c.hash) { LessTransitive(h, b.hash, c.hash); }
    case Leaf(_) =>
  }

  // ----- programs over locks -----

  datatype Op = Take(lock: Lock) | Drop(lock: Lock)

  /** From `held` the program ends with `final`, takes only locks behind everything it holds, and drops what it
      holds. */
  ghost predicate Runs(held: set<Lock>, program: seq<Op>, final: set<Lock>)
    decreases |program|
  {
    if program == [] then held == final
    else match program[0]
      case Take(l) => (forall h | h in held :: Before(h, l)) && Runs(held + {l}, program[1..], final)
      case Drop(l) => l in held && Runs(held - {l}, program[1..], final)
  }

  lemma {:induction false} RunsCompose(held: set<Lock>, a: seq<Op>, middle: set<Lock>, b: seq<Op>, final: set<Lock>)
    requires Runs(held, a, middle) && Runs(middle, b, final)
    ensures Runs(held, a + b, final)
    decreases |a|
  {
    if a == [] {
      assert a + b == b;
    } else {
      assert (a + b)[1..] == a[1..] + b;
      RunsCompose(if a[0].Take? then held + {a[0].lock} else held - {a[0].lock}, a[1..], middle, b, final);
    }
  }

  /** Locks taken in turn around a body, dropped in reverse. */
  function With(locks: seq<Lock>, body: seq<Op>): seq<Op> {
    if locks == [] then body else [Take(locks[0])] + With(locks[1..], body) + [Drop(locks[0])]
  }

  ghost predicate Ascending(locks: seq<Lock>) {
    forall i, j | 0 <= i < j < |locks| :: Before(locks[i], locks[j])
  }

  function Holding(held: set<Lock>, locks: seq<Lock>): set<Lock> { held + set l | l in locks }

  lemma {:induction false} WithRuns(held: set<Lock>, locks: seq<Lock>, body: seq<Op>)
    requires Ascending(locks) && forall h, l | h in held && l in locks :: Before(h, l)
    requires Runs(Holding(held, locks), body, Holding(held, locks))
    ensures Runs(held, With(locks, body), held)
    decreases |locks|
  {
    if locks == [] {
      assert Holding(held, locks) == held;
    } else {
      var l, rest := locks[0], locks[1..];
      BeforeIsStrict(l, l, l);
      assert l !in held && l !in rest;
      assert Holding(held + {l}, rest) == Holding(held, locks) by {
        assert forall k :: k in locks <==> k == l || k in rest;
      }
      WithRuns(held + {l}, rest, body);
      assert Runs(held + {l}, [Drop(l)], held) by { assert (held + {l}) - {l} == held; }
      RunsCompose(held + {l}, With(rest, body), held + {l}, [Drop(l)], held);
      var inner := With(rest, body) + [Drop(l)];
      assert With(locks, body) == [Take(l)] + inner;
      assert ([Take(l)] + inner)[1..] == inner;
    }
  }

  function Access(name: Bytes): seq<Op> { [Take(Leaf(name)), Drop(Leaf(name))] }

  function Times(n: nat, program: seq<Op>): seq<Op> {
    if n == 0 then [] else program + Times(n - 1, program)
  }

  ghost predicate NoLeaf(held: set<Lock>) { forall h | h in held :: !h.Leaf? }

  lemma AccessRuns(held: set<Lock>, name: Bytes)
    requires NoLeaf(held)
    ensures Runs(held, Access(name), held)
  {
    var l := Leaf(name);
    assert held + {l} - {l} == held;
    assert Access(name)[1..] == [Drop(l)] && [Drop(l)][1..] == [];
    assert Runs(held + {l}, [Drop(l)], held);
  }

  lemma {:induction false} TimesRuns(held: set<Lock>, n: nat, program: seq<Op>)
    requires Runs(held, program, held)
    ensures Runs(held, Times(n, program), held)
  {
    if n > 0 {
      TimesRuns(held, n - 1, program);
      RunsCompose(held, program, held, Times(n - 1, program), held);
    }
  }

  // ----- the sorted, deduplicated lists -----

  function GroupLocks(paths: seq<Bytes>): (ls: seq<Lock>)
    ensures forall l | l in ls :: l.Group?
  {
    seq(|paths|, i requires 0 <= i < |paths| => Group(paths[i]))
  }

  function MemoryLocks(hashes: seq<Bytes>): (ls: seq<Lock>)
    ensures forall l | l in ls :: l.Memory?
  {
    seq(|hashes|, i requires 0 <= i < |hashes| => Memory(hashes[i]))
  }

  /** `canonical_group_operation_lock_paths`, and the same shape for memory hashes (instances.py:258-267): the names
      given, each once, in order. */
  method CanonicalOrder(names: seq<Bytes>) returns (order: seq<Bytes>)
    ensures order == Sorted(set n | n in names)
    ensures Increasing(order) && forall n :: n in order <==> n in names
  {
    var unique: set<Bytes> := {};
    var i := 0;
    while i < |names|
      invariant 0 <= i <= |names| && unique == set n | n in names[..i]
    {
      assert names[..i + 1] == names[..i] + [names[i]];
      unique := unique + {names[i]};
      i := i + 1;
    }
    assert names[..i] == names;
    ghost var all := unique;
    order := [];
    while unique != {}
      invariant unique <= all && order + Sorted(unique) == Sorted(all)
      decreases unique
    {
      var name := NextSorted(unique);
      LeastUnique(name, Least(unique), unique);
      order := order + [name];
      unique := unique - {name};
    }
    SortedIsListing(all);
  }

  lemma SortedLocksAscend(s: set<Bytes>)
    ensures Ascending(GroupLocks(Sorted(s))) && Ascending(MemoryLocks(Sorted(s)))
  {
    SortedIsListing(s);
  }

  // ----- the operations -----

  const CONFIG: Bytes := [0]

  datatype Operation =
    | ReadConfig
    | TouchJob(job: Bytes)                                        // transition_job, cancel_job
    | SaveDirect(memory: Bytes)
    | Execute(memory: Bytes, job: Bytes, transitions: nat)
    | RecoverAll(journals: seq<(Bytes, Bytes)>)                   // memory and job of each journal
    | Submit(group: Bytes, cache: Bytes)
    | ChangeGroups(groups: set<Bytes>, saves: nat)                // revision_bound_group_operation with config patches
    | Move(groups: set<Bytes>, memories: set<Bytes>)

  function RecoveryProgram(journals: seq<(Bytes, Bytes)>): seq<Op> {
    if journals == [] then []
    else With([Memory(journals[0].0)], Access(journals[0].1)) + RecoveryProgram(journals[1..])
  }

  ghost function Program(op: Operation): seq<Op> {
    match op
    case ReadConfig => Access(CONFIG)
    case TouchJob(job) => Access(job)
    case SaveDirect(memory) => With([Memory(memory)], [])
    case Execute(memory, job, transitions) =>
      Access(job) + (With([Memory(memory)], Times(transitions, Access(job))) + Access(job))
    case RecoverAll(journals) => RecoveryProgram(journals)
    case Submit(group, cache) => Access(CONFIG) + With([Group(group)], Access(CONFIG) + Access(cache))
    case ChangeGroups(groups, saves) =>
      Access(CONFIG) + With(GroupLocks(Sorted(groups)), Access(CONFIG) + Times(saves, Access(CONFIG)))
    case Move(groups, memories) =>
      Access(CONFIG) +
      With(GroupLocks(Sorted(groups)), Access(CONFIG) + With(MemoryLocks(Sorted(memories)), Access(CONFIG)))
  }

  lemma {:induction false} RecoveryRuns(journals: seq<(Bytes, Bytes)>)
    ensures Runs({}, RecoveryProgram(journals), {})
  {
    if journals != [] {
      var m := Memory(journals[0].0);
      AccessRuns(Holding({}, [m]), journals[0].1);
      WithRuns({}, [m], Access(journals[0].1));
      RecoveryRuns(journals[1..]);
      RunsCompose({}, With([m], Access(journals[0].1)), {}, RecoveryProgram(journals[1..]), {});
    }
  }

  lemma TwoAccesses(held: set<Lock>, a: Bytes, b: Bytes)
    requires NoLeaf(held)
    ensures Runs(held, Access(a) + Access(b), held)
  {
    AccessRuns(held, a);
    AccessRuns(held, b);
    RunsCompose(held, Access(a), held, Access(b), held);
  }

  lemma MoveInnerRuns(g: set<Lock>, memories: set<Bytes>)
    requires forall l | l in g :: l.Group?
    ensures Runs(g, Access(CONFIG) + With(MemoryLocks(Sorted(memories)), Access(CONFIG)), g)
  {
    var ms := MemoryLocks(Sorted(memories));
    SortedLocksAscend(memories);
    AccessRuns(g, CONFIG);
    AccessRuns(Holding(g, ms), CONFIG);
    WithRuns(g, ms, Access(CONFIG));
    RunsCompose(g, Access(CONFIG), g, With(ms, Access(CONFIG)), g);
  }

  lemma MoveRuns(groups: set<Bytes>, memories: set<Bytes>)
    ensures Runs({}, Program(Operation.Move(groups, memories)), {})
  {
    var gs := GroupLocks(Sorted(groups));
    var inner := Access(CONFIG) + With(MemoryLocks(Sorted(memories)), Access(CONFIG));
    SortedLocksAscend(groups);
    MoveInnerRuns(Holding({}, gs), memories);
    AccessRuns({}, CONFIG);
    WithRuns({}, gs, inner);
    RunsCompose({}, Access(CONFIG), {}, With(gs, inner), {});
  }

  /** Every operation respects the order, and re-requests no lock it holds. */
  lemma EveryOperationRuns(op: Operation)
    ensures Runs({}, Program(op), {})
  {
    match op
    case ReadConfig => AccessRuns({}, CONFIG);
    case TouchJob(job) => AccessRuns({}, job);
    case SaveDirect(memory) => WithRuns({}, [Memory(memory)], []);
    case Execute(memory, job, transitions) =>
      var held := Holding({}, [Memory(memory)]);
      AccessRuns({}, job);
      AccessRuns(held, job);
      TimesRuns(held, transitions, Access(job));
      WithRuns({}, [Memory(memory)], Times(transitions, Access(job)));
      RunsCompose({}, With([Memory(memory)], Times(transitions, Access(job))), {}, Access(job), {});
      RunsCompose({}, Access(job), {}, With([Memory(memory)], Times(transitions, Access(job))) + Access(job), {});
    case RecoverAll(journals) => RecoveryRuns(journals);
    case Submit(group, cache) =>
      AccessRuns({}, CONFIG);
      TwoAccesses(Holding({}, [Group(group)]), CONFIG, cache);
      WithRuns({}, [Group(group)], Access(CONFIG) + Access(cache));
      RunsCompose({}, Access(CONFIG), {}, With([Group(group)], Access(CONFIG) + Access(cache)), {});
    case ChangeGroups(groups, saves) =>
      var gs := GroupLocks(Sorted(groups));
      var held := Holding({}, gs);
      var saving := Times(saves, Access(CONFIG));
      SortedLocksAscend(groups);
      AccessRuns({}, CONFIG);
      AccessRuns(held, CONFIG);
      TimesRuns(held, saves, Access(CONFIG));
      RunsCompose(held, Access(CONFIG), held, saving, held);
      WithRuns({}, gs, Access(CONFIG) + saving);
      RunsCompose({}, Access(CONFIG), {}, With(gs, Access(CONFIG) + saving), {});
    case Move(groups, memories) => MoveRuns(groups, memories);
  }

  // ----- any number of processes -----

  datatype Process = Process(program: seq<Op>, held: set<Lock>)

  type System = seq<Process>

  predicate Free(s: System, l: Lock) {
    forall p | p in s :: l !in p.held
  }

  predicate CanStep(s: System, i: int) {
    && 0 <= i < |s| && s[i].program != []
    && (s[i].program[0].Take? ==> Free(s, s[i].program[0].lock))
  }

  function Step(s: System, i: int): System
    requires CanStep(s, i)
  {
    var p := s[i];
    var l := p.program[0].lock;
    s[i := Process(p.program[1..], if p.program[0].Take? then p.held + {l} else p.held - {l})]
  }

  ghost predicate Orderly(s: System) {
    && (forall p | p in s :: Runs(p.held, p.program, {}))
    && forall i, j | 0 <= i < j < |s| :: s[i].held !! s[j].held
  }

  ghost predicate Finished(s: System) {
    forall p | p in s :: p.program == []
  }

  lemma StepKeepsOrder(s: System, i: int)
    requires Orderly(s) && CanStep(s, i)
    ensures Orderly(Step(s, i))
  {
    var t := Step(s, i);
    assert s[i] in s;
    forall p | p in t ensures Runs(p.held, p.program, {}) {
      var k :| 0 <= k < |t| && t[k] == p;
      assert s[k] in s;
    }
    forall j, k | 0 <= j < k < |t| ensures t[j].held !! t[k].held {
      assert s[j].held !! s[k].held;
      assert s[j] in s && s[k] in s;
    }
  }

  lemma NextIsBehind(p: Process, l: Lock)
    requires Runs(p.held, p.program, {}) && l in p.held
    ensures p.program != [] && (p.program[0].Take? ==> Before(l, p.program[0].lock))
  {}

  /** Of finitely many locks one comes before none of them. */
  lemma {:induction false} LastLock(ls: set<Lock>) returns (m: Lock)
    requires ls != {}
    ensures m in ls && forall l | l in ls :: !Before(m, l)
  {
    var x :| x in ls;
    BeforeIsStrict(x, x, x);
    if ls == {x} {
      m := x;
    } else {
      m := LastLock(ls - {x});
      if Before(m, x) {
        forall l | l in ls ensures !Before(x, l) { BeforeIsStrict(m, x, l); }
        m := x;
      }
    }
  }

  /** Unless everything is finished, some process can go on: there is no deadlock. */
  lemma SomeoneCanStep(s: System) returns (i: int)
    requires Orderly(s) && !Finished(s)
    ensures CanStep(s, i)
  {
    var p :| p in s && p.program != [];
    var wanted := set q | q in s && q.program != [] && q.program[0].Take? :: q.program[0].lock;
    if p.program[0].Drop? {
      i :| 0 <= i < |s| && s[i] == p;
    } else {
      assert p.program[0].lock in wanted;
      var m := LastLock(wanted);
      if Free(s, m) {
        var waiting :| waiting in s && waiting.program != [] && waiting.program[0] == Take(m);
        i :| 0 <= i < |s| && s[i] == waiting;
      } else {
        var owner :| owner in s && m in owner.held;
        i :| 0 <= i < |s| && s[i] == owner;
        NextIsBehind(owner, m);
        var next := owner.program[0];
        assert next.Take? ==> next.lock in wanted;
      }
    }
  }

  ghost function Left(s: System): nat {
    if s == [] then 0 else |s[0].program| + Left(s[1..])
  }

  lemma {:induction false} StepLeaves(s: System, i: int)
    requires CanStep(s, i)
    ensures Left(Step(s, i)) == Left(s) - 1
  {
    if i > 0 {
      assert s[1..][i - 1] == s[i];
      assert forall p | p in s[1..] :: p in s;
      assert Step(s, i)[1..] == Step(s[1..], i - 1);
      StepLeaves(s[1..], i - 1);
    } else {
      assert Step(s, i)[1..] == s[1..];
    }
  }

  ghost predicate Reaches(s: System, schedule: seq<int>, t: System)
    decreases |schedule|
  {
    if schedule == [] then s == t
    else CanStep(s, schedule[0]) && Reaches(Step(s, schedule[0]), schedule[1..], t)
  }

  /** Wherever a run has got to, it can be continued until every process is done; and no run is longer than the
      programs together, so every run that is never cut short ends that way. */
  lemma {:induction false} EveryRunCanFinish(s: System) returns (schedule: seq<int>, t: System)
    requires Orderly(s)
    ensures Reaches(s, schedule, t) && Finished(t) && |schedule| == Left(s)
    decreases Left(s)
  {
    if Finished(s) {
      FinishedIsEmpty(s);
      schedule, t := [], s;
    } else {
      var i := SomeoneCanStep(s);
      StepKeepsOrder(s, i);
      StepLeaves(s, i);
      var rest;
      rest, t := EveryRunCanFinish(Step(s, i));
      schedule := [i] + rest;
      assert schedule[1..] == rest;
    }
  }

  lemma {:induction false} FinishedIsEmpty(s: System)
    requires Finished(s)
    ensures Left(s) == 0
  {
    if s != [] {
      assert s[0] in s;
      FinishedIsEmpty(s[1..]);
    }
  }

  lemma {:induction false} RunsAreBounded(s: System, schedule: seq<int>, t: System)
    requires Orderly(s) && Reaches(s, schedule, t)
    ensures Orderly(t) && |schedule| + Left(t) == Left(s)
    decreases |schedule|
  {
    if schedule != [] {
      StepKeepsOrder(s, schedule[0]);
      StepLeaves(s, schedule[0]);
      RunsAreBounded(Step(s, schedule[0]), schedule[1..], t);
    }
  }

  ghost function Start(ops: seq<Operation>): System {
    seq(|ops|, i requires 0 <= i < |ops| => Process(Program(ops[i]), {}))
  }

  /** Any number of operations, interleaved in any way, never deadlock. */
  lemma NoDeadlock(ops: seq<Operation>, schedule: seq<int>, t: System)
    requires Reaches(Start(ops), schedule, t)
    ensures Finished(t) || exists i :: CanStep(t, i)
    ensures |schedule| <= Left(Start(ops))
  {
    var s := Start(ops);
    forall p | p in s ensures Runs(p.held, p.program, {}) {
      var i :| 0 <= i < |s| && s[i] == p;
      EveryOperationRuns(ops[i]);
    }
    RunsAreBounded(s, schedule, t);
    if !Finished(t) { var i := SomeoneCanStep(t); }
  }
}
