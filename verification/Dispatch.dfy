/** The dispatch cycle of one group and its markers (agency/dispatch/run.py:18-51, 54-55, 63-146). */
module Dispatch {
  import opened MemoryDisk
  import opened Markers

  /** A schedule as parsed; `None` is a text that does not parse, which never fires. */
  datatype Schedule = At(minute: Option<nat>) | Every(seconds: Option<nat>) | Unscheduled

  datatype Routine = Routine(id: string, enabled: bool, conditional: bool, schedule: Schedule)

  datatype Agent = Agent(name: string, routines: seq<Routine>)

  const DAY: real := 86400.0

  /** Local time: the day, and the second of it. */
  datatype Clock = Clock(day: int, second: real) {
    function Absolute(): real { day as real * DAY + second }

    predicate Valid() { 0.0 <= second < DAY }
  }

  // ----- the rules -----

  function Window(interval: nat): real { (interval + 2) as real * 60.0 }

  function Target(minute: nat): real { minute as real * 60.0 }

  /** `check_at_rule` on the parsed time: the target is the one of the day on which the clock is read. */
  predicate AtDue(minute: Option<nat>, second: real, interval: nat) {
    minute.Some? && 0.0 <= second - Target(minute.value) < Window(interval)
  }

  /** `check_every_rule` on the parsed interval and the time of the marker. */
  predicate EveryDue(seconds: Option<nat>, last: Option<real>, now: real) {
    seconds.Some? && (last.None? || now - last.value >= seconds.value as real)
  }

  // ----- submissions, and the markers they leave -----

  /** `start` is the day on which the cycle began, `clock` the time of the check.  The check had seen the markers of
      the first `looked` submissions.  `touched` is when the marker was written, unless the cycle died before. */
  datatype Submission = Submission(agent: string, routine: string, schedule: Schedule, start: int, clock: Clock,
                                   interval: nat, looked: nat, touched: Option<real>) {
    function Marker(): string { MarkerOf(agent, routine) }

    /** The marker is there, and names the day of the check. */
    predicate Kept() { touched.Some? && start == clock.day }
  }

  /** In the order in which the markers were written, or would have been. */
  type Log = seq<Submission>

  /** A file `.event-...` in the directory of `day`. */
  predicate Marked(log: Log, day: int, marker: string) {
    exists i :: 0 <= i < |log| && Marks(log[i], day, marker)
  }

  predicate Marks(x: Submission, day: int, marker: string) {
    x.schedule.At? && x.touched.Some? && x.start == day && x.Marker() == marker
  }

  /** The time of a file `.last-...`. */
  function LastTouch(log: Log, marker: string): Option<real> {
    if log == [] then None
    else
      var x := log[|log| - 1];
      if x.schedule.Every? && x.touched.Some? && x.Marker() == marker then x.touched
      else LastTouch(log[..|log| - 1], marker)
  }

  /** Whether a check that sees the markers of `log` submits. */
  predicate Due(log: Log, x: Submission) {
    match x.schedule
    case At(minute) => !Marked(log, x.start, x.Marker()) && AtDue(minute, x.clock.second, x.interval)
    case Every(seconds) => EveryDue(seconds, LastTouch(log, x.Marker()), x.clock.Absolute())
    case Unscheduled => false
  }

  /** Markers are written after the check, one after the other. */
  ghost predicate Timely(log: Log) {
    && (forall i | 0 <= i < |log| && log[i].touched.Some? :: log[i].clock.Absolute() <= log[i].touched.value)
    && forall i, j | 0 <= i < j < |log| && log[i].touched.Some? && log[j].touched.Some? ::
         log[i].touched.value <= log[j].touched.value
  }

  ghost predicate Checked(log: Log) {
    forall n | 0 <= n < |log| :: log[n].looked <= n && Due(log[..log[n].looked], log[n])
  }

  /** What a submission leaves on disk is later found by every check that sees it: so a second `at` submission of one
      day and marker needs a lost marker, a check behind midnight or a check that overlapped the first, and two
      `every` submissions sharing a marker are at least the later one's interval apart. */
  lemma MarkersHoldBack(log: Log, i: nat, j: nat)
    requires Checked(log) && Timely(log) && i < j < |log| && log[i].Marker() == log[j].Marker()
    ensures log[i].schedule.At? && log[j].schedule.At? && log[i].clock.day == log[j].clock.day ==>
              !log[i].Kept() || log[j].start != log[j].clock.day || log[j].looked <= i
    ensures log[i].schedule.Every? && log[j].schedule.Every? && log[i].touched.Some? && i < log[j].looked ==>
              && log[j].schedule.seconds.Some?
              && log[j].clock.Absolute() - log[i].clock.Absolute() >= log[j].schedule.seconds.value as real
  {
    var x, y := log[i], log[j];
    var seen := log[..y.looked];
    if i < y.looked {
      assert seen[i] == x;
      if x.schedule.At? && x.touched.Some? { assert Marks(seen[i], x.start, x.Marker()); }
      if x.schedule.Every? && x.touched.Some? { LastTouchIsLate(log, y.looked, i); }
    }
  }

  lemma {:induction false} LastTouchIsOne(log: Log, marker: string)
    ensures LastTouch(log, marker).Some? <==>
      exists i :: 0 <= i < |log| && log[i].schedule.Every? && log[i].touched.Some? && log[i].Marker() == marker
    ensures LastTouch(log, marker).Some? ==>
      exists i :: 0 <= i < |log| && log[i].schedule.Every? && log[i].Marker() == marker
                  && log[i].touched == LastTouch(log, marker)
  {
    if log != [] {
      var front := log[..|log| - 1];
      LastTouchIsOne(front, marker);
      assert forall i | 0 <= i < |front| :: front[i] == log[i];
    }
  }

  /** When a routine is due: a daily one from its minute on for as long as the window is, unless a submission of the day
      has left its marker; one of an interval unless a submission less than the interval ago has; others never. */
  lemma DueExactly(log: Log, x: Submission)
    requires Timely(log)
    ensures x.schedule.At? ==>
      (Due(log, x) <==>
        && x.schedule.minute.Some?
        && 0.0 <= x.clock.second - x.schedule.minute.value as real * 60.0 < (x.interval + 2) as real * 60.0
        && !exists i :: 0 <= i < |log| && log[i].schedule.At? && log[i].touched.Some? && log[i].start == x.start
                        && log[i].Marker() == x.Marker())
    ensures x.schedule.Every? ==>
      (Due(log, x) <==>
        && x.schedule.seconds.Some?
        && !exists i :: 0 <= i < |log| && log[i].schedule.Every? && log[i].touched.Some?
                        && log[i].Marker() == x.Marker()
                        && x.clock.Absolute() - log[i].touched.value < x.schedule.seconds.value as real)
    ensures x.schedule.Unscheduled? ==> !Due(log, x)
  {
    LastTouchIsOne(log, x.Marker());
    if x.schedule.Every? {
      forall i | 0 <= i < |log| && log[i].schedule.Every? && log[i].touched.Some? && log[i].Marker() == x.Marker()
        ensures LastTouch(log, x.Marker()).value >= log[i].touched.value
      {
        assert log[..|log|] == log;
        LastTouchIsLate(log, |log|, i);
      }
    }
    if x.schedule.At? {
      assert Marked(log, x.start, x.Marker()) <==>
        exists i :: 0 <= i < |log| && Marks(log[i], x.start, x.Marker());
    }
  }

  lemma {:induction false} LastTouchIsLate(log: Log, n: nat, i: nat)
    requires Timely(log) && i < n <= |log| && log[i].schedule.Every? && log[i].touched.Some?
    ensures LastTouch(log[..n], log[i].Marker()).Some?
    ensures LastTouch(log[..n], log[i].Marker()).value >= log[i].touched.value
  {
    assert log[..n][..n - 1] == log[..n - 1];
    if i < n - 1 { LastTouchIsLate(log, n - 1, i); }
  }

  // ----- one cycle -----

  predicate Runnable(r: Routine) { r.enabled && !r.conditional }

  /** `Refused`: an exception the loop catches.  `Aborted`: one it does not, such as a config conflict that lasts three
      attempts (agency/jobs/submission.py:103-129).  `Died`: the cycle ends between submission and marker. */
  datatype Outcome = NotDue | Submitted(touch: real) | Died | Refused | Aborted

  predicate EndsCycle(o: Outcome) { o.Died? || o.Aborted? }

  predicate Unsubmitted(o: Outcome) { o.Refused? || o.Aborted? }

  /** A routine's turn; `looked` is how much of the log its check saw. */
  datatype Turn = Turn(agent: string, routine: Routine, clock: Clock, looked: nat, outcome: Outcome)

  function Made(t: Turn, start: int, interval: nat): Submission {
    Submission(t.agent, t.routine.id, t.routine.schedule, start, t.clock, interval, t.looked,
               if t.outcome.Submitted? then Some(t.outcome.touch) else None)
  }

  function Apply(log: Log, t: Turn, start: int, interval: nat): Log {
    if t.outcome.Submitted? || t.outcome.Died? then log + [Made(t, start, interval)] else log
  }

  /** A turn submits exactly when what its check saw makes the routine due; the submission may be refused, and the
      cycle may end in it or before the marker is written. */
  ghost predicate Proper(log: Log, t: Turn, start: int, interval: nat) {
    && t.looked <= |log| && t.clock.Valid() && Runnable(t.routine)
    && (t.outcome.NotDue? <==> !Due(log[..t.looked], Made(t, start, interval)))
  }

  function After(log: Log, turns: seq<Turn>, start: int, interval: nat): Log {
    if turns == [] then log
    else Apply(After(log, turns[..|turns| - 1], start, interval), turns[|turns| - 1], start, interval)
  }

  ghost predicate AllProper(log: Log, turns: seq<Turn>, start: int, interval: nat) {
    forall n | 0 <= n < |turns| :: Proper(After(log, turns[..n], start, interval), turns[n], start, interval)
  }

  datatype Cycle = Cycle(agents: seq<Agent>, start: int, interval: nat, turns: seq<Turn>, limited: bool)

  function RunnableOf(agent: string, routines: seq<Routine>): seq<(string, Routine)> {
    if routines == [] then []
    else
      RunnableOf(agent, routines[..|routines| - 1])
      + if Runnable(routines[|routines| - 1]) then [(agent, routines[|routines| - 1])] else []
  }

  /** The routines that may run, in the order of the config. */
  function Order(agents: seq<Agent>): seq<(string, Routine)> {
    if agents == [] then []
    else Order(agents[..|agents| - 1]) + RunnableOf(agents[|agents| - 1].name, agents[|agents| - 1].routines)
  }

  function Visited(turns: seq<Turn>): seq<(string, Routine)> {
    seq(|turns|, i requires 0 <= i < |turns| => (turns[i].agent, turns[i].routine))
  }

  predicate Unhindered(c: Cycle) {
    !c.limited && !Deadly(c.turns)
  }

  /** What a cycle does to the log: the turns it took, which are all of them unless something hindered it. */
  ghost predicate CycleStep(s: Log, t: Log, c: Cycle) {
    && AllProper(s, c.turns, c.start, c.interval) && t == After(s, c.turns, c.start, c.interval) && Timely(t)
    && (forall v | v in Visited(c.turns) :: v in Order(c.agents))
    && (Unhindered(c) ==> Visited(c.turns) == Order(c.agents))
  }

  /** No other cycle of the group is at work: each check sees everything before it. */
  ghost predicate Sequential(s: Log, turns: seq<Turn>, start: int, interval: nat) {
    forall n | 0 <= n < |turns| :: turns[n].looked == |After(s, turns[..n], start, interval)|
  }

  /** These turns of one cycle have led from `s` to `log`. */
  ghost predicate Taken(s: Log, turns: seq<Turn>, start: int, interval: nat, log: Log) {
    AllProper(s, turns, start, interval) && Sequential(s, turns, start, interval) &&
      log == After(s, turns, start, interval)
  }

  lemma TurnsGrow(s: Log, turns: seq<Turn>, t: Turn, start: int, interval: nat, log: Log)
    requires Taken(s, turns, start, interval, log) && Proper(log, t, start, interval) && t.looked == |log|
    ensures Taken(s, turns + [t], start, interval, Apply(log, t, start, interval))
  {
    var more := turns + [t];
    assert more[..|turns|] == turns;
    forall n | 0 <= n < |turns| ensures more[..n] == turns[..n] && more[n] == turns[n] {}
  }

  lemma {:induction false} RunnableExactly(agent: string, routines: seq<Routine>, v: (string, Routine))
    ensures v in RunnableOf(agent, routines) <==>
      v.0 == agent && exists j :: 0 <= j < |routines| && v.1 == routines[j] && v.1.enabled && !v.1.conditional
  {
    if routines != [] {
      var front := routines[..|routines| - 1];
      RunnableExactly(agent, front, v);
      assert forall j | 0 <= j < |front| :: front[j] == routines[j];
    }
  }

  /** The order holds every routine of every agent that is enabled and has no condition, and no others. */
  lemma {:induction false} OrderExactly(agents: seq<Agent>, v: (string, Routine))
    ensures v in Order(agents) <==>
      exists i :: 0 <= i < |agents| && v.0 == agents[i].name && v.1 in agents[i].routines
                  && v.1.enabled && !v.1.conditional
  {
    if agents != [] {
      var front, last := agents[..|agents| - 1], agents[|agents| - 1];
      OrderExactly(front, v);
      RunnableExactly(last.name, last.routines, v);
      assert forall i | 0 <= i < |front| :: front[i] == agents[i];
      assert Order(agents) == Order(front) + RunnableOf(last.name, last.routines);
    }
  }

  /** A cycle that nothing hinders takes a turn of each of them, and submits those that are due by then. */
  lemma UnhinderedReachesAll(s: Log, log: Log, c: Cycle, i: nat, r: Routine) returns (n: nat)
    requires CycleStep(s, log, c) && !c.limited && !Deadly(c.turns)
    requires i < |c.agents| && r in c.agents[i].routines && r.enabled && !r.conditional
    ensures n < |c.turns| && c.turns[n].agent == c.agents[i].name && c.turns[n].routine == r
    ensures
      var t := c.turns[n];
      var before := After(s, c.turns[..n], c.start, c.interval);
      t.looked <= |before| &&
      (Due(before[..t.looked], Made(t, c.start, c.interval)) <==> t.outcome.Submitted? || t.outcome.Refused?)
  {
    OrderExactly(c.agents, (c.agents[i].name, r));
    assert (c.agents[i].name, r) in Visited(c.turns);
    n :| 0 <= n < |c.turns| && Visited(c.turns)[n] == (c.agents[i].name, r);
    assert c.turns[n] in c.turns;
    assert Proper(After(s, c.turns[..n], c.start, c.interval), c.turns[n], c.start, c.interval);
  }

  predicate Refusing(turns: seq<Turn>) { exists t :: t in turns && t.outcome.Refused? }

  predicate Deadly(turns: seq<Turn>) { exists t :: t in turns && EndsCycle(t.outcome) }

  lemma OneMoreTurn(before: seq<Turn>, mine: seq<Turn>, t: Turn)
    ensures before + (mine + [t]) == before + mine + [t]
    ensures Visited(mine + [t]) == Visited(mine) + [(t.agent, t.routine)]
    ensures Deadly(mine + [t]) <==> Deadly(mine) || EndsCycle(t.outcome)
    ensures Refusing(mine + [t]) <==> Refusing(mine) || t.outcome.Refused?
  {
    assert forall u :: u in mine + [t] <==> u in mine || u == t;
  }

  lemma OneMoreRoutine(agent: string, routines: seq<Routine>, i: nat)
    requires i < |routines|
    ensures RunnableOf(agent, routines[..i + 1])
         == RunnableOf(agent, routines[..i]) + if Runnable(routines[i]) then [(agent, routines[i])] else []
  {
    assert routines[..i + 1][..i] == routines[..i];
  }

  lemma MoreTurns(turns: seq<Turn>, mine: seq<Turn>)
    ensures Visited(turns + mine) == Visited(turns) + Visited(mine)
  {}

  lemma MoreEnds(turns: seq<Turn>, mine: seq<Turn>)
    ensures Deadly(turns + mine) <==> Deadly(turns) || Deadly(mine)
    ensures Refusing(turns + mine) <==> Refusing(turns) || Refusing(mine)
  {
    assert forall t :: t in turns + mine <==> t in turns || t in mine;
  }

  /** The turns of one more agent are in the order of the config, and complete unless something hindered them. */
  lemma MoreOfCycle(agents: seq<Agent>, i: nat, turns: seq<Turn>, mine: seq<Turn>)
    requires i < |agents| && forall v | v in Visited(turns) :: v in Order(agents)
    requires Visited(mine) <= RunnableOf(agents[i].name, agents[i].routines)
    ensures forall v | v in Visited(turns + mine) :: v in Order(agents)
    ensures Visited(turns) == Order(agents[..i]) && Visited(mine) == RunnableOf(agents[i].name, agents[i].routines) ==>
              Visited(turns + mine) == Order(agents[..i + 1])
  {
    OneMoreAgent(agents, i);
    MoreTurns(turns, mine);
  }

  lemma OneMoreAgent(agents: seq<Agent>, i: nat)
    requires i < |agents|
    ensures Order(agents[..i + 1]) == Order(agents[..i]) + RunnableOf(agents[i].name, agents[i].routines)
    ensures forall v | v in RunnableOf(agents[i].name, agents[i].routines) :: v in Order(agents)
  {
    assert agents[..i + 1][..i] == agents[..i];
    PrefixOfOrder(agents, i + 1);
  }

  lemma {:induction false} PrefixOfOrder(agents: seq<Agent>, i: nat)
    requires i <= |agents|
    ensures Order(agents[..i]) <= Order(agents)
  {
    if i < |agents| {
      assert agents[..|agents| - 1][..i] == agents[..i];
      PrefixOfOrder(agents[..|agents| - 1], i);
    } else {
      assert agents[..i] == agents;
    }
  }

  lemma {:induction false} PrefixOfRunnable(agent: string, routines: seq<Routine>, i: nat)
    requires i <= |routines|
    ensures RunnableOf(agent, routines[..i]) <= RunnableOf(agent, routines)
  {
    if i < |routines| {
      assert routines[..|routines| - 1][..i] == routines[..i];
      PrefixOfRunnable(agent, routines[..|routines| - 1], i);
    } else {
      assert routines[..i] == routines;
    }
  }

  /** One more submission: which markers there are then. */
  lemma LogGrows(log: Log, x: Submission)
    ensures forall d, m :: Marked(log + [x], d, m) <==> Marked(log, d, m) || Marks(x, d, m)
    ensures forall m :: LastTouch(log + [x], m) ==
              if x.schedule.Every? && x.touched.Some? && x.Marker() == m then x.touched else LastTouch(log, m)
  {
    var more := log + [x];
    assert more[..|log|] == log && more[|log|] == x;
    forall d, m ensures Marked(more, d, m) <==> Marked(log, d, m) || Marks(x, d, m) {
      if Marked(log, d, m) {
        var i :| 0 <= i < |log| && Marks(log[i], d, m);
        assert Marks(more[i], d, m);
      }
      if Marks(x, d, m) { assert Marks(more[|log|], d, m); }
    }
  }

  datatype Answer = Yes | No | Uncaught

  class Group {
    var events: set<(int, string)>
    var last: map<string, real>
    var now: Clock
    ghost var log: Log
    ghost var limits: nat                 // how often the day's limit was found reached
    ghost var refusals: nat               // how often a submission was not accepted
    ghost var deaths: nat                 // how often a cycle ended in the middle

    /** The marker files are those the submissions have left. */
    ghost predicate Consistent() reads this {
      && now.Valid() && Timely(log)
      && (forall d, m :: (d, m) in events <==> Marked(log, d, m))
      && (forall m :: LastTouch(log, m) == if m in last then Some(last[m]) else None)
      && forall i | 0 <= i < |log| && log[i].touched.Some? :: log[i].touched.value <= now.Absolute()
    }

    /** Time passes; it does not run backwards. */
    method Now() returns (c: Clock)
      requires Consistent()
      modifies this`now
      ensures Consistent() && c == now && old(now).Absolute() <= now.Absolute()
    {
      var later: Clock := *;
      if later.Valid() && now.Absolute() <= later.Absolute() { now := later; }
      c := now;
    }

    /** The `.out` files of the day are counted; workers write them whenever they end. */
    method LimitReached() returns (reached: bool)
      modifies this`limits
      ensures limits == old(limits) + if reached then 1 else 0
    {
      reached := *;
      limits := limits + if reached then 1 else 0;
    }

    /** `submit_job_request`; the exceptions caught in the loop refuse it, the others end the cycle. */
    method Submit() returns (answer: Answer)
      modifies this`refusals, this`deaths
      ensures refusals == old(refusals) + if answer.No? then 1 else 0
      ensures deaths == old(deaths) + if answer.Uncaught? then 1 else 0
    {
      answer := *;
      refusals := refusals + if answer.No? then 1 else 0;
      deaths := deaths + if answer.Uncaught? then 1 else 0;
    }

    /** An exception or the end of the process may come before the `touch`. */
    method Survives() returns (alive: bool)
      modifies this`deaths
      ensures deaths == old(deaths) + if alive then 0 else 1
    {
      alive := *;
      deaths := deaths + if alive then 0 else 1;
    }

    /** One routine whose turn it is: the clock is read again, the marker is that of the day the cycle began. */
    method RunRoutine(agent: string, r: Routine, start: int, interval: nat) returns (outcome: Outcome, ghost t: Turn)
      requires Consistent() && Runnable(r)
      modifies this
      ensures Consistent() && t.agent == agent && t.routine == r && t.outcome == outcome && t.looked == |old(log)|
      ensures old(now).Absolute() <= t.clock.Absolute() <= now.Absolute()
      ensures Proper(old(log), t, start, interval) && log == Apply(old(log), t, start, interval)
      ensures limits == old(limits) && refusals == old(refusals) + if outcome.Refused? then 1 else 0
      ensures deaths == old(deaths) + if EndsCycle(outcome) then 1 else 0
    {
      var marker := MarkerOf(agent, r.id);
      var clock := Now();
      var shouldRun := false;
      match r.schedule {
        case At(minute) =>
          shouldRun := (start, marker) !in events && AtDue(minute, clock.second, interval);
        case Every(seconds) =>
          shouldRun := EveryDue(seconds, if marker in last then Some(last[marker]) else None, clock.Absolute());
        case Unscheduled =>
      }
      assert log[..|log|] == log;
      t := Turn(agent, r, clock, |log|, NotDue);
      assert shouldRun == Due(log, Made(t, start, interval));
      outcome := NotDue;
      if shouldRun { outcome, t := SubmitAndTouch(agent, r, clock, start, interval); }
    }

    /** The marker of an accepted submission is written. */
    method Touch(agent: string, r: Routine, start: int, touched: real, ghost x: Submission)
      requires Consistent() && touched == now.Absolute() && (r.schedule.At? || r.schedule.Every?)
      requires x.agent == agent && x.routine == r.id && x.schedule == r.schedule && x.start == start
      requires x.touched == Some(touched) && x.clock.Absolute() <= touched
      modifies this`events, this`last, this`log
      ensures Consistent() && log == old(log) + [x]
    {
      LogGrows(log, x);
      log := log + [x];
      if r.schedule.At? {
        events := events + {(start, MarkerOf(agent, r.id))};
      } else {
        last := last[MarkerOf(agent, r.id) := touched];
      }
    }

    /** The submission of a due routine, and its marker (run.py:127-146). */
    method SubmitAndTouch(agent: string, r: Routine, clock: Clock, start: int, interval: nat)
        returns (outcome: Outcome, ghost t: Turn)
      requires Consistent() && clock == now && (r.schedule.At? || r.schedule.Every?)
      modifies this
      ensures Consistent() && old(now).Absolute() <= now.Absolute()
      ensures t == Turn(agent, r, clock, |old(log)|, outcome) && !outcome.NotDue?
      ensures log == Apply(old(log), t, start, interval)
      ensures limits == old(limits) && refusals == old(refusals) + if outcome.Refused? then 1 else 0
      ensures deaths == old(deaths) + if EndsCycle(outcome) then 1 else 0
    {
      var answer := Submit();
      outcome := if answer.Uncaught? then Aborted else Refused;
      t := Turn(agent, r, clock, |log|, outcome);
      if !answer.Yes? { return; }
      var alive := Survives();
      if !alive {
        outcome := Died;
        t := t.(outcome := Died);
        LogGrows(log, Made(t, start, interval));
        log := log + [Made(t, start, interval)];
        return;
      }
      var touch := Now();
      outcome := Submitted(touch.Absolute());
      t := t.(outcome := outcome);
      Touch(agent, r, start, touch.Absolute(), Made(t, start, interval));
    }

    /** The routines of one agent, up to the daily limit; `before` are the turns the cycle has taken so far. */
    method RunAgent(agent: Agent, start: int, interval: nat, ghost base: Log, ghost before: seq<Turn>)
        returns (limited: bool, died: bool, ghost mine: seq<Turn>)
      requires Consistent() && Taken(base, before, start, interval, log)
      modifies this
      ensures Consistent() && Taken(base, before + mine, start, interval, log)
      ensures Visited(mine) <= RunnableOf(agent.name, agent.routines)
      ensures !limited && !died ==> Visited(mine) == RunnableOf(agent.name, agent.routines)
      ensures (died <==> Deadly(mine)) && deaths == old(deaths) + if died then 1 else 0
      ensures old(refusals) <= refusals && (Refusing(mine) <==> old(refusals) < refusals)
      ensures limits == old(limits) + if limited then 1 else 0
    {
      limited, died, mine := false, false, [];
      assert before + mine == before;
      for i := 0 to |agent.routines|
        invariant Consistent() && Taken(base, before + mine, start, interval, log)
        invariant Visited(mine) == RunnableOf(agent.name, agent.routines[..i])
        invariant !limited && !died && !Deadly(mine) && limits == old(limits) && deaths == old(deaths)
        invariant old(refusals) <= refusals && (Refusing(mine) <==> old(refusals) < refusals)
      {
        var r := agent.routines[i];
        OneMoreRoutine(agent.name, agent.routines, i);
        if Runnable(r) {
          limited, died, mine := RunOne(agent.name, r, start, interval, base, before, mine);
          if limited || died {
            PrefixOfRunnable(agent.name, agent.routines, if limited then i else i + 1);
            return;
          }
        }
      }
      assert agent.routines[..|agent.routines|] == agent.routines;
    }

    /** One routine that may run: the limit is checked again first. */
    method RunOne(agent: string, r: Routine, start: int, interval: nat, ghost base: Log, ghost before: seq<Turn>,
                  ghost mine: seq<Turn>)
        returns (limited: bool, died: bool, ghost more: seq<Turn>)
      requires Consistent() && Runnable(r) && Taken(base, before + mine, start, interval, log)
      modifies this
      ensures Consistent() && Taken(base, before + more, start, interval, log)
      ensures if limited then more == mine && !died else Visited(more) == Visited(mine) + [(agent, r)]
      ensures (Deadly(more) <==> Deadly(mine) || died) && deaths == old(deaths) + if died then 1 else 0
      ensures old(refusals) <= refusals && (Refusing(more) <==> Refusing(mine) || old(refusals) < refusals)
      ensures limits == old(limits) + if limited then 1 else 0
    {
      limited, died, more := false, false, mine;
      limited := LimitReached();
      if limited { return; }
      ghost var t;
      died, t := TakeTurn(agent, r, start, interval, base, before + mine);
      OneMoreTurn(before, mine, t);
      more := mine + [t];
    }

    method TakeTurn(agent: string, r: Routine, start: int, interval: nat, ghost base: Log, ghost turns: seq<Turn>)
        returns (died: bool, ghost t: Turn)
      requires Consistent() && Runnable(r) && Taken(base, turns, start, interval, log)
      modifies this
      ensures Consistent() && t.agent == agent && t.routine == r && died == EndsCycle(t.outcome)
      ensures Taken(base, turns + [t], start, interval, log)
      ensures limits == old(limits) && refusals == old(refusals) + if t.outcome.Refused? then 1 else 0
      ensures deaths == old(deaths) + if died then 1 else 0
    {
      var outcome;
      outcome, t := RunRoutine(agent, r, start, interval);
      TurnsGrow(base, turns, t, start, interval, old(log));
      died := EndsCycle(outcome);
    }

    /** The group's part of `run_dispatch_cycle`: the day is read once; `full` is whether the day's limit is reached
        before the first routine. */
    method RunCycle(agents: seq<Agent>, interval: nat, full: bool) returns (ghost c: Cycle)
      requires Consistent()
      modifies this
      ensures Consistent() && c.agents == agents && c.interval == interval
      ensures CycleStep(old(log), log, c) && Sequential(old(log), c.turns, c.start, interval)
      ensures (c.limited <==> old(limits) < limits) && (Deadly(c.turns) <==> old(deaths) < deaths)
      ensures Refusing(c.turns) <==> old(refusals) < refusals
      ensures full ==> c.turns == [] && log == old(log)
    {
      var begun := Now();
      var start := begun.day;
      ghost var base, turns := log, [];
      var limited := full;
      limits := limits + if full then 1 else 0;
      c := Cycle(agents, start, interval, [], limited);
      if limited { return; }
      for i := 0 to |agents|
        invariant Consistent() && Taken(base, turns, start, interval, log) && !Deadly(turns)
        invariant forall v | v in Visited(turns) :: v in Order(agents)
        invariant !limited ==> Visited(turns) == Order(agents[..i])
        invariant limits >= old(limits) && (limited <==> old(limits) < limits) && deaths == old(deaths)
        invariant old(refusals) <= refusals && (Refusing(turns) <==> old(refusals) < refusals)
      {
        ghost var mine;
        var atLimit, died;
        atLimit, died, mine := RunAgent(agents[i], start, interval, base, turns);
        MoreOfCycle(agents, i, turns, mine);
        MoreEnds(turns, mine);
        turns := turns + mine;
        limited := limited || atLimit;
        if died { return Cycle(agents, start, interval, turns, limited); }
      }
      assert agents[..|agents|] == agents;
      c := Cycle(agents, start, interval, turns, limited);
    }
  }

  // ----- many cycles -----

  ghost predicate Run(logs: seq<Log>, cycles: seq<Cycle>) {
    && |logs| == |cycles| + 1 && logs[0] == []
    && forall k | 0 <= k < |cycles| :: CycleStep(logs[k], logs[k + 1], cycles[k])
  }

  /** Whether a check submits does not depend on what becomes of the submission. */
  lemma DueIgnoresMarker(seen: Log, t: Turn, start: int, interval: nat)
    ensures forall o: Outcome ::
      Due(seen, Made(t.(outcome := o), start, interval)) == Due(seen, Made(t, start, interval))
  {}

  lemma CheckedGrows(log: Log, x: Submission)
    requires Checked(log)
    ensures x.looked <= |log| && Due(log[..x.looked], x) ==> Checked(log + [x])
  {
    var more := log + [x];
    forall n | 0 <= n < |log| ensures more[..log[n].looked] == log[..log[n].looked] && more[n] == log[n] {
      assert log[n].looked <= n;
    }
    assert x.looked <= |log| ==> more[..x.looked] == log[..x.looked];
  }

  lemma StepGrows(logs: seq<Log>, cycles: seq<Cycle>, k: nat)
    requires Run(logs, cycles) && k < |cycles|
    ensures CycleStep(logs[k], logs[k + 1], cycles[k])
    ensures logs[k + 1] == After(logs[k], cycles[k].turns, cycles[k].start, cycles[k].interval) &&
      logs[k] <= logs[k + 1]
  {
    assert CycleStep(logs[k], logs[k + 1], cycles[k]);
    AfterPrefix(logs[k], cycles[k].turns, cycles[k].start, cycles[k].interval, 0);
  }

  ghost predicate Growing(logs: seq<Log>) {
    forall k | 0 <= k < |logs| - 1 :: logs[k] <= logs[k + 1]
  }

  lemma RunIsGrowing(logs: seq<Log>, cycles: seq<Cycle>)
    requires Run(logs, cycles)
    ensures Growing(logs)
  {
    forall k | 0 <= k < |logs| - 1 ensures logs[k] <= logs[k + 1] { StepGrows(logs, cycles, k); }
  }

  lemma {:induction false} GrowingIsMonotone(logs: seq<Log>, i: nat, j: nat)
    requires Growing(logs) && i <= j < |logs|
    ensures logs[i] <= logs[j]
    decreases j
  {
    if i < j {
      GrowingIsMonotone(logs, i, j - 1);
      assert logs[j - 1] <= logs[j - 1 + 1];
    }
  }

  /** The step in which entry `n` was added. */
  lemma {:induction false} StepOfEntry(logs: seq<Log>, j: nat, n: nat) returns (k: nat)
    requires j < |logs| && logs[0] == [] && n < |logs[j]|
    ensures k < j && |logs[k]| <= n < |logs[k + 1]|
  {
    if n < |logs[j - 1]| { k := StepOfEntry(logs, j - 1, n); } else { k := j - 1; }
  }

  /** The turn a new entry of the log comes from. */
  lemma {:induction false} EntryOfTurns(s: Log, turns: seq<Turn>, start: int, interval: nat, n: nat) returns (p: nat)
    requires |s| <= n < |After(s, turns, start, interval)|
    ensures p < |turns| && n == |After(s, turns[..p], start, interval)|
    ensures turns[p].outcome.Submitted? || turns[p].outcome.Died?
    ensures After(s, turns, start, interval)[n] == Made(turns[p], start, interval)
  {
    var front := turns[..|turns| - 1];
    if n < |After(s, front, start, interval)| {
      p := EntryOfTurns(s, front, start, interval, n);
      assert front[..p] == turns[..p];
    } else {
      p := |turns| - 1;
    }
  }

  /** The cycle and the turn an entry of the log comes from. */
  lemma EntryOfRun(logs: seq<Log>, cycles: seq<Cycle>, n: nat) returns (k: nat, p: nat)
    requires Run(logs, cycles) && n < |logs[|cycles|]|
    ensures k < |cycles| && p < |cycles[k].turns|
    ensures cycles[k].turns[p].outcome.Submitted? || cycles[k].turns[p].outcome.Died?
    ensures logs[|cycles|][n] == Made(cycles[k].turns[p], cycles[k].start, cycles[k].interval)
    ensures n == |After(logs[k], cycles[k].turns[..p], cycles[k].start, cycles[k].interval)|
  {
    k := StepOfEntry(logs, |cycles|, n);
    StepGrows(logs, cycles, k);
    RunIsGrowing(logs, cycles);
    GrowingIsMonotone(logs, k + 1, |cycles|);
    p := EntryOfTurns(logs[k], cycles[k].turns, cycles[k].start, cycles[k].interval, n);
  }

  // ----- cycles that overlap -----

  /** A turn of whichever cycle, with the day that cycle began. */
  datatype Step = Step(turn: Turn, start: int, interval: nat)

  /** The log of turns of any number of cycles, in the order in which their markers were written. */
  function Interleaved(steps: seq<Step>): Log {
    if steps == [] then []
    else
      var last := steps[|steps| - 1];
      Apply(Interleaved(steps[..|steps| - 1]), last.turn, last.start, last.interval)
  }

  /** Each check has seen some of what was there by then. */
  ghost predicate EachProper(steps: seq<Step>) {
    forall n | 0 <= n < |steps| :: Proper(Interleaved(steps[..n]), steps[n].turn, steps[n].start, steps[n].interval)
  }

  lemma {:induction false} InterleavedIsChecked(steps: seq<Step>)
    requires EachProper(steps)
    ensures Checked(Interleaved(steps))
  {
    if steps != [] {
      var front, last := steps[..|steps| - 1], steps[|steps| - 1];
      assert forall n | 0 <= n < |front| :: front[..n] == steps[..n] && front[n] == steps[n];
      InterleavedIsChecked(front);
      var log := Interleaved(front);
      assert Proper(log, last.turn, last.start, last.interval);
      CheckedGrows(log, Made(last.turn, last.start, last.interval));
      DueIgnoresMarker(log[..last.turn.looked], last.turn, last.start, last.interval);
    }
  }

  /** However cycles overlap: a rival that got its marker first keeps a routine from running for the rest of the day,
      unless the check had not seen it. */
  lemma RivalSuppresses(steps: seq<Step>, i: nat, j: nat)
    requires EachProper(steps) && Timely(Interleaved(steps)) && i < j < |Interleaved(steps)|
    requires
      var x, y := Interleaved(steps)[i], Interleaved(steps)[j];
      && Identifier(x.agent) && Identifier(x.routine) && Identifier(y.agent) && Identifier(y.routine)
      && Rivals(x.agent, x.routine, y.agent, y.routine) && x.schedule.At? && y.schedule.At? && x.Kept()
    ensures
      var x, y := Interleaved(steps)[i], Interleaved(steps)[j];
      x.clock.day == y.clock.day ==> y.start != y.clock.day || y.looked <= i
  {
    var x, y := Interleaved(steps)[i], Interleaved(steps)[j];
    MarkersCollideExactly(x.agent, x.routine, y.agent, y.routine);
    InterleavedIsChecked(steps);
    MarkersHoldBack(Interleaved(steps), i, j);
  }

  lemma OneMoreStep(steps: seq<Step>, step: Step)
    requires EachProper(steps) && Proper(Interleaved(steps), step.turn, step.start, step.interval)
    ensures EachProper(steps + [step])
    ensures Interleaved(steps + [step]) == Apply(Interleaved(steps), step.turn, step.start, step.interval)
  {
    var more := steps + [step];
    assert more[..|steps|] == steps;
    forall n | 0 <= n < |steps| ensures more[..n] == steps[..n] && more[n] == steps[n] {}
  }

  /** Cycles one after the other are a special case. */
  lemma {:induction false} CycleIsInterleaved(before: seq<Step>, turns: seq<Turn>, start: int, interval: nat)
      returns (steps: seq<Step>)
    requires EachProper(before) && AllProper(Interleaved(before), turns, start, interval)
    ensures EachProper(steps) && Interleaved(steps) == After(Interleaved(before), turns, start, interval)
  {
    if turns == [] {
      steps := before;
    } else {
      var front, t := turns[..|turns| - 1], turns[|turns| - 1];
      assert forall n | 0 <= n < |front| :: front[..n] == turns[..n] && front[n] == turns[n];
      var most := CycleIsInterleaved(before, front, start, interval);
      assert Proper(After(Interleaved(before), front, start, interval), t, start, interval);
      OneMoreStep(most, Step(t, start, interval));
      steps := most + [Step(t, start, interval)];
    }
  }

  lemma StepIsInterleaved(before: seq<Step>, s: Log, log: Log, c: Cycle) returns (steps: seq<Step>)
    requires EachProper(before) && Interleaved(before) == s && CycleStep(s, log, c)
    ensures EachProper(steps) && Interleaved(steps) == log && Timely(log)
  {
    steps := CycleIsInterleaved(before, c.turns, c.start, c.interval);
  }

  lemma {:induction false} RunIsInterleaved(logs: seq<Log>, cycles: seq<Cycle>, k: nat) returns (steps: seq<Step>)
    requires Run(logs, cycles) && k <= |cycles|
    ensures EachProper(steps) && Interleaved(steps) == logs[k] && Timely(logs[k])
  {
    if k == 0 {
      steps := [];
    } else {
      var before := RunIsInterleaved(logs, cycles, k - 1);
      assert CycleStep(logs[k - 1], logs[k - 1 + 1], cycles[k - 1]);
      steps := StepIsInterleaved(before, logs[k - 1], logs[k], cycles[k - 1]);
    }
  }

  // ----- when a daily routine runs exactly once a day -----

  /** What is not ruled out: a check behind midnight, the end of a cycle between submission and marker, cycles that
      overlap, a rival in the config. */
  datatype Trouble = Trouble(late: bool, death: bool, overlap: bool, rival: bool)

  const NONE: Trouble := Trouble(false, false, false, false)

  predicate IsTurnOf(t: Turn, agent: string, id: string) { t.agent == agent && t.routine.id == id }

  ghost predicate TurnAllowed(c: Cycle, t: Turn, agent: string, id: string, day: int, trouble: Trouble) {
    && Identifier(t.agent) && Identifier(t.routine.id)
    && (!trouble.rival ==> !Rivals(agent, id, t.agent, t.routine.id))
    && (IsTurnOf(t, agent, id) && !trouble.late && (t.clock.day == day || c.start == day) ==> t.clock.day == c.start)
    && (IsTurnOf(t, agent, id) && !trouble.death ==> !t.outcome.Died?)
  }

  ghost predicate Allowed(logs: seq<Log>, cycles: seq<Cycle>, agent: string, id: string, day: int, trouble: Trouble) {
    && |logs| == |cycles| + 1 && Identifier(agent) && Identifier(id)
    && (forall k, t | 0 <= k < |cycles| && t in cycles[k].turns :: TurnAllowed(cycles[k], t, agent, id, day, trouble))
    && (!trouble.overlap ==>
          forall k | 0 <= k < |cycles| :: Sequential(logs[k], cycles[k].turns, cycles[k].start, cycles[k].interval))
  }

  /** The times leave no gap wider than the window around a moment. */
  ghost predicate Covers(at: seq<Clock>, moment: real, window: real) {
    && at != [] && at[0].Absolute() <= moment <= at[|at| - 1].Absolute()
    && forall i | 0 <= i < |at| - 1 :: at[i + 1].Absolute() - at[i].Absolute() <= window
  }

  predicate InWindow(c: Clock, day: int, minute: nat, interval: nat) {
    var moment := Clock(day, Target(minute)).Absolute();
    moment <= c.Absolute() < moment + Window(interval)
  }

  /** The cycle reaches the enabled routine at this time, and a submission that is due is made. */
  ghost predicate Reaches(c: Cycle, agent: string, id: string, minute: nat, interval: nat, at: Clock) {
    c.interval == interval
    && exists t :: t in c.turns && IsTurnOf(t, agent, id) && t.routine.schedule == At(Some(minute))
                   && t.clock == at && !Unsubmitted(t.outcome)
  }

  /** A run whose cycles reach the routine at these times, near enough to each other around the target of the day. */
  ghost predicate Watched(logs: seq<Log>, cycles: seq<Cycle>, at: seq<Clock>, agent: string, id: string, day: int,
                          minute: nat, interval: nat, trouble: Trouble) {
    && Run(logs, cycles) && Allowed(logs, cycles, agent, id, day, trouble) && |at| == |cycles|
    && Covers(at, Clock(day, Target(minute)).Absolute(), Window(interval))
    && forall k | 0 <= k < |cycles| && InWindow(at[k], day, minute, interval) ::
         Reaches(cycles[k], agent, id, minute, interval, at[k])
  }

  ghost predicate IsRunOf(x: Submission, agent: string, id: string, day: int) {
    x.agent == agent && x.routine == id && x.clock.day == day && x.schedule.At?
  }

  ghost predicate RunsOnce(log: Log, agent: string, id: string, day: int) {
    exists n :: 0 <= n < |log| && IsRunOf(log[n], agent, id, day)
                && forall m | 0 <= m < |log| && IsRunOf(log[m], agent, id, day) :: m == n
  }

  ghost predicate Guaranteed(minute: nat, interval: nat, trouble: Trouble) {
    forall logs, cycles, at, agent, id, day ::
      Watched(logs, cycles, at, agent, id, day, minute, interval, trouble) ==> RunsOnce(logs[|cycles|], agent, id, day)
  }

  lemma SomeTimeInWindow(at: seq<Clock>, moment: real, window: real) returns (k: nat)
    requires Covers(at, moment, window) && window > 0.0
    ensures k < |at| && moment <= at[k].Absolute() < moment + window
  {
    k := 0;
    while at[k].Absolute() < moment
      invariant k < |at| && forall i | 0 <= i < k :: at[i].Absolute() < moment
      decreases |at| - k
    {
      k := k + 1;
    }
    assert k > 0 ==> at[(k - 1) + 1].Absolute() - at[k - 1].Absolute() <= window;
  }

  lemma SameDay(clock: Clock, day: int, start: real, window: real)
    requires clock.Valid() && 0.0 <= start && start + window <= DAY
    requires Clock(day, start).Absolute() <= clock.Absolute() < Clock(day, start).Absolute() + window
    ensures clock.day == day && start <= clock.second < start + window
  {
    assert clock.day as real - day as real == (clock.day - day) as real;
    assert clock.day > day ==> (clock.day - day) as real >= 1.0;
    assert clock.day < day ==> (clock.day - day) as real <= -1.0;
  }

  /** In a run without trouble, an entry with the routine's marker is the routine's own, was kept, and its check had
      seen everything before it. */
  lemma EntryIsOwn(logs: seq<Log>, cycles: seq<Cycle>, agent: string, id: string, day: int, n: nat)
    requires Run(logs, cycles) && Allowed(logs, cycles, agent, id, day, NONE) && n < |logs[|cycles|]|
    ensures
      var x := logs[|cycles|][n];
      && (x.Marker() == MarkerOf(agent, id) <==> x.agent == agent && x.routine == id)
      && (x.agent == agent && x.routine == id && (x.clock.day == day || x.start == day) ==> x.Kept())
      && x.looked == n
  {
    var k, p := EntryOfRun(logs, cycles, n);
    var t := cycles[k].turns[p];
    assert t in cycles[k].turns;
    assert TurnAllowed(cycles[k], t, agent, id, day, NONE);
    MarkersCollideExactly(agent, id, t.agent, t.routine.id);
    assert Sequential(logs[k], cycles[k].turns, cycles[k].start, cycles[k].interval);
  }

  lemma NoSecondRun(logs: seq<Log>, cycles: seq<Cycle>, agent: string, id: string, day: int, i: nat, j: nat)
    requires Run(logs, cycles) && Allowed(logs, cycles, agent, id, day, NONE) && i < j < |logs[|cycles|]|
    ensures !(IsRunOf(logs[|cycles|][i], agent, id, day) && IsRunOf(logs[|cycles|][j], agent, id, day))
  {
    EntryIsOwn(logs, cycles, agent, id, day, i);
    EntryIsOwn(logs, cycles, agent, id, day, j);
    var steps := RunIsInterleaved(logs, cycles, |cycles|);
    InterleavedIsChecked(steps);
    var log := logs[|cycles|];
    if log[i].Marker() == log[j].Marker() { MarkersHoldBack(log, i, j); }
  }

  /** The log just before and just after a turn are prefixes of the last one. */
  lemma TurnInRun(logs: seq<Log>, cycles: seq<Cycle>, k: nat, p: nat) returns (seen: Log)
    requires Run(logs, cycles) && k < |cycles| && p < |cycles[k].turns|
    ensures Proper(seen, cycles[k].turns[p], cycles[k].start, cycles[k].interval)
    ensures seen <= logs[|cycles|]
    ensures Apply(seen, cycles[k].turns[p], cycles[k].start, cycles[k].interval) <= logs[|cycles|]
  {
    var c := cycles[k];
    seen := After(logs[k], c.turns[..p], c.start, c.interval);
    StepGrows(logs, cycles, k);
    PrefixOfTurns(logs, cycles, k, p);
    PrefixOfTurns(logs, cycles, k, p + 1);
    assert c.turns[..p + 1][..p] == c.turns[..p];
  }

  /** The turn inside the window has run the routine, or has seen that it ran. */
  lemma SomeRun(logs: seq<Log>, cycles: seq<Cycle>, agent: string, id: string, day: int, k: nat, p: nat)
    returns (n: nat)
    requires Run(logs, cycles) && Allowed(logs, cycles, agent, id, day, NONE)
    requires k < |cycles| && p < |cycles[k].turns|
    requires
      var t := cycles[k].turns[p];
      && IsTurnOf(t, agent, id) && t.routine.schedule.At? && t.clock.day == day && !Unsubmitted(t.outcome)
      && AtDue(t.routine.schedule.minute, t.clock.second, cycles[k].interval)
    ensures n < |logs[|cycles|]| && IsRunOf(logs[|cycles|][n], agent, id, day)
  {
    var c, t := cycles[k], cycles[k].turns[p];
    assert t in c.turns;
    assert TurnAllowed(c, t, agent, id, day, NONE);
    var seen := TurnInRun(logs, cycles, k, p);
    if t.outcome.Submitted? {
      n := |seen|;
    } else {
      n := SeenMark(seen[..t.looked], day, MarkerOf(agent, id));
      assert logs[|cycles|][n] == seen[n];
      EntryIsOwn(logs, cycles, agent, id, day, n);
    }
  }

  lemma SeenMark(seen: Log, day: int, marker: string) returns (n: nat)
    requires Marked(seen, day, marker)
    ensures n < |seen| && Marks(seen[n], day, marker)
  {
    n :| 0 <= n < |seen| && Marks(seen[n], day, marker);
  }

  lemma PrefixOfTurns(logs: seq<Log>, cycles: seq<Cycle>, k: nat, p: nat)
    requires Run(logs, cycles) && k < |cycles| && p <= |cycles[k].turns|
    ensures After(logs[k], cycles[k].turns[..p], cycles[k].start, cycles[k].interval) <= logs[|cycles|]
  {
    var c := cycles[k];
    RunIsGrowing(logs, cycles);
    GrowingIsMonotone(logs, k + 1, |cycles|);
    StepGrows(logs, cycles, k);
    AfterPrefix(logs[k], c.turns, c.start, c.interval, p);
  }

  lemma {:induction false} AfterPrefix(s: Log, turns: seq<Turn>, start: int, interval: nat, p: nat)
    requires p <= |turns|
    ensures After(s, turns[..p], start, interval) <= After(s, turns, start, interval)
  {
    if p < |turns| {
      var front := turns[..|turns| - 1];
      assert front[..p] == turns[..p];
      AfterPrefix(s, front, start, interval, p);
    } else {
      assert turns[..p] == turns;
    }
  }

  /** Without trouble, and with a window that ends by midnight, a routine its cycles reach often enough runs exactly
      once a day. */
  lemma RunsExactlyOnce(logs: seq<Log>, cycles: seq<Cycle>, at: seq<Clock>, agent: string, id: string, day: int,
                        minute: nat, interval: nat)
    requires Watched(logs, cycles, at, agent, id, day, minute, interval, NONE)
    requires Target(minute) + Window(interval) <= DAY
    ensures RunsOnce(logs[|cycles|], agent, id, day)
  {
    var k := SomeTimeInWindow(at, Clock(day, Target(minute)).Absolute(), Window(interval));
    assert Reaches(cycles[k], agent, id, minute, interval, at[k]);
    var t :| t in cycles[k].turns && IsTurnOf(t, agent, id) && t.routine.schedule == At(Some(minute))
             && t.clock == at[k] && !Unsubmitted(t.outcome);
    var p :| 0 <= p < |cycles[k].turns| && cycles[k].turns[p] == t;
    var _ := TurnInRun(logs, cycles, k, p);
    SameDay(at[k], day, Target(minute), Window(interval));
    var n := SomeRun(logs, cycles, agent, id, day, k, p);
    forall m | 0 <= m < |logs[|cycles|]| && IsRunOf(logs[|cycles|][m], agent, id, day) ensures m == n {
      if m < n { NoSecondRun(logs, cycles, agent, id, day, m, n); }
      if n < m { NoSecondRun(logs, cycles, agent, id, day, n, m); }
    }
  }
}
