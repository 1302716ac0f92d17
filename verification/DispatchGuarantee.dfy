/** Exactly when a daily routine is guaranteed to run exactly once a day (agency/dispatch/run.py:18-31, 63-146): one
    failing run for each trouble that is not ruled out, and for windows that reach past midnight. */
module DispatchGuarantee {
  import opened MemoryDisk
  import opened Markers
  import opened Dispatch

  function Daily(minute: nat): Routine { Routine("r", true, false, At(Some(minute))) }

  /** A cycle over a config with one routine. */
  function One(start: int, interval: nat, t: Turn): Cycle {
    Cycle([Agent(t.agent, [t.routine])], start, interval, [t], false)
  }

  lemma OneStep(s: Log, start: int, interval: nat, t: Turn)
    requires Proper(s, t, start, interval) && Timely(Apply(s, t, start, interval))
    ensures CycleStep(s, Apply(s, t, start, interval), One(start, interval, t))
    ensures Sequential(s, [t], start, interval) <==> t.looked == |s|
  {
    OneTurn(s, start, interval, t);
    OneVisit(t);
  }

  lemma OneTurn(s: Log, start: int, interval: nat, t: Turn)
    ensures After(s, [t], start, interval) == Apply(s, t, start, interval)
    ensures AllProper(s, [t], start, interval) <==> Proper(s, t, start, interval)
    ensures Sequential(s, [t], start, interval) <==> t.looked == |s|
  {
    var turns := [t];
    assert turns[..0] == [];
    assert After(s, turns[..0], start, interval) == s;
  }

  lemma OneVisit(t: Turn)
    requires Runnable(t.routine)
    ensures Visited([t]) == Order([Agent(t.agent, [t.routine])])
  {
    var rs, ags := [t.routine], [Agent(t.agent, [t.routine])];
    assert rs[..0] == [] && ags[..0] == [];
    assert RunnableOf(t.agent, rs) == RunnableOf(t.agent, rs[..0]) + [(t.agent, t.routine)];
    assert Order(ags) == Order(ags[..0]) + RunnableOf(t.agent, rs);
  }

  ghost predicate Fits(start: int, t: Turn, day: int, trouble: Trouble) {
    && (!trouble.late && (t.clock.day == day || start == day) ==> t.clock.day == start)
    && (!trouble.death ==> !t.outcome.Died?)
  }

  /** Two cycles over one daily routine, as a run. */
  lemma TwoCycles(minute: nat, interval: nat, day: int, trouble: Trouble, s1: int, t1: Turn, s2: int, t2: Turn)
      returns (logs: seq<Log>, cycles: seq<Cycle>, at: seq<Clock>)
    requires t1.agent == t2.agent == "a" && t1.routine == t2.routine == Daily(minute)
    requires
      var l1 := Apply([], t1, s1, interval);
      && Proper([], t1, s1, interval) && Timely(l1)
      && Proper(l1, t2, s2, interval) && Timely(Apply(l1, t2, s2, interval))
      && (!trouble.overlap ==> t2.looked == |l1|)
    requires !Unsubmitted(t1.outcome) && !Unsubmitted(t2.outcome)
    requires Fits(s1, t1, day, trouble) && Fits(s2, t2, day, trouble)
    requires Covers([t1.clock, t2.clock], Clock(day, Target(minute)).Absolute(), Window(interval))
    ensures Watched(logs, cycles, at, "a", "r", day, minute, interval, trouble)
    ensures logs[|cycles|] == Apply(Apply([], t1, s1, interval), t2, s2, interval)
  {
    var l1 := Apply([], t1, s1, interval);
    var l2 := Apply(l1, t2, s2, interval);
    OneStep([], s1, interval, t1);
    OneStep(l1, s2, interval, t2);
    logs, cycles, at := [[], l1, l2], [One(s1, interval, t1), One(s2, interval, t2)], [t1.clock, t2.clock];
    assert Run(logs, cycles);
    assert Slug("a") && Slug("r");
    forall k, t | 0 <= k < |cycles| && t in cycles[k].turns ensures TurnAllowed(cycles[k], t, "a", "r", day, trouble) {
      assert t == if k == 0 then t1 else t2;
    }
    forall k | 0 <= k < |cycles| ensures Reaches(cycles[k], "a", "r", minute, interval, at[k]) {
      assert (if k == 0 then t1 else t2) in cycles[k].turns;
    }
  }

  lemma TwoRunsAreNotOne(log: Log, agent: string, id: string, day: int)
    requires |log| == 2 && IsRunOf(log[0], agent, id, day) && IsRunOf(log[1], agent, id, day)
    ensures !RunsOnce(log, agent, id, day)
  {}

  lemma NoRunIsNotOne(log: Log, agent: string, id: string, day: int)
    requires forall n | 0 <= n < |log| :: !IsRunOf(log[n], agent, id, day)
    ensures !RunsOnce(log, agent, id, day)
  {}

  /** Two cycles, both of which submit on the day. */
  lemma BothSubmit(minute: nat, interval: nat, day: int, trouble: Trouble, s1: int, t1: Turn, s2: int, t2: Turn)
    requires t1.agent == t2.agent == "a" && t1.routine == t2.routine == Daily(minute)
    requires
      var l1 := Apply([], t1, s1, interval);
      && Proper([], t1, s1, interval) && Timely(l1)
      && Proper(l1, t2, s2, interval) && Timely(Apply(l1, t2, s2, interval))
      && (!trouble.overlap ==> t2.looked == |l1|)
    requires !Unsubmitted(t1.outcome) && !Unsubmitted(t2.outcome) && !t1.outcome.NotDue? && !t2.outcome.NotDue?
    requires Fits(s1, t1, day, trouble) && Fits(s2, t2, day, trouble) && t1.clock.day == t2.clock.day == day
    requires Covers([t1.clock, t2.clock], Clock(day, Target(minute)).Absolute(), Window(interval))
    ensures !Guaranteed(minute, interval, trouble)
  {
    var logs, cycles, at := TwoCycles(minute, interval, day, trouble, s1, t1, s2, t2);
    TwoRunsAreNotOne(logs[|cycles|], "a", "r", day);
    RefutedBy(logs, cycles, at, "a", "r", day, minute, interval, trouble);
  }

  /** A check at the target and one half a minute later are near enough, and both due. */
  lemma SoonAgain(minute: nat, interval: nat, day: int)
    requires minute < 1440
    ensures
      var first, second := Clock(day, Target(minute)), Clock(day, Target(minute) + 30.0);
      && first.Valid() && second.Valid() && first.Absolute() <= second.Absolute()
      && Covers([first, second], first.Absolute(), Window(interval))
      && AtDue(Some(minute), first.second, interval) && AtDue(Some(minute), second.second, interval)
  {}

  function TurnAt(minute: nat, clock: Clock, looked: nat): Turn {
    Turn("a", Daily(minute), clock, looked, Submitted(clock.Absolute()))
  }

  /** Two submissions in the order of their checks, each with its marker written at once. */
  lemma TimelyPair(t1: Turn, s1: int, t2: Turn, s2: int, interval: nat)
    requires t1.outcome == Submitted(t1.clock.Absolute()) && t2.outcome == Submitted(t2.clock.Absolute())
    requires t1.clock.Absolute() <= t2.clock.Absolute()
    ensures var l1 := Apply([], t1, s1, interval); Timely(l1) && Timely(Apply(l1, t2, s2, interval))
  {}

  /** A due check that has seen no marker submits, whatever the log holds. */
  lemma BlindTurnIsProper(s: Log, t: Turn, start: int, interval: nat)
    requires t.looked == 0 && t.clock.Valid() && Runnable(t.routine) && t.routine.schedule.At?
    requires AtDue(t.routine.schedule.minute, t.clock.second, interval) && !t.outcome.NotDue?
    ensures Proper(s, t, start, interval)
  {
    assert s[..0] == [];
  }

  /** A check on a day for which the one submission has left no marker submits, too. */
  lemma UnmarkedTurnIsProper(x: Submission, t: Turn, start: int, interval: nat)
    requires x.touched.None? || x.start != start
    requires t.looked <= 1 && t.clock.Valid() && Runnable(t.routine) && t.routine.schedule.At?
    requires AtDue(t.routine.schedule.minute, t.clock.second, interval) && !t.outcome.NotDue?
    ensures Proper([x], t, start, interval)
  {
    assert !Marked([x][..t.looked], start, MarkerOf(t.agent, t.routine.id));
  }

  /** A cycle that began the day before reaches the routine after midnight and marks the wrong day. */
  lemma LateCheckRunsTwice(minute: nat, interval: nat, trouble: Trouble)
    requires minute < 1440 && trouble.late
    ensures !Guaranteed(minute, interval, trouble)
  {
    var target := Target(minute);
    var t1, t2 := TurnAt(minute, Clock(1, target), 0), TurnAt(minute, Clock(1, target + 30.0), 1);
    var x := Made(t1, 0, interval);
    SoonAgain(minute, interval, 1);
    TimelyPair(t1, 0, t2, 1, interval);
    BlindTurnIsProper([], t1, 0, interval);
    UnmarkedTurnIsProper(x, t2, 1, interval);
    BothSubmit(minute, interval, 1, trouble, 0, t1, 1, t2);
  }

  /** A cycle that ends between submission and marker leaves no marker. */
  lemma DeathRunsTwice(minute: nat, interval: nat, trouble: Trouble)
    requires minute < 1440 && trouble.death
    ensures !Guaranteed(minute, interval, trouble)
  {
    var target := Target(minute);
    var t1 := TurnAt(minute, Clock(0, target), 0).(outcome := Died);
    var t2 := TurnAt(minute, Clock(0, target + 30.0), 1);
    var x := Made(t1, 0, interval);
    SoonAgain(minute, interval, 0);
    BlindTurnIsProper([], t1, 0, interval);
    UnmarkedTurnIsProper(x, t2, 0, interval);
    BothSubmit(minute, interval, 0, trouble, 0, t1, 0, t2);
  }

  /** A check that overlaps another cycle does not see its marker. */
  lemma OverlapRunsTwice(minute: nat, interval: nat, trouble: Trouble)
    requires minute < 1440 && trouble.overlap
    ensures !Guaranteed(minute, interval, trouble)
  {
    var target := Target(minute);
    var t1, t2 := TurnAt(minute, Clock(0, target), 0), TurnAt(minute, Clock(0, target + 30.0), 0);
    var l1 := Apply([], t1, 0, interval);
    SoonAgain(minute, interval, 0);
    TimelyPair(t1, 0, t2, 0, interval);
    BlindTurnIsProper([], t1, 0, interval);
    BlindTurnIsProper(l1, t2, 0, interval);
    BothSubmit(minute, interval, 0, trouble, 0, t1, 0, t2);
  }

  /** A window that reaches past midnight: the check before the target is early, and the next one, on the next day,
      looks for the target of its own day. */
  lemma LateTargetIsMissed(minute: nat, interval: nat, trouble: Trouble)
    requires minute < 1440 && Target(minute) + Window(interval) > DAY
    ensures !Guaranteed(minute, interval, trouble)
  {
    if minute == 0 { MidnightIsMissed(interval, trouble); } else { EveningIsMissed(minute, interval, trouble); }
  }

  /** A window of more than a day: the run of the day before is the last one near enough. */
  lemma MidnightIsMissed(interval: nat, trouble: Trouble)
    requires Window(interval) > DAY
    ensures !Guaranteed(0, interval, trouble)
  {
    var t1, t2 := TurnAt(0, Clock(-1, DAY - 60.0), 0), TurnAt(0, Clock(1, 0.0), 1);
    var x := Made(t1, -1, interval);
    assert Window(interval) >= DAY + 60.0;
    TimelyPair(t1, -1, t2, 1, interval);
    BlindTurnIsProper([], t1, -1, interval);
    UnmarkedTurnIsProper(x, t2, 1, interval);
    assert Covers([t1.clock, t2.clock], Clock(0, Target(0)).Absolute(), Window(interval));
    var logs, cycles, at := TwoCycles(0, interval, 0, trouble, -1, t1, 1, t2);
    NoRunIsNotOne(logs[|cycles|], "a", "r", 0);
    RefutedBy(logs, cycles, at, "a", "r", 0, 0, interval, trouble);
  }

  lemma EveningIsMissed(minute: nat, interval: nat, trouble: Trouble)
    requires 0 < minute < 1440 && Target(minute) + Window(interval) > DAY
    ensures !Guaranteed(minute, interval, trouble)
  {
    var target, excess := Target(minute), Target(minute) + Window(interval) - DAY;
    var early := Clock(0, target - if excess < target then excess else target);
    var t1 := TurnAt(minute, early, 0).(outcome := NotDue);
    var t2 := TurnAt(minute, Clock(1, 0.0), 0).(outcome := NotDue);
    assert early.second < target;
    var logs, cycles, at := TwoCycles(minute, interval, 0, trouble, 0, t1, 1, t2);
    NoRunIsNotOne(logs[|cycles|], "a", "r", 0);
    RefutedBy(logs, cycles, at, "a", "r", 0, minute, interval, trouble);
  }

  lemma RefutedBy(logs: seq<Log>, cycles: seq<Cycle>, at: seq<Clock>, agent: string, id: string, day: int,
                  minute: nat, interval: nat, trouble: Trouble)
    requires Watched(logs, cycles, at, agent, id, day, minute, interval, trouble)
    requires !RunsOnce(logs[|cycles|], agent, id, day)
    ensures !Guaranteed(minute, interval, trouble)
  {}

  // ----- a rival in the config -----

  /** Two agents whose routines share a marker, and a cycle that reaches the rival first. */
  lemma RivalTakesTheRun(minute: nat, interval: nat, trouble: Trouble)
    requires minute < 1440 && trouble.rival
    ensures !Guaranteed(minute, interval, trouble)
  {
    var clock := Clock(0, Target(minute));
    var first, own := Routine("c", true, false, At(Some(minute))), Routine("b-c", true, false, At(Some(minute)));
    var t1 := Turn("a-b", first, clock, 0, Submitted(clock.Absolute()));
    var t2 := Turn("a", own, clock, 1, NotDue);
    var agents := [Agent("a-b", [first]), Agent("a", [own])];
    var c := Cycle(agents, 0, interval, [t1, t2], false);
    SharedMarker();
    var x := Made(t1, 0, interval);
    BlindTurnIsProper([], t1, 0, interval);
    RivalCycle(c, t1, t2, x);
    RivalRefutes(c, t1, t2, x, minute, interval, trouble);
  }

  lemma RivalRefutes(c: Cycle, t1: Turn, t2: Turn, x: Submission, minute: nat, interval: nat, trouble: Trouble)
    requires c.turns == [t1, t2] && c.interval == interval && c.start == 0 && trouble.rival && minute < 1440
    requires CycleStep([], [x], c) && Sequential([], c.turns, c.start, c.interval) && x == Made(t1, 0, interval)
    requires t1.agent == "a-b" && t1.routine.id == "c" && t1.outcome.Submitted?
    requires t2.agent == "a" && t2.routine.id == "b-c" && t2.routine.schedule == At(Some(minute)) && t2.outcome.NotDue?
    requires t2.clock == Clock(0, Target(minute))
    ensures !Guaranteed(minute, interval, trouble)
  {
    RivalWatched(c, t1, t2, x, minute, interval, trouble);
    NoRunIsNotOne([x], "a", "b-c", 0);
    RefutedBy([[], [x]], [c], [t2.clock], "a", "b-c", 0, minute, interval, trouble);
  }

  lemma RivalWatched(c: Cycle, t1: Turn, t2: Turn, x: Submission, minute: nat, interval: nat, trouble: Trouble)
    requires c.turns == [t1, t2] && c.interval == interval && c.start == 0 && trouble.rival && minute < 1440
    requires CycleStep([], [x], c) && Sequential([], c.turns, c.start, c.interval)
    requires t1.agent == "a-b" && t1.routine.id == "c" && t1.outcome.Submitted?
    requires t2.agent == "a" && t2.routine.id == "b-c" && t2.routine.schedule == At(Some(minute)) && t2.outcome.NotDue?
    requires t2.clock == Clock(0, Target(minute))
    ensures Watched([[], [x]], [c], [t2.clock], "a", "b-c", 0, minute, interval, trouble)
  {
    var logs, cycles := [[], [x]], [c];
    assert Run(logs, cycles);
    SharedMarker();
    forall k, t | 0 <= k < |cycles| && t in cycles[k].turns ensures TurnAllowed(cycles[k], t, "a", "b-c", 0, trouble) {
      assert t == t1 || t == t2;
    }
    assert t2 in c.turns && Reaches(c, "a", "b-c", minute, interval, t2.clock);
  }

  lemma SharedMarker()
    ensures Identifier("a") && Identifier("a-b") && Identifier("b-c") && Identifier("c")
    ensures MarkerOf("a-b", "c") == MarkerOf("a", "b-c")
  {
    assert Slug("a") && Slug("a-b") && Slug("b-c") && Slug("c");
    var k := "b";
    assert k != "" && "a-b" == "a" + "-" + k && "b-c" == k + "-" + "c";
    assert Shifted("a", "b-c", "a-b", "c");
    assert Rivals("a", "b-c", "a-b", "c");
    MarkersCollideExactly("a", "b-c", "a-b", "c");
  }

  lemma RivalCycle(c: Cycle, t1: Turn, t2: Turn, x: Submission)
    requires c == Cycle([Agent(t1.agent, [t1.routine]), Agent(t2.agent, [t2.routine])], c.start, c.interval,
      [t1, t2], false)
    requires x == Made(t1, c.start, c.interval) && t1.outcome.Submitted? && t1.outcome.touch == t1.clock.Absolute()
    requires Proper([], t1, c.start, c.interval) && t1.looked == 0
    requires t2.outcome.NotDue? && t2.looked == 1 && t2.clock.Valid() && Runnable(t2.routine) && t2.routine.schedule.At?
    requires t1.routine.schedule.At? && x.Marker() == MarkerOf(t2.agent, t2.routine.id)
    ensures CycleStep([], [x], c) && Sequential([], c.turns, c.start, c.interval)
  {
    var turns, agents := c.turns, c.agents;
    assert turns[..1] == [t1] && turns[..0] == [] && agents[..1] == [agents[0]];
    OneTurn([], c.start, c.interval, t1);
    assert [x][..1] == [x] && Marks([x][0], c.start, x.Marker());
    assert After([], turns, c.start, c.interval) == Apply([x], t2, c.start, c.interval) == [x];
    OneVisit(t1);
    OneVisit(t2);
    assert Order([agents[1]]) == RunnableOf(t2.agent, [t2.routine]) by {
      assert [agents[1]][..0] == [];
      assert Order([agents[1]]) == Order([agents[1]][..0]) + RunnableOf(t2.agent, [t2.routine]);
    }
    assert Visited(turns) == Visited([t1]) + Visited([t2]);
  }

  /** The guarantee holds if and only if nothing is left to trouble it and the window ends by midnight. */
  lemma GuaranteedExactly(minute: nat, interval: nat, trouble: Trouble)
    requires minute < 1440
    ensures Guaranteed(minute, interval, trouble) <==> trouble == NONE && Target(minute) + Window(interval) <= DAY
  {
    if trouble.late { LateCheckRunsTwice(minute, interval, trouble); }
    else if trouble.death { DeathRunsTwice(minute, interval, trouble); }
    else if trouble.overlap { OverlapRunsTwice(minute, interval, trouble); }
    else if trouble.rival { RivalTakesTheRun(minute, interval, trouble); }
    else if Target(minute) + Window(interval) > DAY { LateTargetIsMissed(minute, interval, trouble); }
    else {
      forall logs, cycles, at, agent, id, day | Watched(logs, cycles, at, agent, id, day, minute, interval, trouble)
        ensures RunsOnce(logs[|cycles|], agent, id, day)
      {
        RunsExactlyOnce(logs, cycles, at, agent, id, day, minute, interval);
      }
    }
  }
}
