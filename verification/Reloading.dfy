/** Setting the clock: the channels are switched off and the rules loaded again in place, while the
    memory of their actions still says that they run. Then the runner starts. */
module Reloading {
  import opened Calendar
  import opened Periods
  import opened RuleTime
  import opened Network
  import opened Steps
  import opened Device
  import opened Outputs
  import opened Resetting
  import opened SwitchingOff
  import opened LoneRules

  /** Loading sets nothing about a rule's action, nor whether it has been evaluated. */
  function LoadedAgain(sys: System, w: World): (r: World)
    requires WellFormed(sys) && Fit(sys, w)
    ensures Fit(sys, r)
    ensures forall i :: 0 <= i < |r.rules| ==> r.rules[i].active == w.rules[i].active
    ensures forall c :: 0 <= c < |r.channels| ==> !r.channels[c]
  {
    World(seq(|w.rules|, i requires 0 <= i < |w.rules| =>
            Dyn(sys.configs[i].enabledOnStart, EMPTY, EMPTY, w.rules[i].active, w.rules[i].hasRun)),
          seq(sys.channelCount, c => false), [])
  }

  /** Chains of running rules are as they were. */
  lemma SameChains(sys: System, w: World, v: World, g: nat, j: nat)
    requires WellFormed(sys) && |w.rules| == |v.rules| == |sys.configs| && g < |w.rules|
    requires forall i :: 0 <= i < |w.rules| ==> v.rules[i].active == w.rules[i].active
    ensures Resetting.Reaches(sys, v, g, j) <==> Resetting.Reaches(sys, w, g, j)
  {
    FewerChains(sys, w, v, g, j);
    FewerChains(sys, v, w, g, j);
  }

  lemma SameStops(sys: System, w: World, v: World, p: nat, i: nat)
    requires WellFormed(sys) && |w.rules| == |v.rules| == |sys.configs|
    requires forall j :: 0 <= j < |w.rules| ==> v.rules[j].active == w.rules[j].active
    ensures StoppedAfter(sys, v, p, i) <==> StoppedAfter(sys, w, p, i)
  {
    forall q | 0 <= q < |w.rules|
      ensures Stops(sys, v, q, p) <==> Stops(sys, w, q, p)
    {
      SameChains(sys, w, v, q, p);
    }
  }

  /** So the start after loading leaves off what a start without loading would. */
  lemma LoadingLeavesOffIff(sys: System, w: World, i: nat)
    requires WellFormed(sys) && Fit(sys, w) && i < |w.rules|
    ensures ResetAll(sys, LoadedAgain(sys, w)).rules[i].enabled == (sys.configs[i].enabledOnStart && !LeftOff(sys, w, i))
  {
    var v := LoadedAgain(sys, w);
    ResetRestoresIff(sys, v, i);
    forall p | 0 <= p < |w.rules|
      ensures StoppedAfter(sys, v, p, i) <==> StoppedAfter(sys, w, p, i)
    {
      SameStops(sys, w, v, p, i);
    }
  }

  /** Every channel is accounted for, whatever was running. */
  lemma LoadedAccounts(sys: System, w: World, i: nat, c: nat)
    requires WellFormed(sys) && Fit(sys, w) && Drives(sys, i, c) && (sys.configs[i].whenRunning || w.rules[i].active)
    ensures Accounted(sys, LoadedAgain(sys, w), i, c)
  {
  }

  /** Whatever was running when the clock was set, the channel of a rule that no other switches follows
      its schedule from then on. If it is to be off while the action runs, then the action has to run. */
  lemma ChannelAfterClockSet(sys: System, w: World, begin: Timestamp, now: Timestamp, later: Timestamp, i: nat, c: nat)
    requires WellFormed(sys) && Fit(sys, w) && Drives(sys, i, c) && (sys.configs[i].whenRunning || w.rules[i].active)
    requires Parents(sys, i) == []
    requires Timely(sys.win, begin) && Timely(sys.win, now) && Timely(sys.win, later) && begin <= now <= later
    requires NeverLate(sys, Start(sys, LoadedAgain(sys, w), begin, now), now, later)
    ensures var s := sys.configs[i].schedule;
            Sleep(sys, Start(sys, LoadedAgain(sys, w), begin, now), now, later).world.channels[c]
            == StateWhile(sys, i, sys.configs[i].enabledOnStart && OnSchedule(s, InitialStart(s, begin), later))
  {
    LoadedAccounts(sys, w, i, c);
    ChannelIsSchedule(sys, LoadedAgain(sys, w), begin, now, later, i, c);
  }

  // ----- Setting the clock while a rule and its parent run

  /** Rule 1 switches rule 0 on from one second after the start. Rule 0 is also loaded as on, and has
      its channel on for fifty seconds. */
  function ParentLast(): System {
    System([Config(ChildSchedule(), true, true, Channel(0)), Config(ParentSchedule(), true, true, ActivatesRule(0))],
           [1, 0], 1, Window(-ONE_WEEK, 0x7000_0000))
  }

  function ParentSchedule(): Schedule {
    Schedule(Infinite, Seconds, [Offsets(1, 1000)], EMPTY)
  }

  function ChildSchedule(): Schedule {
    Schedule(Infinite, Seconds, [Offsets(0, 50)], EMPTY)
  }

  function Booted(): World {
    World([Dyn(true, EMPTY, EMPTY, false, false), Dyn(true, EMPTY, EMPTY, false, false)], [false], [])
  }

  lemma SchedulesFit()
    ensures Fits(ParentSchedule(), ParentLast().win) && Fits(ChildSchedule(), ParentLast().win)
  {
  }

  lemma ParentsOfBoth()
    ensures Parents(ParentLast(), 1) == [] && Parents(ParentLast(), 0) == [1]
  {
    var sys := ParentLast();
    OneMoreParent(sys, 0, 0, 1);
    OneMoreParent(sys, 0, 1, 2);
    OneMoreParent(sys, 1, 0, 1);
    OneMoreParent(sys, 1, 1, 2);
  }

  lemma IsCovered()
    ensures Pair(ParentLast(), 1, 0) && Follows(ParentLast(), Booted(), 0, 0)
  {
    SchedulesFit();
    ParentsOfBoth();
    assert TargetOk(ParentLast(), 0) && TargetOk(ParentLast(), 1);
  }

  lemma ParentTimes(start: Timestamp, t: Timestamp)
    requires start <= 5000
    ensures ActiveAt(ParentSchedule(), start, t) <==> start + 1 <= t < start + 1000
  {
    var s := ParentSchedule();
    SchedulesFit();
    assert s.intervals[0] in s.intervals;
    ActiveInWindow(s, ParentLast().win, start, t);
  }

  lemma ChildTimes(start: Timestamp, t: Timestamp)
    requires start <= 5000
    ensures ActiveAt(ChildSchedule(), start, t) <==> start <= t < start + 50
  {
    var s := ChildSchedule();
    SchedulesFit();
    assert s.intervals[0] in s.intervals;
    ActiveInWindow(s, ParentLast().win, start, t);
  }

  /** The parent waits for its interval. Rule 0 is enabled or not, and runs if it is. */
  predicate Waiting(w: World, on: bool, start: Timestamp, running: bool) {
    && Fit(ParentLast(), w) && SameState(w.rules[1], Dyn(true, start, EMPTY, false, false))
    && w.rules[0].enabled == on && w.rules[0].active == running
    && (on ==> w.rules[0].start == start)
  }

  /** A step at the starting time t, from nothing or from such a step. */
  lemma StepAtStart(w: World, on: bool, t: Timestamp, d: Direction, start: Timestamp, running: bool)
    requires WellFormed(ParentLast()) && t <= 5000 && (start == EMPTY || start == t) && Waiting(w, on, start, running)
    requires running ==> on
    ensures Waiting(Step(ParentLast(), w, t, d), on, t, on)
  {
    IsCovered();
    StepOfPair(ParentLast(), w, 1, 0, t, d);
    ParentLook(w.rules[1], t);
    if on {
      ChildLook(w.rules[0], t);
    }
  }

  lemma ParentLook(d: Dyn, t: Timestamp)
    requires WellFormed(ParentLast()) && t <= 5000 && (d.start == EMPTY || d.start == t) && !d.active && d.enabled
    ensures SameState(ParentAfter(ParentLast(), 1, d, t), Dyn(true, t, EMPTY, false, false))
    ensures !Begins(ParentLast(), 1, d, t) && !Ends(ParentLast(), 1, d, t)
  {
    ParentTimes(t, t);
  }

  lemma ChildLook(e: Dyn, t: Timestamp)
    requires WellFormed(ParentLast()) && t <= 5000 && (e.start == EMPTY || e.start == t)
    ensures SameState(Looked(ParentLast(), 0, e, t), Dyn(e.enabled, t, EMPTY, true, false))
  {
    ChildTimes(t, t);
  }

  lemma StartWaits(w: World, on: bool, t: Timestamp)
    requires WellFormed(ParentLast()) && t <= 5000 && Fit(ParentLast(), w)
    requires Waiting(ResetAll(ParentLast(), w), on, EMPTY, false)
    ensures Waiting(Start(ParentLast(), w, t, t).world, on, t, on)
  {
    var u := ResetAll(ParentLast(), w);
    StepAtStart(u, on, t, Up, EMPTY, false);
    StepAtStart(Step(ParentLast(), u, t, Up), on, t, Down, t, on);
  }

  lemma BootWaits(t: Timestamp)
    requires t <= 5000
    ensures WellFormed(ParentLast()) && Fit(ParentLast(), Booted())
    ensures Waiting(Start(ParentLast(), Booted(), t, t).world, true, t, true)
  {
    IsCovered();
    BootResets(ResetAll(ParentLast(), Booted()));
    StartWaits(Booted(), true, t);
  }

  lemma BootResets(u: World)
    requires WellFormed(ParentLast()) && Fit(ParentLast(), Booted()) && u == ResetAll(ParentLast(), Booted())
    ensures Waiting(u, true, EMPTY, false)
  {
    ResetEnables(ParentLast(), Booted());
  }

  /** A second later the parent runs, and with it rule 0. */
  lemma BothRun()
    ensures WellFormed(ParentLast()) && Fit(ParentLast(), Booted())
    ensures var w := Poll(ParentLast(), Start(ParentLast(), Booted(), 1990, 1990).world, 1990, 1991);
            w.rules[0].active && w.rules[1].active
  {
    var sys := ParentLast();
    IsCovered();
    BootWaits(1990);
    var w := Start(sys, Booted(), 1990, 1990).world;
    OneSecond(sys, w, 1990, 1991);
    StepOnward(w);
  }

  lemma StepOnward(w: World)
    requires WellFormed(ParentLast()) && Waiting(w, true, 1990, true)
    ensures var r := Step(ParentLast(), w, 1991, Down); r.rules[0].active && r.rules[1].active
  {
    IsCovered();
    StepOfPair(ParentLast(), w, 1, 0, 1991, Down);
    ParentTimes(1990, 1991);
    ChildTimes(1991, 1991);
  }

  lemma ResetLosesRule(w: World)
    requires WellFormed(ParentLast()) && Fit(ParentLast(), w) && w.rules[0].active && w.rules[1].active
    ensures Waiting(ResetAll(ParentLast(), LoadedAgain(ParentLast(), w)), false, EMPTY, false)
  {
    var sys := ParentLast();
    IsCovered();
    assert IsParent(sys, 1, 0) && !Stops(sys, w, 0, 1);
    LoadingLeavesOffIff(sys, w, 0);
    ResetRestoresParentless(sys, LoadedAgain(sys, w), 1);
    ResetFirstStops(sys, LoadedAgain(sys, w), 2);
  }

  lemma ClockSetLeavesChannelOff(w: World)
    requires WellFormed(ParentLast()) && Fit(ParentLast(), w) && w.rules[0].active && w.rules[1].active
    ensures !Start(ParentLast(), LoadedAgain(ParentLast(), w), 5000, 5000).world.channels[0]
  {
    var sys, v := ParentLast(), LoadedAgain(ParentLast(), w);
    IsCovered();
    ResetLosesRule(w);
    StartWaits(v, false, 5000);
    LoadedAccounts(sys, w, 0, 0);
    StartFollows(sys, v, 5000, 5000, 0, 0);
  }

  lemma BootTurnsChannelOn()
    ensures WellFormed(ParentLast()) && Fit(ParentLast(), Booted())
    ensures Start(ParentLast(), Booted(), 5000, 5000).world.channels[0]
  {
    IsCovered();
    BootWaits(5000);
    StartFollows(ParentLast(), Booted(), 5000, 5000, 0, 0);
  }

  /** Setting the clock at that second loses rule 0: its channel is off at the new time, when a timer
      that boots then has it on. */
  lemma ClockSetLosesRule()
    ensures WellFormed(ParentLast()) && Fit(ParentLast(), Booted())
    ensures var w := Poll(ParentLast(), Start(ParentLast(), Booted(), 1990, 1990).world, 1990, 1991);
            && !Start(ParentLast(), LoadedAgain(ParentLast(), w), 5000, 5000).world.channels[0]
            && Start(ParentLast(), Booted(), 5000, 5000).world.channels[0]
  {
    BothRun();
    BootTurnsChannelOn();
    ClockSetLeavesChannelOff(Poll(ParentLast(), Start(ParentLast(), Booted(), 1990, 1990).world, 1990, 1991));
  }
}
