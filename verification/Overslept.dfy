/** A timer that oversleeps: a rule is switched on whose given first period is long over, so that
    the next update is computed for a time that is gone. */
module Overslept {
  import opened Calendar
  import opened TimeLibrary
  import opened Periods
  import opened RuleTime
  import opened NextChange
  import opened Network
  import opened Steps
  import opened Agreement
  import opened Quiet
  import opened Alarm
  import opened Device
  import opened Outputs
  import opened SwitchingOff

  // ----- The system

  /** Rule 0 switches rule 1 on from ten seconds after the start. */
  function ParentSchedule(): Schedule {
    Schedule(Infinite, Seconds, [Offsets(10, 1000)], EMPTY)
  }

  /** Rule 1 drives the channel for ten seconds in every hundred, counted from second 1000. */
  function ChildSchedule(): Schedule {
    Schedule(Fixed(100), Seconds, [Offsets(0, 10)], 1000)
  }

  function LateChild(): System {
    System([Config(ParentSchedule(), true, true, ActivatesRule(1)), Config(ChildSchedule(), false, true, Channel(0))],
           [0, 1], 1, Window(-ONE_WEEK, 0x7000_0000))
  }

  function AsStored(): World {
    World([Dyn(true, EMPTY, EMPTY, false, false), Dyn(false, EMPTY, EMPTY, false, false)], [false], [])
  }

  lemma SchedulesFit()
    ensures Fits(ParentSchedule(), LateChild().win) && Fits(ChildSchedule(), LateChild().win)
  {
  }

  lemma ParentsOfBoth()
    ensures Parents(LateChild(), 0) == [] && Parents(LateChild(), 1) == [0]
  {
    var sys := LateChild();
    OneMoreParent(sys, 0, 0, 1);
    OneMoreParent(sys, 0, 1, 2);
    OneMoreParent(sys, 1, 0, 1);
    OneMoreParent(sys, 1, 1, 2);
  }

  lemma IsCovered()
    ensures Pair(LateChild(), 0, 1) && Follows(LateChild(), AsStored(), 1, 0)
  {
    SchedulesFit();
    ParentsOfBoth();
    assert TargetOk(LateChild(), 0) && TargetOk(LateChild(), 1);
  }

  /** When the two schedules have their actions running. */
  lemma ParentTimes(t: Timestamp)
    ensures ActiveAt(ParentSchedule(), 1990, t) <==> 2000 <= t < 2990
  {
    var s := ParentSchedule();
    SchedulesFit();
    assert s.intervals[0] in s.intervals;
    ActiveInWindow(s, LateChild().win, 1990, t);
  }

  lemma ChildTimes(start: Timestamp, t: Timestamp)
    requires 1000 <= start <= 2000
    ensures ActiveAt(ChildSchedule(), start, t) <==> start <= t < start + 10
  {
    var s := ChildSchedule();
    SchedulesFit();
    assert s.intervals[0] in s.intervals;
    ActiveInWindow(s, LateChild().win, start, t);
  }

  // ----- Until rule 1 is switched on

  predicate States(w: World, on: bool, active: bool, start: Timestamp) {
    && Fit(LateChild(), w)
    && SameState(w.rules[0], Dyn(true, 1990, EMPTY, on, false))
    && SameState(w.rules[1], Dyn(on, start, EMPTY, active, false))
  }

  predicate Waiting(w: World) {
    && Fit(LateChild(), w) && w.rules[0].enabled && (w.rules[0].start == EMPTY || w.rules[0].start == 1990)
    && !w.rules[0].active && SameState(w.rules[1], Dyn(false, EMPTY, EMPTY, false, false))
  }

  lemma FirstLook(d: Dyn)
    requires WellFormed(LateChild()) && (d.start == EMPTY || d.start == 1990) && !d.active && d.enabled
    ensures var r := ParentAfter(LateChild(), 0, d, 1990); r.start == 1990 && !r.active && r.enabled
    ensures !Begins(LateChild(), 0, d, 1990) && !Ends(LateChild(), 0, d, 1990)
  {
    ParentTimes(1990);
  }

  lemma FirstStep(w: World, v: World, d: Direction)
    requires Waiting(w) && WellFormed(LateChild()) && v == Step(LateChild(), w, 1990, d)
    ensures States(v, false, false, EMPTY) && Waiting(v)
  {
    IsCovered();
    StepOfPair(LateChild(), w, 0, 1, 1990, d);
    FirstLook(w.rules[0]);
  }

  lemma ResetWaits(w: World)
    requires WellFormed(LateChild()) && w == ResetAll(LateChild(), AsStored())
    ensures Waiting(w)
  {
    ResetEnables(LateChild(), AsStored());
  }

  /** The timer started at 1990. */
  function Started1990(): Runner
    requires WellFormed(LateChild()) && Fit(LateChild(), AsStored())
  {
    Start(LateChild(), AsStored(), 1990, 1990)
  }

  lemma StartsIdle()
    ensures WellFormed(LateChild()) && Fit(LateChild(), AsStored())
    ensures var r := Started1990();
            States(r.world, false, false, EMPTY) && r.lastStep == 1990 && Complete(LateChild(), r.world, 1990)
            && r.next == NextUpdate(LateChild(), r.world)
  {
    var sys, w := LateChild(), AsStored();
    IsCovered();
    var u := ResetAll(sys, w);
    var v := Step(sys, u, 1990, Up);
    ResetWaits(u);
    FirstStep(u, v, Up);
    FirstStep(v, Step(sys, v, 1990, Down), Down);
    StepIsComplete(sys, v, 1990, Down);
  }

  lemma ParentChanges()
    ensures NextStateChange(ParentSchedule(), 1990, 1990) == 2000
  {
    var ivs := Instantiate(ParentSchedule(), 1990);
    U32Small(2000);
    U32Small(2990);
    assert ivs == [Interval(2000, 2990)];
    assert CurrentInterval(ivs, 1990) == NO_INTERVAL by {
      assert ivs[1..] == [];
    }
    U32Small(10);
    assert Closest(ivs, 1990, 0) == (NO_INTERVAL, INT32_MAX);
    assert Closest(ivs, 1990, 1) == (ivs[0], 10);
  }

  lemma UpdatesAt2000()
    ensures WellFormed(LateChild()) && Fit(LateChild(), AsStored())
    ensures Started1990().next == 2000
  {
    var sys := LateChild();
    StartsIdle();
    ParentChanges();
    var w := Started1990().world;
    NextAmongMore(sys, w, 0, 1);
    NextAmongMore(sys, w, 1, 2);
  }

  // ----- The step that switches rule 1 on

  lemma StartIsCurrent(r: Runner)
    requires WellFormed(LateChild()) && States(r.world, false, false, EMPTY)
    ensures LeftCurrent(LateChild(), r)
  {
  }

  lemma SleepsUntil2000(from: Timestamp, t: Timestamp)
    requires from == 1990 && t == 1999
    ensures WellFormed(LateChild()) && Fit(LateChild(), AsStored())
    ensures var r := Sleep(LateChild(), Started1990(), from, t);
            && r.world == Started1990().world && r.next == 2000 && r.lastStep == 1990 && Asleep(LateChild(), r, t)
            && Matching(LateChild(), r.world, Poll(LateChild(), Started1990().world, from, t), t)
  {
    var sys := LateChild();
    StartsIdle();
    UpdatesAt2000();
    var r := Started1990();
    StartIsCurrent(r);
    NeverLateBeforeNext(sys, r, from, t);
    StartFallsAsleepIff(sys, AsStored(), 1990, 1990);
    BeforeNext(sys, r, from, t);
    SleepingAgrees(sys, r, from, t);
  }

  lemma WakesAt2000(from: Timestamp, t: Timestamp)
    requires from == 1990 && t == 2000
    ensures WellFormed(LateChild()) && Fit(LateChild(), AsStored())
    ensures Sleep(LateChild(), Started1990(), from, t) == StepNow(LateChild(), Started1990().world, t)
    ensures Matching(LateChild(), Sleep(LateChild(), Started1990(), from, t).world,
                     Poll(LateChild(), Started1990().world, from, t), t)
  {
    var sys := LateChild();
    SleepsUntil2000(from, 1999);
    var r, v := Sleep(sys, Started1990(), from, 1999), Poll(sys, Started1990().world, from, 1999);
    WokenOnTime(r, 1999, t);
    SecondAgrees(sys, r, v, 1999, t);
    OneMoreSecond(sys, Started1990(), Started1990().world, from, 1999, t);
  }

  lemma StepAt2000(w: World)
    requires WellFormed(LateChild()) && States(w, false, false, EMPTY)
    ensures States(Step(LateChild(), w, 2000, Down), true, false, 1000)
  {
    IsCovered();
    StepOfPair(LateChild(), w, 0, 1, 2000, Down);
    ParentTimes(2000);
    ChildTimes(1000, 2000);
  }

  lemma StepAt2001(w: World)
    requires WellFormed(LateChild()) && States(w, true, false, 1000)
    ensures Step(LateChild(), w, 2001, Down).rules[1].active
  {
    IsCovered();
    StepOfPair(LateChild(), w, 0, 1, 2001, Down);
    ParentTimes(2001);
    ChildTimes(2000, 2001);
  }

  /** The next update is computed for the end of a period that was over long before. */
  lemma NextUpdateInThePast(w: World)
    requires WellFormed(LateChild()) && States(w, false, false, EMPTY)
    ensures NextUpdate(LateChild(), Step(LateChild(), w, 2000, Down)) <= 1100
  {
    var sys, v := LateChild(), Step(LateChild(), w, 2000, Down);
    StepAt2000(w);
    StepIsComplete(sys, w, 2000, Down);
    SchedulesFit();
    NextIsInFutureIff(ChildSchedule(), sys.win, 1000, 2000);
    EndInWindow(ChildSchedule(), sys.win, 1000);
  }

  lemma SleepsOn(r: Runner)
    requires WellFormed(LateChild()) && Fit(LateChild(), r.world) && r.current == 2000 && r.next <= 1100
    ensures Second(LateChild(), r, 2001) == r
  {
    FirstMonth(2000);
    FirstMonth(r.next);
    FirstMonth(2001);
    OnlyMatch(2000, r.next, 2001);
  }

  lemma NextIsGone(w: World, t: Timestamp)
    requires WellFormed(LateChild()) && States(w, false, false, EMPTY) && t == 2000
    ensures var r := StepNow(LateChild(), w, t); r.current == t && r.next <= 1100
  {
    NextUpdateInThePast(w);
  }

  lemma SleepsPast2000(s: Runner, r: Runner, from: Timestamp, t: Timestamp, u: Timestamp)
    requires WellFormed(LateChild()) && Fit(LateChild(), s.world) && from == 1990 && t == 2000 && u == 2001
    requires r == Sleep(LateChild(), s, from, t) && r.current == 2000 && r.next <= 1100
    ensures Sleep(LateChild(), s, from, u) == r
  {
    SleepsOn(r);
    OneMoreSecond(LateChild(), s, s.world, from, t, u);
  }

  lemma StillAsleepAt2001(from: Timestamp, t: Timestamp, u: Timestamp)
    requires from == 1990 && t == 2000 && u == 2001
    ensures WellFormed(LateChild()) && Fit(LateChild(), AsStored()) && States(Started1990().world, false, false, EMPTY)
    ensures var r := StepNow(LateChild(), Started1990().world, t);
            && r.next <= 1100 && Sleep(LateChild(), Started1990(), from, t) == r
            && Sleep(LateChild(), Started1990(), from, u) == r
  {
    StartsIdle();
    WakesAt2000(from, t);
    var s := Started1990();
    NextIsGone(s.world, t);
    SleepsPast2000(s, StepNow(LateChild(), s.world, t), from, t, u);
  }

  /** Started at 1990, the timer sets its alarm at 2000 for a time that is gone, and sleeps on at
      2001, when the polling timer switches the channel on. */
  lemma Oversleeps(from: Timestamp, t: Timestamp, u: Timestamp)
    requires from == 1990 && t == 2000 && u == 2001
    ensures WellFormed(LateChild()) && Fit(LateChild(), AsStored()) && Follows(LateChild(), AsStored(), 1, 0)
    ensures Sleep(LateChild(), Started1990(), from, t).next <= 1100
    ensures !Sleep(LateChild(), Started1990(), from, u).world.channels[0]
    ensures Poll(LateChild(), Started1990().world, from, u).channels[0]
  {
    var sys := LateChild();
    StillAsleepAt2001(from, t, u);
    WakesAt2000(from, t);
    IsCovered();
    var w := Started1990().world;
    OneMoreSecond(sys, Started1990(), w, from, t, u);
    StartFollows(sys, AsStored(), 1990, 1990, 1, 0);
    ChannelsAt2001(w, Step(sys, w, t, Down), Poll(sys, w, from, t));
  }

  lemma ChannelsAt2001(w: World, r: World, v: World)
    requires WellFormed(LateChild()) && States(w, false, false, EMPTY) && Follows(LateChild(), w, 1, 0)
    requires r == Step(LateChild(), w, 2000, Down) && Fit(LateChild(), v) && Matching(LateChild(), r, v, 2000)
    ensures !r.channels[0] && Step(LateChild(), v, 2001, Down).channels[0]
  {
    var sys := LateChild();
    StepAt2000(w);
    StepAt2001(r);
    StepFollows(sys, w, 2000, Down, 1, 0);
    StepFollows(sys, r, 2001, Down, 1, 0);
    MatchingLater(sys, r, v, 2000, 2001);
    StepAgrees(sys, r, v, 2001, Down);
  }
}
