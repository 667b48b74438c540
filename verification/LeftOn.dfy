/** A channel that stays on for good, because its rule was switched off too late. */
module LeftOn {
  import opened Calendar
  import opened Periods
  import opened RuleTime
  import opened Network
  import opened Steps
  import opened Device
  import opened Outputs
  import opened SwitchingOff

  /** No interval of rule p is left from the given time on. */
  predicate Spent(sys: System, d: Dyn, p: nat, from: Timestamp)
    requires p < |sys.configs|
  {
    && sys.configs[p].schedule.period.Infinite? && d.start != EMPTY
    && forall t: Timestamp :: from <= t && Timely(sys.win, t) ==> !ActiveAt(sys.configs[p].schedule, d.start, t)
  }

  /** The rule is switched off, its action runs, and its parent is idle for good. */
  predicate Stranded(sys: System, w: World, p: nat, i: nat, from: Timestamp) {
    && Fit(sys, w) && Pair(sys, p, i) && p < i
    && Spent(sys, w.rules[p], p, from) && !w.rules[p].active && !w.rules[i].enabled && w.rules[i].active
  }

  lemma SpentIsNotDue(sys: System, d: Dyn, p: nat, now: Timestamp)
    requires WellFormed(sys) && p < |sys.configs| && DynOk(sys, p, d) && Timely(sys.win, now) && Spent(sys, d, p, now)
    ensures NewStart(sys, p, d, now) == d.start && !DueNow(sys, p, d, now)
  {
  }

  /** Such a parent stops, at the latest now, and keeps its period. */
  lemma SpentAfterStep(sys: System, w: World, p: nat, i: nat, now: Timestamp)
    requires Fit(sys, w) && Timely(sys.win, now) && Pair(sys, p, i)
    requires Spent(sys, w.rules[p], p, now) && (w.rules[p].active ==> w.rules[p].enabled)
    ensures var r := Step(sys, w, now, Down).rules[p]; !r.active && r.start == w.rules[p].start
  {
    SpentIsNotDue(sys, w.rules[p], p, now);
    StepOfPair(sys, w, p, i, now, Down);
  }

  /** A rule that the end of its parent's last interval switches off too late. */
  lemma BecomesStranded(sys: System, w: World, p: nat, i: nat, now: Timestamp)
    requires Fit(sys, w) && Timely(sys.win, now) && Pair(sys, p, i) && p < i && Spent(sys, w.rules[p], p, now)
    requires w.rules[p].enabled && w.rules[p].active && w.rules[i].enabled && DueNow(sys, i, w.rules[i], now)
    ensures Stranded(sys, Step(sys, w, now, Down), p, i, now)
  {
    SpentIsNotDue(sys, w.rules[p], p, now);
    StepLeavesRunningIff(sys, w, p, i, now, Down);
    SpentAfterStep(sys, w, p, i, now);
  }

  lemma StaysStranded(sys: System, w: World, p: nat, i: nat, now: Timestamp)
    requires Stranded(sys, w, p, i, now) && Timely(sys.win, now)
    ensures Stranded(sys, Step(sys, w, now, Down), p, i, now)
  {
    SpentIsNotDue(sys, w.rules[p], p, now);
    StepLeavesRunningIff(sys, w, p, i, now, Down);
    SpentAfterStep(sys, w, p, i, now);
  }

  /** Nothing but its parent could ever stop it: the action runs for good. */
  lemma {:induction false} StrandedForGood(sys: System, w: World, p: nat, i: nat, from: Timestamp, later: Timestamp)
    requires Timely(sys.win, from) && Timely(sys.win, later) && from <= later && Stranded(sys, w, p, i, from)
    ensures Stranded(sys, Poll(sys, w, from, later), p, i, later)
    decreases later
  {
    if from < later {
      var t := SecondBefore(later);
      StrandedForGood(sys, w, p, i, from, t);
      StaysStranded(sys, Poll(sys, w, from, t), p, i, later);
    }
  }

  // ----- Two rules to which that happens

  /** Rule 0 switches rule 1 on for the first ten seconds, and rule 1 its channel for the first
      fifty. */
  function LateSystem(): System {
    System([Config(LateSchedule(10), true, true, ActivatesRule(1)), Config(LateSchedule(50), false, true, Channel(0))],
           [0, 1], 1, Window(-ONE_WEEK, 0x7000_0000))
  }

  function LateSchedule(end: int): Schedule {
    Schedule(Infinite, Seconds, [Offsets(0, end)], EMPTY)
  }

  /** Both run, nine seconds after the start. */
  function LateWorld(): World {
    World([Dyn(true, 1000, 1009, true, true), Dyn(true, 1000, 1009, true, true)], [true], [])
  }

  lemma LateFits(end: int)
    requires 0 <= end <= 50
    ensures Fits(LateSchedule(end), LateSystem().win)
    ensures forall t: Timestamp :: ActiveAt(LateSchedule(end), 1000, t) <==> 1000 <= t < 1000 + end
  {
    var s := LateSchedule(end);
    forall t: Timestamp
      ensures ActiveAt(s, 1000, t) <==> 1000 <= t < 1000 + end
    {
      assert s.intervals[0] in s.intervals;
      ActiveInWindow(s, LateSystem().win, 1000, t);
    }
  }

  lemma LateParents()
    ensures Parents(LateSystem(), 0) == [] && Parents(LateSystem(), 1) == [0]
  {
    var sys := LateSystem();
    OneMoreParent(sys, 0, 0, 1);
    OneMoreParent(sys, 0, 1, 2);
    OneMoreParent(sys, 1, 0, 1);
    OneMoreParent(sys, 1, 1, 2);
  }

  lemma LateIsCovered()
    ensures Pair(LateSystem(), 0, 1) && Follows(LateSystem(), LateWorld(), 1, 0)
  {
    var sys := LateSystem();
    LateFits(10);
    LateFits(50);
    LateParents();
    assert TargetOk(sys, 0) && TargetOk(sys, 1);
  }

  /** The step at 1010, when the interval of rule 0 ends, leaves rule 1 switched off with its channel
      on, and so it stays. */
  lemma ChannelStaysOn(later: Timestamp)
    requires 1010 <= later && Timely(LateSystem().win, later)
    ensures WellFormed(LateSystem()) && Fit(LateSystem(), LateWorld())
    ensures var r := Poll(LateSystem(), LateWorld(), 1009, later); !r.rules[1].enabled && r.channels[0]
  {
    var sys, w := LateSystem(), LateWorld();
    LateIsCovered();
    LateFits(10);
    LateFits(50);
    BecomesStranded(sys, w, 0, 1, 1010);
    var v := Step(sys, w, 1010, Down);
    StepFollows(sys, w, 1010, Down, 1, 0);
    StrandedForGood(sys, v, 0, 1, 1010, later);
    PollFollows(sys, v, 1010, later, 1, 0);
    PollOnward(sys, w, 1009, 1010, later);
  }
}
