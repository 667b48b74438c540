/** The rule runner as the firmware writes it: rules and channels updated in place, rules calling
    one another. Each method is shown to do what the functions on worlds say. */
module Runners {
  import opened Calendar
  import opened TimeLibrary
  import opened Periods
  import opened RuleTime
  import opened NextChange
  import opened Network
  import opened Stepping
  import opened Steps
  import opened Quiet
  import opened Alarm
  import opened Device
  import opened Rules

  class TdlRuleRunner {
    const rules: seq<TdlRule>
    var channels: seq<bool>
    var currentTime: Timestamp
    var lastUpdateTime: Timestamp
    var nextUpdateTime: Timestamp
    var alarm: AlarmTime

    ghost const sys: System
    /** The state of all rules and channels, and the evaluations of the present step. */
    ghost var world: World

    /** Rule i is as the world has it. */
    ghost predicate Mirrored(i: nat)
      requires i < |rules|
      reads this`world, rules
    {
      && |world.rules| == |sys.configs| == |rules|
      && rules[i].id == i && rules[i].Valid() && rules[i].config == sys.configs[i] && rules[i].Value() == world.rules[i]
    }

    ghost predicate Valid()
      reads this`world, this`channels, rules
    {
      && |world.rules| == |sys.configs| == |rules| && channels == world.channels
      && forall i :: 0 <= i < |rules| ==> Mirrored(i)
    }

    constructor (rules: seq<TdlRule>, channels: seq<bool>, ghost sys: System)
      requires |rules| == |sys.configs|
      requires forall i :: 0 <= i < |rules| ==> rules[i].id == i && rules[i].Valid() && rules[i].config == sys.configs[i]
      ensures Valid() && this.rules == rules && this.channels == channels && this.sys == sys
      ensures world.log == [] && forall i :: 0 <= i < |rules| ==> world.rules[i] == rules[i].Value()
    {
      this.rules, this.channels, this.sys := rules, channels, sys;
      currentTime, lastUpdateTime, nextUpdateTime := EMPTY, EMPTY, EMPTY;
      alarm := AlarmTime(1, 0, 0, 0);
      world := World(seq(|rules|, i requires 0 <= i < |rules| reads rules => rules[i].Value()), channels, []);
      new;
      forall i | 0 <= i < |rules|
        ensures Mirrored(i)
      {
      }
    }

    /** Rule i is set to d in the world. */
    ghost function With(i: nat, d: Dyn): World
      requires i < |world.rules|
      reads this`world
    {
      world.(rules := world.rules[i := d])
    }

    method SetActive(i: nat, active: bool)
      requires Valid() && i < |rules|
      modifies this`world, rules[i]
      ensures Valid() && world == old(With(i, world.rules[i].(active := active)))
    {
      assert Mirrored(i);
      var rule := rules[i];
      rule.active := active;
      world := With(i, world.rules[i].(active := active));
      forall j | 0 <= j < |rules|
        ensures Mirrored(j)
      {
        assert old(Mirrored(j));
        assert j != i ==> rules[j] != rule;
      }
    }

    method SetEnabled(i: nat, enabled: bool)
      requires Valid() && i < |rules|
      modifies this`world, rules[i]
      ensures Valid() && world == old(With(i, world.rules[i].(enabled := enabled)))
    {
      assert Mirrored(i);
      var rule := rules[i];
      rule.enabled := enabled;
      world := With(i, world.rules[i].(enabled := enabled));
      forall j | 0 <= j < |rules|
        ensures Mirrored(j)
      {
        assert old(Mirrored(j));
        assert j != i ==> rules[j] != rule;
      }
    }

    method ForgetPeriod(i: nat)
      requires Valid() && i < |rules|
      modifies this`world, rules[i]
      ensures Valid() && world == old(With(i, world.rules[i].(start := EMPTY)))
    {
      assert Mirrored(i);
      var rule := rules[i];
      rule.ResetInternalTimeKeepingVariables();
      world := With(i, world.rules[i].(start := EMPTY));
      forall j | 0 <= j < |rules|
        ensures Mirrored(j)
      {
        assert old(Mirrored(j));
        assert j != i ==> rules[j] != rule;
      }
    }

    method SetChannel(c: nat, on: bool)
      requires Valid() && c < |channels|
      modifies this`world, this`channels
      ensures Valid() && world == old(world.(channels := world.channels[c := on]))
    {
      channels := channels[c := on];
      world := world.(channels := channels);
      forall j | 0 <= j < |rules|
        ensures Mirrored(j)
      {
        assert old(Mirrored(j));
      }
    }

    method StopAction(i: nat)
      requires Valid() && WellFormed(sys) && Fit(sys, world) && i < |rules|
      modifies this`world, this`channels, rules
      ensures Valid() && world == Stop(sys, old(world), i)
      decreases Height(sys, i)
    {
      assert Mirrored(i);
      if !rules[i].active {
        return;
      }
      SetActive(i, false);
      match rules[i].target {
        case NoTarget =>
        case Channel(c) =>
          assert TargetOk(sys, i);
          SetChannel(c, !rules[i].whenRunning);
        case ActivatesRule(c) =>
          assert TargetOk(sys, i);
          SetEnabled(c, false);
          StopAction(c);
      }
    }

    // ----- Time keeping

    method BeginFirstPeriod(i: nat, now: Timestamp)
      requires Valid() && i < |rules| && InitialStart(sys.configs[i].schedule, now) != EMPTY
      modifies this`world, rules[i]
      ensures Valid()
      ensures world == old(With(i, world.rules[i].(start := InitialStart(sys.configs[i].schedule, now))))
    {
      assert Mirrored(i);
      var rule := rules[i];
      rule.UpdateInitialStartOfCurrentPeriod(now);
      world := With(i, world.rules[i].(start := rule.startOfCurrentPeriod));
      forall j | 0 <= j < |rules|
        ensures Mirrored(j)
      {
        assert old(Mirrored(j));
        assert j != i ==> rules[j] != rule;
      }
    }

    method RollPeriods(i: nat, now: Timestamp, end: Timestamp)
      requires Valid() && i < |rules| && WellFormed(sys) && DynOk(sys, i, world.rules[i]) && Timely(sys.win, now)
      requires world.rules[i].start != EMPTY && now >= end == EndOfPeriod(sys.configs[i].schedule, world.rules[i].start)
      modifies this`world, rules[i]
      ensures Valid()
      ensures world == old(With(i, world.rules[i].(start := NewStart(sys, i, world.rules[i], now))))
    {
      assert Mirrored(i);
      var rule := rules[i];
      rule.RollPeriods(now, end, sys.win);
      world := With(i, world.rules[i].(start := rule.startOfCurrentPeriod));
      forall j | 0 <= j < |rules|
        ensures Mirrored(j)
      {
        assert old(Mirrored(j));
        assert j != i ==> rules[j] != rule;
      }
    }

    /** Finds the current period of rule i. Stopping the action does not touch the period, so it
        makes no difference that a given first period is noted before and not after it. */
    method UpdateInternalTimeKeepingVariables(i: nat, now: Timestamp)
      requires Valid() && WellFormed(sys) && Fit(sys, world) && Timely(sys.win, now) && i < |rules|
      modifies this`world, this`channels, rules
      ensures Valid() && world == Prepare(sys, old(world), i, now)
    {
      assert Mirrored(i);
      var rule := rules[i];
      InitialInWindow(rule.schedule, sys.win, now);
      if rule.startOfCurrentPeriod == EMPTY {
        if rule.startOfFirstPeriod != EMPTY {
          StopAction(i);
        }
        BeginFirstPeriod(i, now);
      } else {
        var end := rule.GetEndOfCurrentPeriod();
        EndInWindow(rule.schedule, sys.win, rule.startOfCurrentPeriod);
        if rule.startOfFirstPeriod != EMPTY && now < rule.startOfFirstPeriod {
          StopAction(i);
        } else if now < rule.startOfCurrentPeriod {
          return;
        } else if now >= end {
          RollPeriods(i, now, end);
        } else {
          TickWhileCurrent(rule.schedule, rule.startOfCurrentPeriod, now);
        }
      }
    }

    // ----- Evaluating rules

    method EnableRule(c: nat)
      requires Valid() && WellFormed(sys) && Fit(sys, world) && c < |rules|
      modifies this`world, rules[c]
      ensures Valid() && world == Enabled(sys, old(world), c)
    {
      SetEnabled(c, true);
      ForgetPeriod(c);
    }

    method MarkRun(i: nat, now: Timestamp)
      requires Valid() && WellFormed(sys) && Fit(sys, world) && i < |rules|
      modifies this`world, rules[i]
      ensures Valid() && world == Marked(sys, old(world), i, now)
    {
      assert Mirrored(i);
      var rule := rules[i];
      rule.lastUpdateTime := now;
      rule.hasBeenRunThisStep := true;
      world := Marked(sys, world, i, now);
      forall j | 0 <= j < |rules|
        ensures Mirrored(j)
      {
        assert old(Mirrored(j));
        assert j != i ==> rules[j] != rule;
      }
    }

    ghost method LogEvaluation(i: nat)
      requires Valid()
      modifies this`world
      ensures Valid() && world == Logged(sys, old(world), i)
    {
      world := Logged(sys, world, i);
      forall j | 0 <= j < |rules|
        ensures Mirrored(j)
      {
        assert old(Mirrored(j));
      }
    }

    /** Starts the action of rule i, in the world that finding its current period made of u. */
    method StartAction(i: nat, now: Timestamp, ghost u: World)
      requires Valid() && Good(sys, u, now) && i < |rules| && world == Prepare(sys, u, i, now)
      requires ActiveAt(sys.configs[i].schedule, world.rules[i].start, now)
      modifies this`world, this`channels, rules
      ensures Valid()
      ensures old(world.rules[i].active) ==> world == old(world)
      ensures !old(world.rules[i].active) ==>
                var x := Started(sys, u, i, now);
                if Launches(sys, u, i, now) then
                  var c := sys.configs[i].target.rule;
                  && c < |x.rules| && Good(sys, Enabled(sys, x, c), now)
                  && world == UpdateWithParents(sys, Enabled(sys, x, c), c, now)
                else world == Switched(sys, x, i)
      decreases TotalWork(sys, u, now), sys.order[i], 0, 0
    {
      assert Mirrored(i);
      if rules[i].active {
        return;
      }
      SetActive(i, true);
      match rules[i].target {
        case NoTarget =>
        case Channel(c) =>
          assert TargetOk(sys, i);
          SetChannel(c, rules[i].whenRunning);
        case ActivatesRule(c) =>
          Launch(sys, u, i, c, now);
          EnableRule(c);
          UpdateThisRuleAndParentsIfNecessary(c, now);
      }
    }

    method UpdateThisRuleOnly(i: nat, now: Timestamp)
      requires Valid() && Good(sys, world, now) && i < |rules| && ParentsDone(sys, world, i)
      modifies this`world, this`channels, rules
      ensures Valid() && world == Evaluate(sys, old(world), i, now)
      decreases TotalWork(sys, world, now), sys.order[i], 1, 0
    {
      ghost var u := Logged(sys, world, i);
      LoggedStaysGood(sys, world, u, i, now);
      LogEvaluation(i);
      UpdateInternalTimeKeepingVariables(i, now);
      assert Mirrored(i);
      var isActive := rules[i].IsActiveAt(now);
      if isActive {
        StartAction(i, now, u);
      } else {
        StopAction(i);
      }
      MarkRun(i, now);
    }

    method FindParentRules(i: nat) returns (parents: seq<nat>)
      requires Valid()
      ensures parents == Parents(sys, i)
    {
      parents := [];
      var p := 0;
      while p < |rules|
        invariant p <= |rules| && parents == ParentsBelow(sys, i, p)
      {
        var n := p + 1;
        assert Mirrored(p);
        OneMoreParent(sys, i, p, n);
        if rules[p].target == ActivatesRule(i) {
          parents := parents + [p];
        }
        p := n;
      }
    }

    method RunParentIfNecessary(i: nat, now: Timestamp, parents: seq<nat>, k: nat)
      requires Valid() && Good(sys, world, now) && i < |rules| && parents == Parents(sys, i) && k < |parents|
      modifies this`world, this`channels, rules
      ensures Valid() && world == WithParent(sys, old(world), i, now, k)
      decreases TotalWork(sys, world, now), sys.order[i], 2, 0
    {
      var p := parents[k];
      ParentComesFirst(sys, p, i);
      assert Mirrored(p);
      if !rules[p].hasBeenRunThisStep {
        Update(p, now);
      }
    }

    method RunParentRulesIfNecessary(i: nat, now: Timestamp)
      requires Valid() && Good(sys, world, now) && i < |rules|
      modifies this`world, this`channels, rules
      ensures Valid() && world == RunParents(sys, old(world), i, now, 0)
      decreases TotalWork(sys, world, now), sys.order[i], 2, 1
    {
      var parents := FindParentRules(i);
      ghost var u := world;
      var k := 0;
      while k < |parents|
        invariant Valid() && k <= |parents| && Underway(sys, u, world, i, now, k)
      {
        var m := k + 1;
        UnderwayOnward(sys, u, world, i, now, k, m);
        RunParentIfNecessary(i, now, parents, k);
        k := m;
      }
    }

    method UpdateThisRuleAndParentsIfNecessary(i: nat, now: Timestamp)
      requires Valid() && Good(sys, world, now) && i < |rules|
      modifies this`world, this`channels, rules
      ensures Valid() && world == UpdateWithParents(sys, old(world), i, now)
      decreases TotalWork(sys, world, now), sys.order[i], 3, 0
    {
      RunParentRulesIfNecessary(i, now);
      UpdateThisRuleOnly(i, now);
    }

    method Update(i: nat, now: Timestamp)
      requires Valid() && Good(sys, world, now) && i < |rules|
      modifies this`world, this`channels, rules
      ensures Valid() && world == Stepping.Update(sys, old(world), i, now)
      decreases TotalWork(sys, world, now), sys.order[i], 4, 0
    {
      assert Mirrored(i);
      if rules[i].enabled && !rules[i].hasBeenRunThisStep {
        RunParentRulesIfNecessary(i, now);
        UpdateThisRuleOnly(i, now);
      }
    }

    // ----- Whole steps

    method SetNotRunThisStep(i: nat)
      requires Valid() && i < |rules|
      modifies this`world, rules[i]
      ensures Valid() && world == old(With(i, world.rules[i].(hasRun := false)))
    {
      assert Mirrored(i);
      var rule := rules[i];
      rule.hasBeenRunThisStep := false;
      world := With(i, world.rules[i].(hasRun := false));
      forall j | 0 <= j < |rules|
        ensures Mirrored(j)
      {
        assert old(Mirrored(j));
        assert j != i ==> rules[j] != rule;
      }
    }

    method SetAllRulesNotRunThisStep()
      requires Valid()
      modifies this`world, rules
      ensures Valid() && world == Cleared(old(world))
    {
      ghost var u := world;
      for i := 0 to |rules|
        invariant Valid() && world.channels == u.channels && world.log == u.log
        invariant forall j :: 0 <= j < i ==> world.rules[j] == u.rules[j].(hasRun := false)
        invariant forall j :: i <= j < |rules| ==> world.rules[j] == u.rules[j]
      {
        SetNotRunThisStep(i);
      }
      ForgetLog();
      assert world.rules == Cleared(u).rules;
    }

    ghost method ForgetLog()
      requires Valid()
      modifies this`world
      ensures Valid() && world == old(world).(log := [])
    {
      world := world.(log := []);
      forall j | 0 <= j < |rules|
        ensures Mirrored(j)
      {
        assert old(Mirrored(j));
      }
    }

    /** Updates the rule whose turn it is in a step begun in world c. */
    method UpdateInTurn(i: nat, now: Timestamp, ghost c: World, ghost indices: seq<nat>, ghost k: nat, ghost m: nat)
      requires Valid() && UpdatedTo(sys, c, world, indices, k, now) && k < |indices| && i == indices[k] && m > 0 && k == Before(m)
      modifies this`world, this`channels, rules
      ensures Valid() && UpdatedTo(sys, c, world, indices, m, now)
    {
      OneMoreUpdated(sys, c, world, indices, k, m, now);
      Update(i, now);
    }

    method UpdateUpwards(now: Timestamp, ghost c: World, ghost indices: seq<nat>)
      requires Valid() && indices == Indices(|rules|, Up) && UpdatedTo(sys, c, world, indices, 0, now)
      modifies this`world, this`channels, rules
      ensures Valid() && UpdatedTo(sys, c, world, indices, |rules|, now)
    {
      var i := 0;
      while i < |rules|
        invariant Valid() && i <= |rules| && UpdatedTo(sys, c, world, indices, i, now)
      {
        var m := i + 1;
        UpdateInTurn(i, now, c, indices, i, m);
        i := m;
      }
    }

    method UpdateDownwards(now: Timestamp, ghost c: World, ghost indices: seq<nat>)
      requires Valid() && indices == Indices(|rules|, Down) && UpdatedTo(sys, c, world, indices, 0, now)
      modifies this`world, this`channels, rules
      ensures Valid() && UpdatedTo(sys, c, world, indices, |rules|, now)
    {
      var i := |rules|;
      ghost var k := 0;
      while i > 0
        invariant Valid() && i + k == |rules| && UpdatedTo(sys, c, world, indices, k, now)
      {
        i := i - 1;
        ghost var m := k + 1;
        LastFirst(|rules|, k, i);
        UpdateInTurn(i, now, c, indices, k, m);
        k := m;
      }
      assert k == |rules|;
    }

    method UpdateFromFirst(now: Timestamp)
      requires Valid() && WellFormed(sys) && Fit(sys, world) && Timely(sys.win, now)
      modifies this`world, this`channels, rules
      ensures Valid() && world == Step(sys, old(world), now, Up)
    {
      SetAllRulesNotRunThisStep();
      ghost var c, indices := world, Indices(|rules|, Up);
      UpdateUpwards(now, c, indices);
    }

    method StepTo(now: Timestamp)
      requires Valid() && WellFormed(sys) && Fit(sys, world) && Timely(sys.win, now)
      modifies this`world, this`channels, this`currentTime, rules
      ensures Valid() && world == Step(sys, old(world), now, Up) && currentTime == now
    {
      UpdateFromFirst(now);
      SetCurrentTime(now);
    }

    method SetCurrentTime(now: Timestamp)
      requires Valid()
      modifies this`currentTime
      ensures Valid() && currentTime == now
    {
      currentTime := now;
      forall j | 0 <= j < |rules|
        ensures Mirrored(j)
      {
        assert old(Mirrored(j));
      }
    }

    method UpdateFromLast(now: Timestamp)
      requires Valid() && WellFormed(sys) && Fit(sys, world) && Timely(sys.win, now)
      modifies this`world, this`channels, rules
      ensures Valid() && world == Step(sys, old(world), now, Down)
    {
      SetAllRulesNotRunThisStep();
      ghost var c, indices := world, Indices(|rules|, Down);
      UpdateDownwards(now, c, indices);
    }

    method FindOverallNextStateChangeTime() returns (minNext: Timestamp)
      requires Valid()
      ensures minNext == NextUpdate(sys, world)
    {
      minNext := EMPTY;
      for i := 0 to |rules|
        invariant minNext == NextAmong(sys, world, i)
      {
        assert Mirrored(i);
        NextAmongMore(sys, world, i, i + 1);
        if rules[i].enabled {
          var next := rules[i].GetNextStateChangeTime();
          if next != EMPTY && next < minNext {
            minNext := next;
          }
        }
      }
    }

    method SetRtcInterrupt()
      modifies this`alarm
      ensures alarm == Armed(currentTime, nextUpdateTime)
    {
      var now := GmTime(currentTime);
      var next := GmTime(nextUpdateTime);
      var alarmTime: Timestamp := if now.mon == next.mon && now.year == next.year then nextUpdateTime else 0;
      var tm := GmTime(alarmTime);
      alarm := AlarmTime(tm.mday, tm.hour, tm.min, tm.sec);
    }

    // ----- The runner

    ghost function AsRunner(): Runner
      reads this
    {
      Runner(world, currentTime, lastUpdateTime, nextUpdateTime)
    }

    method SetTimes(now: Timestamp, next: Timestamp)
      requires Valid()
      modifies this`currentTime, this`lastUpdateTime, this`nextUpdateTime, this`alarm
      ensures Valid() && AsRunner() == Runner(world, now, now, next) && alarm == Armed(now, next)
    {
      currentTime := now;
      lastUpdateTime := now;
      nextUpdateTime := next;
      SetRtcInterrupt();
    }

    /** The device woken by its clock at `now`, whether or not the time of the next update has
        come. */
    method HandleWakeUp(now: Timestamp) returns (updated: bool)
      requires Valid() && WellFormed(sys) && Fit(sys, world) && Timely(sys.win, now)
      modifies this, rules
      ensures Valid() && AsRunner() == WakeUp(sys, old(AsRunner()), now)
      ensures alarm == Armed(currentTime, nextUpdateTime)
      ensures updated <==> now >= old(nextUpdateTime)
    {
      if now < nextUpdateTime {
        SetCurrentTime(now);
        SetRtcInterrupt();
        return false;
      }
      UpdateNow(now);
      return true;
    }

    /** The step of a wake-up that is not too early. */
    method UpdateNow(now: Timestamp)
      requires Valid() && WellFormed(sys) && Fit(sys, world) && Timely(sys.win, now)
      modifies this, rules
      ensures Valid() && AsRunner() == StepNow(sys, old(world), now)
      ensures alarm == Armed(currentTime, nextUpdateTime)
    {
      UpdateFromLast(now);
      var next := FindOverallNextStateChangeTime();
      SetTimes(now, next);
    }

    /** The main loop after an interrupt, when the clock's alarm flag says whether it was the
        alarm. */
    method MainLoopCallback(now: Timestamp, alarmFlag: bool)
      requires Valid() && WellFormed(sys) && Fit(sys, world) && Timely(sys.win, now)
      requires alarm == Armed(currentTime, nextUpdateTime) && (alarmFlag <==> Matches(alarm, now))
      modifies this, rules
      ensures Valid() && AsRunner() == Second(sys, old(AsRunner()), now)
      ensures alarm == Armed(currentTime, nextUpdateTime)
    {
      if alarmFlag {
        var updated := HandleWakeUp(now);
      }
    }

    method ResetRule(i: nat)
      requires Valid() && WellFormed(sys) && Fit(sys, world) && i < |rules|
      modifies this`world, this`channels, rules
      ensures Valid() && world == Reset(sys, old(world), i)
    {
      ForgetPeriod(i);
      StopAction(i);
      assert Mirrored(i);
      SetEnabled(i, rules[i].enabledOnStart);
      SetNotRunThisStep(i);
    }

    method ResetAllRules()
      requires Valid() && WellFormed(sys) && Fit(sys, world)
      modifies this`world, this`channels, rules
      ensures Valid() && world == ResetAll(sys, old(world))
    {
      ghost var u := world;
      var i := 0;
      while i < |rules|
        invariant Valid() && Fit(sys, world) && i <= |rules| && world == ResetFirst(sys, u, i)
      {
        var n := i + 1;
        assert i == Before(n);
        ResetRule(i);
        i := n;
      }
    }

    /** Starting at `begin`; the clock is read again for the first update. */
    method StartRunning(begin: Timestamp, now: Timestamp)
      requires Valid() && WellFormed(sys) && Fit(sys, world)
      requires Timely(sys.win, begin) && Timely(sys.win, now) && begin <= now
      modifies this, rules
      ensures Valid() && AsRunner() == Start(sys, old(world), begin, now)
      ensures alarm == Armed(currentTime, nextUpdateTime)
    {
      ResetAndStepTo(begin);
      var updated := HandleWakeUp(now);
    }

    method ResetAndStepTo(begin: Timestamp)
      requires Valid() && WellFormed(sys) && Fit(sys, world) && Timely(sys.win, begin)
      modifies this, rules
      ensures Valid() && world == Step(sys, ResetAll(sys, old(world)), begin, Up)
      ensures currentTime == begin && nextUpdateTime == begin
    {
      ResetAllRules();
      StepTo(begin);
      nextUpdateTime := begin;
    }

    /** The clock's alarm compared with the time. */
    method AlarmGoesOff(now: Timestamp) returns (flag: bool)
      ensures flag <==> Matches(alarm, now)
    {
      var tm := GmTime(now);
      flag := tm.mday == alarm.mday && tm.hour == alarm.hour && tm.min == alarm.min && tm.sec == alarm.sec;
    }

    /** Starts at `now` and sleeps, second after second, until `later`. The state then is that of
        a timer that looks at every rule every second, and every action is as its intervals say. */
    method SleepThrough(begin: Timestamp, now: Timestamp, later: Timestamp)
      requires Valid() && WellFormed(sys) && Fit(sys, world)
      requires Timely(sys.win, begin) && Timely(sys.win, now) && Timely(sys.win, later) && begin <= now <= later
      requires NeverLate(sys, Start(sys, world, begin, now), now, later)
      modifies this, rules
      ensures Valid() && Fit(sys, world) && AllQuiet(sys, world, later)
      ensures SameOutputs(world, Poll(sys, Start(sys, old(world), begin, now).world, now, later))
    {
      SleepingIsPolling(sys, world, begin, now, later);
      StartRunning(begin, now);
      SleepOn(now, later);
    }

    method SleepOn(now: Timestamp, later: Timestamp)
      requires Valid() && WellFormed(sys) && Fit(sys, world)
      requires Timely(sys.win, now) && Timely(sys.win, later) && now <= later && alarm == Armed(currentTime, nextUpdateTime)
      modifies this, rules
      ensures Valid() && Fit(sys, world) && AsRunner() == Sleep(sys, old(AsRunner()), now, later)
    {
      ghost var r := AsRunner();
      var t := now;
      while t < later
        invariant t <= later && SleptTo(r, now, t)
      {
        t := NextSecond(r, now, t, later);
      }
    }

    /** Runner r has slept until t. */
    ghost predicate SleptTo(r: Runner, from: Timestamp, t: Timestamp)
      reads this, rules
    {
      && Valid() && WellFormed(sys) && Fit(sys, world) && Fit(sys, r.world) && Timely(sys.win, from) && Timely(sys.win, t)
      && from <= t && alarm == Armed(currentTime, nextUpdateTime) && AsRunner() == Sleep(sys, r, from, t)
    }

    method NextSecond(ghost r: Runner, ghost from: Timestamp, t: Timestamp, ghost later: Timestamp) returns (u: Timestamp)
      requires SleptTo(r, from, t) && t < later && Timely(sys.win, later)
      modifies this, rules
      ensures u == t + 1 && SleptTo(r, from, u)
    {
      u := t + 1;
      assert t == SecondBefore(u);
      var flag := AlarmGoesOff(u);
      MainLoopCallback(u, flag);
    }
  }
}
