/** Channels that only one rule drives: each is on, or off, exactly while that rule's action runs. */
module Outputs {
  import opened Calendar
  import opened Periods
  import opened RuleTime
  import opened Network
  import opened Stepping
  import opened Steps
  import opened Quiet
  import opened Device

  /** Rule i switches channel c, and no other rule touches that channel. */
  predicate Drives(sys: System, i: nat, c: nat) {
    && i < |sys.configs| && sys.configs[i].target == Channel(c) && c < sys.channelCount
    && forall j :: 0 <= j < |sys.configs| && j != i ==> sys.configs[j].target != Channel(c)
  }

  /** The state that the target of rule i is meant to be in while its action runs, or does not. */
  function StateWhile(sys: System, i: nat, running: bool): bool
    requires i < |sys.configs|
  {
    if running then sys.configs[i].whenRunning else !sys.configs[i].whenRunning
  }

  predicate Follows(sys: System, w: World, i: nat, c: nat) {
    WellFormed(sys) && Fit(sys, w) && Drives(sys, i, c) && w.channels[c] == StateWhile(sys, i, w.rules[i].active)
  }

  /** The channel follows its rule, or the rule has not run yet, and the channel still is as it was. */
  predicate Settles(sys: System, w: World, i: nat, c: nat, b: bool) {
    && WellFormed(sys) && Fit(sys, w) && Drives(sys, i, c)
    && (Follows(sys, w, i, c) || (!w.rules[i].active && w.channels[c] == b))
  }

  lemma {:induction false} StopSettles(sys: System, w: World, j: nat, i: nat, c: nat, b: bool)
    requires Settles(sys, w, i, c, b) && j < |w.rules|
    ensures Settles(sys, Stop(sys, w, j), i, c, b)
    decreases Height(sys, j)
  {
    if w.rules[j].active && sys.configs[j].target.ActivatesRule? {
      var k := sys.configs[j].target.rule;
      assert TargetOk(sys, j);
      var v := w.(rules := w.rules[j := w.rules[j].(active := false)]);
      var u := v.(rules := v.rules[k := v.rules[k].(enabled := false)]);
      assert Settles(sys, u, i, c, b);
      StopSettles(sys, u, k, i, c, b);
      assert Stop(sys, w, j) == Stop(sys, u, k);
    }
  }

  lemma PrepareSettles(sys: System, w: World, j: nat, now: Timestamp, i: nat, c: nat, b: bool)
    requires Settles(sys, w, i, c, b) && Timely(sys.win, now) && j < |w.rules|
    ensures Settles(sys, Prepare(sys, w, j, now), i, c, b)
  {
    StopSettles(sys, w, j, i, c, b);
  }

  lemma PlainSettles(sys: System, w: World, j: nat, now: Timestamp, i: nat, c: nat, b: bool)
    requires Settles(sys, w, i, c, b) && Good(sys, w, now) && j < |w.rules| && !Launches(sys, w, j, now)
    ensures Settles(sys, EvaluatePlainly(sys, w, j, now), i, c, b)
  {
    var v := Prepare(sys, w, j, now);
    var due := ActiveAt(sys.configs[j].schedule, v.rules[j].start, now);
    PrepareSettles(sys, w, j, now, i, c, b);
    if due == v.rules[j].active {
      MarkedSettles(sys, v, j, now, i, c, b);
    } else if !due {
      StopSettles(sys, v, j, i, c, b);
      MarkedSettles(sys, Stop(sys, v, j), j, now, i, c, b);
    } else {
      var x := Switched(sys, Started(sys, w, j, now), j);
      StartedSettles(sys, v, Started(sys, w, j, now), j, i, c, b);
      MarkedSettles(sys, x, j, now, i, c, b);
    }
  }

  /** The action of rule j started, and its channel switched. */
  lemma StartedSettles(sys: System, v: World, x: World, j: nat, i: nat, c: nat, b: bool)
    requires Settles(sys, v, i, c, b) && j < |v.rules| && x == v.(rules := v.rules[j := v.rules[j].(active := true)])
    ensures Fit(sys, x) && Settles(sys, Switched(sys, x, j), i, c, b)
  {
    assert TargetOk(sys, j);
  }

  lemma LaunchSettles(sys: System, w: World, j: nat, k: nat, now: Timestamp, i: nat, c: nat, b: bool)
    requires Settles(sys, w, i, c, b) && Good(sys, w, now) && k < |w.rules| && IsParent(sys, j, k)
    ensures Settles(sys, Enabled(sys, Started(sys, w, j, now), k), i, c, b)
  {
    PrepareSettles(sys, w, j, now, i, c, b);
  }

  lemma LoggedSettles(sys: System, w: World, j: nat, i: nat, c: nat, b: bool)
    requires Settles(sys, w, i, c, b) && j < |w.rules|
    ensures Settles(sys, Logged(sys, w, j), i, c, b)
  {
  }

  lemma MarkedSettles(sys: System, w: World, j: nat, now: Timestamp, i: nat, c: nat, b: bool)
    requires Settles(sys, w, i, c, b) && j < |w.rules|
    ensures Settles(sys, Marked(sys, w, j, now), i, c, b)
  {
  }

  lemma {:induction false} EvaluateSettles(sys: System, w: World, j: nat, now: Timestamp, i: nat, c: nat, b: bool)
    requires Settles(sys, w, i, c, b) && Good(sys, w, now) && j < |w.rules| && ParentsDone(sys, w, j)
    ensures Settles(sys, Evaluate(sys, w, j, now), i, c, b)
    decreases TotalWork(sys, w, now), sys.order[j], 1, 0
  {
    var u := Logged(sys, w, j);
    LoggedStaysGood(sys, w, u, j, now);
    LoggedSettles(sys, w, j, i, c, b);
    if Launches(sys, u, j, now) {
      var k := sys.configs[j].target.rule;
      Launch(sys, u, j, k, now);
      LaunchSettles(sys, u, j, k, now, i, c, b);
      var y := Enabled(sys, Started(sys, u, j, now), k);
      UpdateWithParentsSettles(sys, y, k, now, i, c, b);
      MarkedSettles(sys, UpdateWithParents(sys, y, k, now), j, now, i, c, b);
    } else {
      PlainSettles(sys, u, j, now, i, c, b);
    }
  }

  lemma {:induction false} RunParentsSettles(sys: System, w: World, j: nat, now: Timestamp, k: nat, i: nat, c: nat, b: bool)
    requires Settles(sys, w, i, c, b) && Good(sys, w, now) && j < |w.rules|
    requires k <= |Parents(sys, j)| && ParentsDoneTo(sys, w, j, k)
    ensures Settles(sys, RunParents(sys, w, j, now, k), i, c, b)
    decreases TotalWork(sys, w, now), sys.order[j], 2, |Parents(sys, j)| - k
  {
    if k < |Parents(sys, j)| {
      var p := Parents(sys, j)[k];
      ParentComesFirst(sys, p, j);
      if w.rules[p].hasRun {
        RunParentsSettles(sys, w, j, now, k + 1, i, c, b);
      } else {
        var v := Update(sys, w, p, now);
        ParentsStayDone(sys, w, v, j, k, now);
        UpdateSettles(sys, w, p, now, i, c, b);
        RunParentsSettles(sys, v, j, now, k + 1, i, c, b);
      }
    }
  }

  lemma {:induction false} UpdateWithParentsSettles(sys: System, w: World, j: nat, now: Timestamp, i: nat, c: nat, b: bool)
    requires Settles(sys, w, i, c, b) && Good(sys, w, now) && j < |w.rules|
    ensures Settles(sys, UpdateWithParents(sys, w, j, now), i, c, b)
    decreases TotalWork(sys, w, now), sys.order[j], 3, 0
  {
    RunParentsSettles(sys, w, j, now, 0, i, c, b);
    EvaluateSettles(sys, RunParents(sys, w, j, now, 0), j, now, i, c, b);
  }

  lemma {:induction false} UpdateSettles(sys: System, w: World, j: nat, now: Timestamp, i: nat, c: nat, b: bool)
    requires Settles(sys, w, i, c, b) && Good(sys, w, now) && j < |w.rules|
    ensures Settles(sys, Update(sys, w, j, now), i, c, b)
    decreases TotalWork(sys, w, now), sys.order[j], 4, 0
  {
    if w.rules[j].enabled && !w.rules[j].hasRun {
      UpdateWithParentsSettles(sys, w, j, now, i, c, b);
    }
  }

  lemma {:induction false} UpdateEachSettles(sys: System, w: World, indices: seq<nat>, k: nat, now: Timestamp, i: nat, c: nat,
                                             b: bool)
    requires Settles(sys, w, i, c, b) && Good(sys, w, now) && InRange(indices, |w.rules|) && k <= |indices|
    ensures Settles(sys, UpdateEach(sys, w, indices, k, now), i, c, b)
    decreases k
  {
    if k > 0 {
      var j := Before(k);
      UpdateEachSettles(sys, w, indices, j, now, i, c, b);
      UpdateSettles(sys, UpdateEach(sys, w, indices, j, now), indices[j], now, i, c, b);
    }
  }

  /** A step keeps that, ... */
  lemma StepSettles(sys: System, w: World, now: Timestamp, d: Direction, i: nat, c: nat, b: bool)
    requires Settles(sys, w, i, c, b) && Timely(sys.win, now)
    ensures Settles(sys, Step(sys, w, now, d), i, c, b)
  {
    UpdateEachSettles(sys, Cleared(w), Indices(|w.rules|, d), |w.rules|, now, i, c, b);
  }

  /** ... and a channel that follows its rule goes on following it. */
  lemma StepFollows(sys: System, w: World, now: Timestamp, d: Direction, i: nat, c: nat)
    requires Follows(sys, w, i, c) && Timely(sys.win, now)
    ensures Follows(sys, Step(sys, w, now, d), i, c)
  {
    StepSettles(sys, w, now, d, i, c, StateWhile(sys, i, false));
  }

  lemma UpdateFollows(sys: System, w: World, j: nat, now: Timestamp, i: nat, c: nat)
    requires Follows(sys, w, i, c) && Good(sys, w, now) && j < |w.rules|
    ensures Follows(sys, Update(sys, w, j, now), i, c)
  {
    UpdateSettles(sys, w, j, now, i, c, StateWhile(sys, i, false));
  }

  /** What may be met before a start: a rule marked as running, whatever its channel, or one that is
      not, with its channel as it is. */
  predicate AsFound(sys: System, w: World, i: nat, c: nat, b: bool) {
    && WellFormed(sys) && Fit(sys, w) && Drives(sys, i, c)
    && if w.rules[i].active then b == StateWhile(sys, i, false) else w.channels[c] == b
  }

  /** The channel is as it should be, unless the rule is marked as running. It may be marked so when
      channels are switched off and the rules loaded again in place. */
  predicate Accounted(sys: System, w: World, i: nat, c: nat) {
    && WellFormed(sys) && Fit(sys, w) && Drives(sys, i, c)
    && (!w.rules[i].active ==> w.channels[c] == StateWhile(sys, i, false))
  }

  lemma {:induction false} StopAsFound(sys: System, w: World, j: nat, i: nat, c: nat, b: bool)
    requires AsFound(sys, w, i, c, b) && j < |w.rules|
    ensures AsFound(sys, Stop(sys, w, j), i, c, b)
    decreases Height(sys, j)
  {
    if w.rules[j].active && sys.configs[j].target.ActivatesRule? {
      var k := sys.configs[j].target.rule;
      assert TargetOk(sys, j);
      var v := w.(rules := w.rules[j := w.rules[j].(active := false)]);
      var u := v.(rules := v.rules[k := v.rules[k].(enabled := false)]);
      assert AsFound(sys, u, i, c, b);
      StopAsFound(sys, u, k, i, c, b);
      assert Stop(sys, w, j) == Stop(sys, u, k);
    }
  }

  lemma OneResetAsFound(sys: System, w: World, j: nat, i: nat, c: nat, b: bool)
    requires AsFound(sys, w, i, c, b) && j < |w.rules|
    ensures AsFound(sys, Reset(sys, w, j), i, c, b)
  {
    StopAsFound(sys, w.(rules := w.rules[j := w.rules[j].(start := EMPTY)]), j, i, c, b);
  }

  lemma {:induction false} ResetFirstAsFound(sys: System, w: World, n: nat, i: nat, c: nat, b: bool)
    requires AsFound(sys, w, i, c, b) && n <= |w.rules|
    ensures AsFound(sys, ResetFirst(sys, w, n), i, c, b)
  {
    if n > 0 {
      var m := Before(n);
      ResetFirstAsFound(sys, w, m, i, c, b);
      OneResetAsFound(sys, ResetFirst(sys, w, m), m, i, c, b);
    }
  }

  /** A reset puts the channel of a rule that is marked as running into the state for a stopped one,
      and leaves that of any other rule alone. */
  lemma ResetChannel(sys: System, w: World, i: nat, c: nat)
    requires WellFormed(sys) && Fit(sys, w) && Drives(sys, i, c)
    ensures var u := ResetAll(sys, w);
            !u.rules[i].active && u.channels[c] == if w.rules[i].active then !sys.configs[i].whenRunning else w.channels[c]
  {
    var b := if w.rules[i].active then StateWhile(sys, i, false) else w.channels[c];
    ResetFirstAsFound(sys, w, |w.rules|, i, c, b);
    ResetFirstStops(sys, w, |w.rules|);
  }

  lemma ResetFollows(sys: System, w: World, i: nat, c: nat)
    requires Accounted(sys, w, i, c)
    ensures Follows(sys, ResetAll(sys, w), i, c)
  {
    ResetChannel(sys, w, i, c);
  }

  lemma WakeUpSettles(sys: System, r: Runner, now: Timestamp, i: nat, c: nat, b: bool)
    requires Settles(sys, r.world, i, c, b) && Timely(sys.win, now)
    ensures Settles(sys, WakeUp(sys, r, now).world, i, c, b)
  {
    if now >= r.next {
      StepSettles(sys, r.world, now, Down, i, c, b);
    }
  }

  /** The channel as the reset of a start leaves it. */
  function ChannelAtReset(sys: System, w: World, i: nat, c: nat): bool
    requires i < |sys.configs| && i < |w.rules| && c < |w.channels|
  {
    if w.rules[i].active then StateWhile(sys, i, false) else w.channels[c]
  }

  lemma StartSettles(sys: System, w: World, begin: Timestamp, now: Timestamp, i: nat, c: nat)
    requires WellFormed(sys) && Fit(sys, w) && Drives(sys, i, c)
    requires Timely(sys.win, begin) && Timely(sys.win, now) && begin <= now
    ensures Settles(sys, Start(sys, w, begin, now).world, i, c, ChannelAtReset(sys, w, i, c))
  {
    var u, b := ResetAll(sys, w), ChannelAtReset(sys, w, i, c);
    ResetChannel(sys, w, i, c);
    StepSettles(sys, u, begin, Up, i, c, b);
    WakeUpSettles(sys, Runner(Step(sys, u, begin, Up), begin, begin, begin), now, i, c, b);
  }

  lemma StartFollows(sys: System, w: World, begin: Timestamp, now: Timestamp, i: nat, c: nat)
    requires Accounted(sys, w, i, c) && Timely(sys.win, begin) && Timely(sys.win, now) && begin <= now
    ensures Follows(sys, Start(sys, w, begin, now).world, i, c)
  {
    StartSettles(sys, w, begin, now, i, c);
  }

  lemma AfterSettles(sys: System, r: Runner, now: Timestamp, rings: bool, i: nat, c: nat, b: bool)
    requires Settles(sys, r.world, i, c, b) && Timely(sys.win, now)
    ensures Settles(sys, After(sys, r, now, rings).world, i, c, b)
  {
    if rings {
      WakeUpSettles(sys, r, now, i, c, b);
    }
  }

  lemma {:induction false} SleepSettles(sys: System, r: Runner, from: Timestamp, upTo: Timestamp, i: nat, c: nat, b: bool)
    requires Settles(sys, r.world, i, c, b) && Timely(sys.win, from) && Timely(sys.win, upTo) && from <= upTo
    ensures Settles(sys, Sleep(sys, r, from, upTo).world, i, c, b)
    decreases upTo
  {
    if from < upTo {
      var t := SecondBefore(upTo);
      var r' := Sleep(sys, r, from, t);
      SleepSettles(sys, r, from, t, i, c, b);
      AfterSettles(sys, r', upTo, Rings(r', upTo), i, c, b);
    }
  }

  lemma SleepFollows(sys: System, r: Runner, from: Timestamp, upTo: Timestamp, i: nat, c: nat)
    requires Follows(sys, r.world, i, c) && Timely(sys.win, from) && Timely(sys.win, upTo) && from <= upTo
    ensures Follows(sys, Sleep(sys, r, from, upTo).world, i, c)
  {
    SleepSettles(sys, r, from, upTo, i, c, StateWhile(sys, i, false));
  }

  lemma {:induction false} PollSettles(sys: System, w: World, from: Timestamp, upTo: Timestamp, i: nat, c: nat, b: bool)
    requires Settles(sys, w, i, c, b) && Timely(sys.win, from) && Timely(sys.win, upTo) && from <= upTo
    ensures Settles(sys, Poll(sys, w, from, upTo), i, c, b)
    decreases upTo
  {
    if from < upTo {
      var t := SecondBefore(upTo);
      PollSettles(sys, w, from, t, i, c, b);
      StepSettles(sys, Poll(sys, w, from, t), upTo, Down, i, c, b);
    }
  }

  lemma PollFollows(sys: System, w: World, from: Timestamp, upTo: Timestamp, i: nat, c: nat)
    requires Follows(sys, w, i, c) && Timely(sys.win, from) && Timely(sys.win, upTo) && from <= upTo
    ensures Follows(sys, Poll(sys, w, from, upTo), i, c)
  {
    PollSettles(sys, w, from, upTo, i, c, StateWhile(sys, i, false));
  }

  /** The period that rule i is in at `now` has an interval that contains the time. */
  predicate Due(sys: System, i: nat, d: Dyn, now: Timestamp)
    requires i < |sys.configs|
  {
    var s := sys.configs[i].schedule;
    var start := Tick(s, d.start, now);
    0 <= start < TWO_32 && ActiveAt(s, start, now)
  }

  lemma QuietIsDue(sys: System, i: nat, d: Dyn, now: Timestamp)
    requires WellFormed(sys) && i < |sys.configs| && DynOk(sys, i, d) && Timely(sys.win, now)
    requires d.enabled && RuleQuiet(sys, i, d, now)
    ensures d.active == Due(sys, i, d, now)
  {
    TickInWindow(sys.configs[i].schedule, sys.win, d.start, now);
  }

  lemma AsleepIsDue(sys: System, w: World, i: nat, c: nat, now: Timestamp)
    requires Follows(sys, w, i, c) && AllQuiet(sys, w, now) && Timely(sys.win, now)
    ensures w.rules[i].enabled ==> w.channels[c] == StateWhile(sys, i, Due(sys, i, w.rules[i], now))
  {
    if w.rules[i].enabled {
      QuietIsDue(sys, i, w.rules[i], now);
    }
  }

  /** The output of the board: at every second after the start, a channel that one rule drives is in
      the state for a running action exactly when that rule's current period has an interval that
      contains the time, as long as the rule is enabled, although the device sleeps in between. */
  lemma ChannelOnSchedule(sys: System, w: World, begin: Timestamp, now: Timestamp, later: Timestamp, i: nat, c: nat)
    requires Accounted(sys, w, i, c)
    requires Timely(sys.win, begin) && Timely(sys.win, now) && Timely(sys.win, later) && begin <= now <= later
    requires NeverLate(sys, Start(sys, w, begin, now), now, later)
    ensures var v := Sleep(sys, Start(sys, w, begin, now), now, later).world;
            v.rules[i].enabled ==> v.channels[c] == StateWhile(sys, i, Due(sys, i, v.rules[i], later))
  {
    var r := Start(sys, w, begin, now);
    SleepingIsPolling(sys, w, begin, now, later);
    StartFollows(sys, w, begin, now, i, c);
    SleepFollows(sys, r, now, later, i, c);
    AsleepIsDue(sys, Sleep(sys, r, now, later).world, i, c, later);
  }

  // ----- The rule that toggles a channel every second

  /** One second on, one second off, from the first time stamp on. */
  function ToggleSystem(): System {
    var schedule := Schedule(Fixed(2), Seconds, [Offsets(0, 1)], EMPTY);
    System([Config(schedule, true, true, Channel(0))], [0], 1, Window(-ONE_WEEK, 0x7000_0000))
  }

  function ToggleWorld(): World {
    World([Dyn(true, EMPTY, EMPTY, false, false)], [false], [])
  }

  /** Everything that is required above holds of it, from midnight on 1 January 2000. */
  lemma ToggleIsCovered()
    ensures Follows(ToggleSystem(), ToggleWorld(), 0, 0) && Timely(ToggleSystem().win, 0)
    ensures forall from: Timestamp, upTo: Timestamp :: ChildrenFresh(ToggleSystem(), from, upTo)
  {
    var sys := ToggleSystem();
    assert ParentsBelow(sys, 0, 0) == [] && !IsParent(sys, 0, 0);
    assert ParentsBelow(sys, 0, 1) == [];
    assert TargetOk(sys, 0);
  }
}
