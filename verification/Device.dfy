/** The timer asleep between changes, woken by its alarm, against the simple timer that looks at
    every rule every second. */
module Device {
  import opened Calendar
  import opened Periods
  import opened RuleTime
  import opened NextChange
  import opened Network
  import opened Stepping
  import opened Steps
  import opened Agreement
  import opened Quiet
  import opened Alarm

  /** `current` is the time of the last wake-up, at which the alarm was set; `lastStep` that of
      the last wake-up that was not too early. */
  datatype Runner = Runner(world: World, current: Timestamp, lastStep: Timestamp, next: Timestamp)

  /** The alarm set at the last wake-up goes off at `now`. */
  predicate Rings(r: Runner, now: Timestamp) {
    Matches(Armed(r.current, r.next), now)
  }

  // ----- What the runner does

  /** Rule i forgets its period, stops its action and is as enabled as it was loaded. */
  function Reset(sys: System, w: World, i: nat): (r: World)
    requires WellFormed(sys) && Fit(sys, w) && i < |w.rules|
    ensures Fit(sys, r)
  {
    var v := Stop(sys, w.(rules := w.rules[i := w.rules[i].(start := EMPTY)]), i);
    v.(rules := v.rules[i := v.rules[i].(enabled := sys.configs[i].enabledOnStart, hasRun := false)])
  }

  function ResetFirst(sys: System, w: World, n: nat): (r: World)
    requires WellFormed(sys) && Fit(sys, w) && n <= |w.rules|
    ensures Fit(sys, r)
  {
    if n == 0 then w
    else
      var m := Before(n);
      Reset(sys, ResetFirst(sys, w, m), m)
  }

  function ResetAll(sys: System, w: World): (r: World)
    requires WellFormed(sys) && Fit(sys, w)
    ensures Fit(sys, r)
  {
    ResetFirst(sys, w, |w.rules|)
  }

  function StepNow(sys: System, w: World, now: Timestamp): (r: Runner)
    requires WellFormed(sys) && Fit(sys, w) && Timely(sys.win, now)
    ensures Fit(sys, r.world)
  {
    var v := Step(sys, w, now, Down);
    Runner(v, now, now, NextUpdate(sys, v))
  }

  /** The runner woken at `now`: when it is too early, it only sets the alarm again. */
  function WakeUp(sys: System, r: Runner, now: Timestamp): (r': Runner)
    requires WellFormed(sys) && Fit(sys, r.world) && Timely(sys.win, now)
    ensures Fit(sys, r'.world)
  {
    if now < r.next then r.(current := now) else StepNow(sys, r.world, now)
  }

  /** Resetting, stepping to the starting time, and the first update, for which the clock is read
      once more. */
  function Start(sys: System, w: World, begin: Timestamp, now: Timestamp): (r: Runner)
    requires WellFormed(sys) && Fit(sys, w) && Timely(sys.win, begin) && Timely(sys.win, now) && begin <= now
    ensures Fit(sys, r.world)
  {
    WakeUp(sys, Runner(Step(sys, ResetAll(sys, w), begin, Up), begin, begin, begin), now)
  }

  function After(sys: System, r: Runner, now: Timestamp, rings: bool): (r': Runner)
    requires WellFormed(sys) && Fit(sys, r.world) && Timely(sys.win, now)
    ensures Fit(sys, r'.world)
  {
    if rings then WakeUp(sys, r, now) else r
  }

  /** One second of sleep, and of whatever the alarm does at its end. */
  function Second(sys: System, r: Runner, now: Timestamp): (r': Runner)
    requires WellFormed(sys) && Fit(sys, r.world) && Timely(sys.win, now)
    ensures Fit(sys, r'.world)
  {
    After(sys, r, now, Rings(r, now))
  }

  function SecondBefore(t: Timestamp): Timestamp
    requires t > 0
  {
    t - 1
  }

  function Sleep(sys: System, r: Runner, from: Timestamp, upTo: Timestamp): (r': Runner)
    requires WellFormed(sys) && Fit(sys, r.world) && Timely(sys.win, from) && Timely(sys.win, upTo) && from <= upTo
    ensures Fit(sys, r'.world)
    decreases upTo
  {
    if from == upTo then r else Second(sys, Sleep(sys, r, from, SecondBefore(upTo)), upTo)
  }

  /** The simple timer: a step at every second. */
  function Poll(sys: System, w: World, from: Timestamp, upTo: Timestamp): (r: World)
    requires WellFormed(sys) && Fit(sys, w) && Timely(sys.win, from) && Timely(sys.win, upTo) && from <= upTo
    ensures Fit(sys, r)
    decreases upTo
  {
    if from == upTo then w else Step(sys, Poll(sys, w, from, SecondBefore(upTo)), upTo, Down)
  }

  /** Polling first to one time and then on to another. */
  lemma {:induction false} PollOnward(sys: System, w: World, from: Timestamp, now: Timestamp, upTo: Timestamp)
    requires WellFormed(sys) && Fit(sys, w) && Timely(sys.win, from) && Timely(sys.win, now) && Timely(sys.win, upTo)
    requires from <= now <= upTo
    ensures Poll(sys, Poll(sys, w, from, now), now, upTo) == Poll(sys, w, from, upTo)
    decreases upTo
  {
    if now < upTo {
      PollOnward(sys, w, from, now, SecondBefore(upTo));
    }
  }

  /** Until the next update is due, the runner at most sets its alarm again. */
  lemma {:induction false} BeforeNext(sys: System, r: Runner, from: Timestamp, t: Timestamp)
    requires WellFormed(sys) && Fit(sys, r.world) && Timely(sys.win, from) && Timely(sys.win, t) && from <= t < r.next
    ensures Sleep(sys, r, from, t) == r.(current := Sleep(sys, r, from, t).current)
    decreases t
  {
    if from < t {
      BeforeNext(sys, r, from, SecondBefore(t));
    }
  }

  /** Sleeping first to one time and then on to another. */
  lemma {:induction false} SleepOnward(sys: System, r: Runner, from: Timestamp, now: Timestamp, upTo: Timestamp)
    requires WellFormed(sys) && Fit(sys, r.world) && Timely(sys.win, from) && Timely(sys.win, now) && Timely(sys.win, upTo)
    requires from <= now <= upTo
    ensures Sleep(sys, Sleep(sys, r, from, now), now, upTo) == Sleep(sys, r, from, upTo)
    decreases upTo
  {
    if now < upTo {
      SleepOnward(sys, r, from, now, SecondBefore(upTo));
    }
  }

  lemma OneMoreSecond(sys: System, r: Runner, w: World, from: Timestamp, t: Timestamp, u: Timestamp)
    requires WellFormed(sys) && Fit(sys, r.world) && Fit(sys, w)
    requires Timely(sys.win, from) && Timely(sys.win, t) && Timely(sys.win, u) && from <= t && u == t + 1
    ensures Sleep(sys, r, from, u) == Second(sys, Sleep(sys, r, from, t), u)
    ensures Poll(sys, w, from, u) == Step(sys, Poll(sys, w, from, t), u, Down)
  {
    assert t == SecondBefore(u);
  }

  lemma OneSecond(sys: System, w: World, t: Timestamp, u: Timestamp)
    requires WellFormed(sys) && Fit(sys, w) && Timely(sys.win, t) && Timely(sys.win, u) && u == t + 1
    ensures Poll(sys, w, t, u) == Step(sys, w, u, Down)
  {
    assert t == SecondBefore(u);
  }

  lemma StartInSteps(sys: System, w: World, u: World, begin: Timestamp, now: Timestamp)
    requires WellFormed(sys) && Fit(sys, w) && Timely(sys.win, begin) && Timely(sys.win, now) && begin <= now
    requires u == ResetAll(sys, w)
    ensures Start(sys, w, begin, now).world == Step(sys, Step(sys, u, begin, Up), now, Down)
  {
  }

  // ----- Starting

  predicate Idle(w: World) {
    forall i :: 0 <= i < |w.rules| ==> !w.rules[i].active
  }

  /** Nothing runs, and the first n rules are as they were loaded. */
  predicate AsLoaded(sys: System, w: World, n: nat)
    requires |w.rules| == |sys.configs| && n <= |w.rules|
  {
    Idle(w) && forall i :: 0 <= i < n ==> w.rules[i].enabled == sys.configs[i].enabledOnStart && w.rules[i].start == EMPTY
  }

  lemma ResetOfIdle(sys: System, w: World, i: nat, n: nat)
    requires WellFormed(sys) && Fit(sys, w) && i < |w.rules| && n > 0 && i == Before(n) && AsLoaded(sys, w, i)
    ensures AsLoaded(sys, Reset(sys, w, i), n) && Reset(sys, w, i).channels == w.channels
  {
    var d := w.rules[i].(start := EMPTY, enabled := sys.configs[i].enabledOnStart, hasRun := false);
    assert Reset(sys, w, i) == w.(rules := w.rules[i := d]);
  }

  /** From a stopped state, every rule is as enabled as it was loaded. */
  lemma {:induction false} ResetFirstEnables(sys: System, w: World, n: nat)
    requires WellFormed(sys) && Fit(sys, w) && n <= |w.rules| && Idle(w)
    ensures AsLoaded(sys, ResetFirst(sys, w, n), n) && ResetFirst(sys, w, n).channels == w.channels
  {
    if n > 0 {
      var m := Before(n);
      ResetFirstEnables(sys, w, m);
      ResetOfIdle(sys, ResetFirst(sys, w, m), m, n);
    }
  }

  lemma ResetEnables(sys: System, w: World)
    requires WellFormed(sys) && Fit(sys, w) && Idle(w)
    ensures AsLoaded(sys, ResetAll(sys, w), |w.rules|) && ResetAll(sys, w).channels == w.channels
  {
    ResetFirstEnables(sys, w, |w.rules|);
  }

  /** Whatever the state, stopping everything leaves nothing running, ... */
  lemma {:induction false} ResetFirstStops(sys: System, w: World, n: nat)
    requires WellFormed(sys) && Fit(sys, w) && n <= |w.rules|
    ensures forall i :: 0 <= i < n ==>
              !ResetFirst(sys, w, n).rules[i].active && ResetFirst(sys, w, n).rules[i].start == EMPTY
  {
    if n > 0 {
      var m := Before(n);
      ResetFirstStops(sys, w, m);
    }
  }

  /** ... so that a second reset, as stopping and then starting makes, restores every rule. */
  lemma StopThenStartRestores(sys: System, w: World)
    requires WellFormed(sys) && Fit(sys, w)
    ensures AsLoaded(sys, ResetAll(sys, ResetAll(sys, w)), |w.rules|)
  {
    ResetFirstStops(sys, w, |w.rules|);
    ResetEnables(sys, ResetAll(sys, w));
  }

  // ----- While it sleeps

  /** The last step left no enabled rule in a period that is over, and `next` is the earliest
      change any of them expects. */
  predicate Rested(sys: System, r: Runner) {
    Settling(sys, r.world, r.lastStep) && r.next == NextUpdate(sys, r.world)
  }

  /** It is not yet time, and the alarm has not gone off since it was set. */
  predicate Watching(r: Runner, t: Timestamp) {
    r.lastStep <= r.current <= t < r.next && forall u: Timestamp :: r.current < u <= t ==> !Rings(r, u)
  }

  predicate Asleep(sys: System, r: Runner, t: Timestamp) {
    Rested(sys, r) && Watching(r, t)
  }

  /** The last step of the runner left no enabled rule in a period that is over. */
  predicate LeftCurrent(sys: System, r: Runner)
    requires |r.world.rules| == |sys.configs|
  {
    Current(sys, r.world, r.lastStep)
  }

  lemma StepNowRests(sys: System, w: World, now: Timestamp)
    requires WellFormed(sys) && Fit(sys, w) && Timely(sys.win, now) && LeftCurrent(sys, StepNow(sys, w, now))
    ensures Rested(sys, StepNow(sys, w, now)) && now < StepNow(sys, w, now).next
  {
    StepIsComplete(sys, w, now, Down);
    QuietUntilNext(sys, Step(sys, w, now, Down), now);
  }

  /** Starting ends asleep exactly if its last step leaves no enabled rule in a period that is
      over. */
  lemma StartFallsAsleepIff(sys: System, w: World, begin: Timestamp, now: Timestamp)
    requires WellFormed(sys) && Fit(sys, w) && Timely(sys.win, begin) && Timely(sys.win, now) && begin <= now
    ensures var r := Start(sys, w, begin, now); Asleep(sys, r, now) <==> LeftCurrent(sys, r)
  {
    var v := Step(sys, ResetAll(sys, w), begin, Up);
    StepNowRestsIff(sys, v, now);
  }

  lemma StepNowRestsIff(sys: System, v: World, now: Timestamp)
    requires WellFormed(sys) && Fit(sys, v) && Timely(sys.win, now)
    ensures var r := StepNow(sys, v, now); Asleep(sys, r, now) <==> LeftCurrent(sys, r)
  {
    if LeftCurrent(sys, StepNow(sys, v, now)) {
      StepNowRests(sys, v, now);
    }
  }

  /** It makes two steps, so that the second finds every first period begun. */
  lemma StartLeavesCurrent(sys: System, w: World, begin: Timestamp, now: Timestamp)
    requires WellFormed(sys) && Fit(sys, w) && Timely(sys.win, begin) && Timely(sys.win, now) && begin <= now
    requires ChildrenFresh(sys, now, now)
    ensures LeftCurrent(sys, Start(sys, w, begin, now))
  {
    var v := Step(sys, ResetAll(sys, w), begin, Up);
    StepIsComplete(sys, ResetAll(sys, w), begin, Up);
    CompleteIsBegun(sys, v, begin);
    StepStaysCurrent(sys, v, now, Down);
  }

  /** A sleeping timer waits for the soonest second at which an enabled rule changes, or its period is
      over, as seen from the last step: it is not woken for nothing. */
  lemma WaitsForAChange(sys: System, r: Runner, t: Timestamp)
    requires Asleep(sys, r, t)
    ensures r.next != EMPTY ==> exists i: nat :: ChangesNext(sys, r.world, i, r.lastStep, r.next)
    ensures forall i: nat, n: int :: ChangesNext(sys, r.world, i, r.lastStep, n) ==> r.next <= n
  {
    NextUpdateIsExact(sys, r.world, r.lastStep);
  }

  /** The alarm never comes too late. At the time of the next update it goes off. */
  lemma WokenOnTime(r: Runner, t: Timestamp, u: Timestamp)
    requires Watching(r, t) && u == t + 1
    ensures u <= r.next && (u == r.next ==> Rings(r, u))
  {
    if u == r.next {
      forall x: nat | r.current < x < r.next
        ensures !Matches(Armed(r.current, r.next), x)
      {
        assert !Rings(r, x);
      }
      GoesOffInTime(r.current, r.next);
    }
  }

  lemma AfterRests(sys: System, r: Runner, u: Timestamp, rings: bool)
    requires Rested(sys, r) && Timely(sys.win, u) && LeftCurrent(sys, After(sys, r, u, rings))
    ensures Rested(sys, After(sys, r, u, rings))
    ensures r.next <= u && rings ==> u < After(sys, r, u, rings).next
  {
    if r.next <= u && rings {
      StepNowRests(sys, r.world, u);
    }
  }

  lemma AfterWatches(sys: System, r: Runner, t: Timestamp, u: Timestamp, rings: bool)
    requires WellFormed(sys) && Fit(sys, r.world) && Timely(sys.win, u) && u == t + 1
    requires Watching(r, t) && (rings <==> Rings(r, u)) && (u == r.next ==> rings)
    requires r.next <= u && rings ==> u < After(sys, r, u, rings).next
    ensures Watching(After(sys, r, u, rings), u)
  {
  }

  /** Every second the runner stays asleep or falls asleep again, exactly if its last step left no
      enabled rule in a period that is over. */
  lemma SecondStaysAsleepIff(sys: System, r: Runner, t: Timestamp, u: Timestamp)
    requires Asleep(sys, r, t) && u == t + 1 && Timely(sys.win, u)
    ensures Asleep(sys, Second(sys, r, u), u) <==> LeftCurrent(sys, Second(sys, r, u))
  {
    if LeftCurrent(sys, Second(sys, r, u)) {
      WokenOnTime(r, t, u);
      AfterRests(sys, r, u, Rings(r, u));
      AfterWatches(sys, r, t, u, Rings(r, u));
    }
  }

  lemma AfterLeavesCurrent(sys: System, r: Runner, u: Timestamp, rings: bool)
    requires Rested(sys, r) && Timely(sys.win, u) && ChildrenFresh(sys, u, u)
    ensures LeftCurrent(sys, After(sys, r, u, rings))
  {
    if rings && u >= r.next {
      CompleteIsBegun(sys, r.world, r.lastStep);
      StepStaysCurrent(sys, r.world, u, Down);
    }
  }

  predicate LeftCurrentAt(sys: System, r: Runner, from: Timestamp, t: Timestamp)
    requires WellFormed(sys) && Fit(sys, r.world) && Timely(sys.win, from) && Timely(sys.win, t) && from <= t
  {
    LeftCurrent(sys, Sleep(sys, r, from, t))
  }

  predicate AsleepAt(sys: System, r: Runner, from: Timestamp, t: Timestamp)
    requires WellFormed(sys) && Fit(sys, r.world) && Timely(sys.win, from) && Timely(sys.win, t) && from <= t
  {
    Asleep(sys, Sleep(sys, r, from, t), t)
  }

  /** No step in this stretch of time leaves an enabled rule in a period that is over. */
  predicate NeverLate(sys: System, r: Runner, from: Timestamp, upTo: Timestamp)
    requires WellFormed(sys) && Fit(sys, r.world) && Timely(sys.win, from) && Timely(sys.win, upTo) && from <= upTo
  {
    forall t: Timestamp :: from <= t <= upTo ==> LeftCurrentAt(sys, r, from, t)
  }

  lemma NeverLateBeforeNext(sys: System, r: Runner, from: Timestamp, upTo: Timestamp)
    requires WellFormed(sys) && Fit(sys, r.world) && Timely(sys.win, from) && Timely(sys.win, upTo) && from <= upTo < r.next
    requires LeftCurrent(sys, r)
    ensures NeverLate(sys, r, from, upTo)
  {
    forall t: Timestamp | from <= t <= upTo
      ensures LeftCurrentAt(sys, r, from, t)
    {
      BeforeNext(sys, r, from, t);
    }
  }

  lemma {:induction false} StaysAsleep(sys: System, r: Runner, from: Timestamp, upTo: Timestamp)
    requires Asleep(sys, r, from) && Timely(sys.win, from) && Timely(sys.win, upTo) && from <= upTo
    requires NeverLate(sys, r, from, upTo)
    ensures Asleep(sys, Sleep(sys, r, from, upTo), upTo)
    decreases upTo
  {
    if from < upTo {
      var t := SecondBefore(upTo);
      StaysAsleep(sys, r, from, t);
      assert LeftCurrentAt(sys, r, from, upTo);
      SecondStaysAsleepIff(sys, Sleep(sys, r, from, t), t, upTo);
    }
  }

  /** However the timer is started, it is asleep at every second, with its alarm set for a next
      update that lies ahead, if and only if no step leaves an enabled rule in a period that is
      over. */
  lemma AsleepThroughoutIff(sys: System, w: World, begin: Timestamp, now: Timestamp, later: Timestamp)
    requires WellFormed(sys) && Fit(sys, w)
    requires Timely(sys.win, begin) && Timely(sys.win, now) && Timely(sys.win, later) && begin <= now <= later
    ensures var r := Start(sys, w, begin, now);
            NeverLate(sys, r, now, later) <==> forall t: Timestamp :: now <= t <= later ==> AsleepAt(sys, r, now, t)
  {
    var r := Start(sys, w, begin, now);
    StartFallsAsleepIff(sys, w, begin, now);
    if NeverLate(sys, r, now, later) {
      assert LeftCurrentAt(sys, r, now, now);
      forall t: Timestamp | now <= t <= later
        ensures AsleepAt(sys, r, now, t)
      {
        StaysAsleep(sys, r, now, t);
      }
    } else {
      var t: Timestamp :| now <= t <= later && !LeftCurrentAt(sys, r, now, t);
      assert !AsleepAt(sys, r, now, t);
    }
  }

  /** A condition that can be checked before the start: a given first period of a rule that others
      switch on is not over by then. */
  lemma {:induction false} FreshIsNeverLate(sys: System, r: Runner, from: Timestamp, upTo: Timestamp)
    requires Asleep(sys, r, from) && Timely(sys.win, from) && Timely(sys.win, upTo) && from <= upTo
    requires ChildrenFresh(sys, from, upTo)
    ensures NeverLate(sys, r, from, upTo)
    decreases upTo
  {
    if from < upTo {
      var t := SecondBefore(upTo);
      FreshIsNeverLate(sys, r, from, t);
      StaysAsleep(sys, r, from, t);
      var r' := Sleep(sys, r, from, t);
      AfterLeavesCurrent(sys, r', upTo, Rings(r', upTo));
      NeverLateOneMore(sys, r, from, t, upTo);
    } else {
      assert LeftCurrent(sys, r);
    }
  }

  lemma NeverLateOneMore(sys: System, r: Runner, from: Timestamp, t: Timestamp, upTo: Timestamp)
    requires WellFormed(sys) && Fit(sys, r.world) && Timely(sys.win, from) && Timely(sys.win, upTo)
    requires from <= t && upTo == t + 1 && Timely(sys.win, t) && NeverLate(sys, r, from, t)
    requires LeftCurrentAt(sys, r, from, upTo)
    ensures NeverLate(sys, r, from, upTo)
  {
    forall x: Timestamp | from <= x <= upTo
      ensures LeftCurrentAt(sys, r, from, x)
    {
      assert x != upTo ==> x <= t;
    }
  }

  lemma FreshStartIsNeverLate(sys: System, w: World, begin: Timestamp, now: Timestamp, later: Timestamp)
    requires WellFormed(sys) && Fit(sys, w)
    requires Timely(sys.win, begin) && Timely(sys.win, now) && Timely(sys.win, later) && begin <= now <= later
    requires ChildrenFresh(sys, now, later)
    ensures NeverLate(sys, Start(sys, w, begin, now), now, later)
  {
    StartLeavesCurrent(sys, w, begin, now);
    StartFallsAsleepIff(sys, w, begin, now);
    FreshIsNeverLate(sys, Start(sys, w, begin, now), now, later);
  }

  // ----- Sleeping is polling

  lemma MatchingBothWays(sys: System, u: World, v: World, w: World, now: Timestamp)
    requires Matching(sys, u, v, now) && Matching(sys, u, w, now)
    ensures Matching(sys, v, w, now)
  {
    forall i | 0 <= i < |u.rules|
      ensures Alike(sys, i, Cleared(v).rules[i], Cleared(w).rules[i], now)
    {
      assert Alike(sys, i, Cleared(u).rules[i], Cleared(v).rules[i], now);
      assert Alike(sys, i, Cleared(u).rules[i], Cleared(w).rules[i], now);
    }
  }

  /** A step of the simple timer at a time when the sleeping one does not step. */
  lemma QuietSecond(sys: System, w: World, v: World, t: Timestamp, now: Timestamp)
    requires Settling(sys, w, t) && t <= now < NextUpdate(sys, w)
    requires Fit(sys, v) && Matching(sys, w, v, now)
    ensures Matching(sys, w, Step(sys, v, now, Down), now)
  {
    QuietUntilNext(sys, w, t);
    QuietStep(sys, w, now, Down);
    StepAgrees(sys, w, v, now, Down);
    MatchingBothWays(sys, Step(sys, w, now, Down), w, Step(sys, v, now, Down), now);
  }

  lemma AfterAgrees(sys: System, r: Runner, v: World, now: Timestamp, rings: bool)
    requires Rested(sys, r) && r.lastStep <= now <= r.next && (now == r.next ==> rings)
    requires Fit(sys, v) && Matching(sys, r.world, v, now)
    ensures Matching(sys, After(sys, r, now, rings).world, Step(sys, v, now, Down), now)
  {
    if now == r.next {
      StepAgrees(sys, r.world, v, now, Down);
    } else {
      QuietSecond(sys, r.world, v, r.lastStep, now);
    }
  }

  lemma SecondAgrees(sys: System, r: Runner, v: World, t: Timestamp, u: Timestamp)
    requires Asleep(sys, r, t) && u == t + 1 && Timely(sys.win, u) && Fit(sys, v)
    requires Matching(sys, r.world, v, t)
    ensures Matching(sys, Second(sys, r, u).world, Step(sys, v, u, Down), u)
  {
    MatchingLater(sys, r.world, v, t, u);
    WokenOnTime(r, t, u);
    AfterAgrees(sys, r, v, u, Rings(r, u));
  }

  lemma MatchesItself(sys: System, w: World, now: Timestamp)
    requires WellFormed(sys) && Fit(sys, w) && Timely(sys.win, now)
    ensures Matching(sys, w, w, now)
  {
    assert forall i :: 0 <= i < |w.rules| ==> Alike(sys, i, w.rules[i], w.rules[i], now);
    JoinedIsMatching(sys, w, w, now);
  }

  lemma {:induction false} SleepingAgrees(sys: System, r: Runner, from: Timestamp, upTo: Timestamp)
    requires Asleep(sys, r, from) && Timely(sys.win, from) && Timely(sys.win, upTo) && from <= upTo
    requires NeverLate(sys, r, from, upTo)
    ensures Asleep(sys, Sleep(sys, r, from, upTo), upTo)
    ensures Matching(sys, Sleep(sys, r, from, upTo).world, Poll(sys, r.world, from, upTo), upTo)
    decreases upTo
  {
    if from == upTo {
      MatchesItself(sys, r.world, from);
    } else {
      var t := SecondBefore(upTo);
      var r', v := Sleep(sys, r, from, t), Poll(sys, r.world, from, t);
      SleepingAgrees(sys, r, from, t);
      assert LeftCurrentAt(sys, r, from, upTo);
      SecondStaysAsleepIff(sys, r', t, upTo);
      SecondAgrees(sys, r', v, t, upTo);
    }
  }

  /** Rules that others switch on need no checking when they have no given first period and their
      period is infinite or no shorter than the unit it is aligned to. */
  lemma UngivenStartsAreFresh(sys: System, from: Timestamp, upTo: Timestamp)
    requires WellFormed(sys) && Timely(sys.win, from) && Timely(sys.win, upTo)
    requires forall i :: 0 <= i < |sys.configs| && HasParent(sys, i) ==>
               var s := sys.configs[i].schedule;
               s.first == EMPTY && (s.period.Fixed? ==> s.period.seconds >= UnitSeconds(s.kind))
    ensures ChildrenFresh(sys, from, upTo)
  {
    forall i, t: Timestamp | 0 <= i < |sys.configs| && HasParent(sys, i) && from <= t <= upTo
      ensures FreshStart(sys.configs[i].schedule, t)
    {
      AlignedStartIsFresh(sys.configs[i].schedule, sys.win, t);
    }
  }

  /** What can be seen from outside, and which rules are switched on. */
  predicate SameOutputs(w: World, v: World) {
    && w.channels == v.channels && |w.rules| == |v.rules|
    && forall i :: 0 <= i < |w.rules| ==> w.rules[i].enabled == v.rules[i].enabled && w.rules[i].active == v.rules[i].active
  }

  /** Sleeping equals polling. However the timer was started, as long as no step leaves an enabled
      rule in a period that is over, its channels, actions and enabled rules are at every second
      those of a timer that looks at every rule every second, and the action of every enabled rule
      runs exactly when one of its intervals says so. */
  lemma SleepingIsPolling(sys: System, w: World, begin: Timestamp, now: Timestamp, later: Timestamp)
    requires WellFormed(sys) && Fit(sys, w)
    requires Timely(sys.win, begin) && Timely(sys.win, now) && Timely(sys.win, later) && begin <= now <= later
    requires NeverLate(sys, Start(sys, w, begin, now), now, later)
    ensures var r := Start(sys, w, begin, now);
            var asleep := Sleep(sys, r, now, later).world;
            SameOutputs(asleep, Poll(sys, r.world, now, later)) && AllQuiet(sys, asleep, later)
  {
    var r := Start(sys, w, begin, now);
    assert LeftCurrentAt(sys, r, now, now);
    StartFallsAsleepIff(sys, w, begin, now);
    SleepingAgrees(sys, r, now, later);
    var r', v := Sleep(sys, r, now, later), Poll(sys, r.world, now, later);
    QuietUntilNext(sys, r'.world, r'.lastStep);
    forall i | 0 <= i < |v.rules|
      ensures r'.world.rules[i].enabled == v.rules[i].enabled && r'.world.rules[i].active == v.rules[i].active
    {
      assert Alike(sys, i, Cleared(r'.world).rules[i], Cleared(v).rules[i], later);
    }
  }
}
