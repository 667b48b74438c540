/** Channel rules that no other rule switches: when their channels are on, in terms of the schedule
    alone. */
module LoneRules {
  import opened Calendar
  import opened Periods
  import opened RuleTime
  import opened Network
  import opened Stepping
  import opened Steps
  import opened Islands
  import opened Quiet
  import opened Device
  import opened Outputs
  import opened Resetting
  import opened SwitchingOff

  predicate Lone(sys: System, i: nat) {
    WellFormed(sys) && i < |sys.configs| && sys.configs[i].target.Channel? && Parents(sys, i) == []
  }

  lemma LoneIsIsland(sys: System, i: nat)
    requires Lone(sys, i)
    ensures Island(sys, {i})
  {
    forall j | 0 <= j < |sys.configs| && sys.configs[j].target.ActivatesRule?
      ensures sys.configs[j].target.rule != i
    {
      assert j !in Parents(sys, i);
    }
  }

  // ----- One step

  lemma LoneUpdated(sys: System, u: World, i: nat, now: Timestamp)
    requires Good(sys, u, now) && Lone(sys, i) && i < |u.rules| && !u.rules[i].hasRun
    ensures var r, d := Update(sys, u, i, now).rules[i], u.rules[i];
            r.enabled == d.enabled && if d.enabled then r.start == NewStart(sys, i, d, now) else r == d
  {
    if u.rules[i].enabled {
      UpdateWithoutParents(sys, u, i, now);
      ChannelEvaluated(sys, u, i, now);
    }
  }

  /** A step keeps the enabling of a lone rule, and its action too if it is disabled. */
  lemma LoneStep(sys: System, w: World, i: nat, now: Timestamp, d: Direction)
    requires Fit(sys, w) && Timely(sys.win, now) && Lone(sys, i)
    ensures var r, e := Step(sys, w, now, d).rules[i], w.rules[i];
            r.enabled == e.enabled && if e.enabled then r.start == NewStart(sys, i, e, now) else r.active == e.active
  {
    var c, n := Cleared(w), |w.rules|;
    var k := Position(n, d, i);
    LoneIsIsland(sys, i);
    var u := OneOfIsland(sys, c, Indices(n, d), k, now, {i});
    assert u.rules[i] == c.rules[i];
    LoneUpdated(sys, u, i, now);
  }

  // ----- A run

  /** Whether the schedule, begun at `origin`, has the action running at time t. */
  predicate OnSchedule(s: Schedule, origin: int, t: Timestamp) {
    match s.period
    case Infinite => exists o :: o in s.intervals && o.start <= t - origin < o.end
    case Fixed(p) => p > 0 && origin <= t && exists o :: o in s.intervals && o.start <= (t - origin) % p < o.end
  }

  /** Counting periods from either start comes to the same, from time t on. */
  predicate SamePeriods(s: Schedule, win: Window, start: Timestamp, origin: Timestamp, t: Timestamp) {
    forall x: Timestamp :: t <= x && Timely(win, x) ==> Tick(s, start, x) == Tick(s, origin, x)
  }

  /** Rule i is as enabled as it was loaded. If it is, it is in a period counted from `origin`. */
  predicate OnTrack(sys: System, w: World, i: nat, origin: Timestamp, t: Timestamp) {
    && Lone(sys, i) && Fit(sys, w) && w.rules[i].enabled == sys.configs[i].enabledOnStart
    && if !w.rules[i].enabled then !w.rules[i].active
       else w.rules[i].start != EMPTY && SamePeriods(sys.configs[i].schedule, sys.win, w.rules[i].start, origin, t)
  }

  lemma CountingOn(sys: System, i: nat, d: Dyn, origin: Timestamp, t: Timestamp, now: Timestamp)
    requires WellFormed(sys) && i < |sys.configs| && DynOk(sys, i, d) && Timely(sys.win, now) && t <= now && d.start != EMPTY
    requires SamePeriods(sys.configs[i].schedule, sys.win, d.start, origin, t)
    ensures SamePeriods(sys.configs[i].schedule, sys.win, NewStart(sys, i, d, now), origin, now)
  {
    var s := sys.configs[i].schedule;
    forall x: Timestamp | now <= x && Timely(sys.win, x)
      ensures Tick(s, NewStart(sys, i, d, now), x) == Tick(s, origin, x)
    {
      TickTwice(s, sys.win, d.start, now, x);
    }
  }

  lemma StepOnTrack(sys: System, w: World, i: nat, origin: Timestamp, t: Timestamp, now: Timestamp, d: Direction)
    requires OnTrack(sys, w, i, origin, t) && Timely(sys.win, now) && t <= now
    ensures OnTrack(sys, Step(sys, w, now, d), i, origin, now)
  {
    LoneStep(sys, w, i, now, d);
    if w.rules[i].enabled {
      CountingOn(sys, i, w.rules[i], origin, t, now);
    }
  }

  /** The first step sets the origin. */
  lemma FirstStepOnTrack(sys: System, w: World, i: nat, begin: Timestamp)
    requires Lone(sys, i) && Fit(sys, w) && Timely(sys.win, begin)
    ensures 0 <= InitialStart(sys.configs[i].schedule, begin) < EMPTY
    ensures OnTrack(sys, Step(sys, ResetAll(sys, w), begin, Up), i, InitialStart(sys.configs[i].schedule, begin), begin)
  {
    TickInWindow(sys.configs[i].schedule, sys.win, EMPTY, begin);
    ResetRestoresParentless(sys, w, i);
    ResetFirstStops(sys, w, |w.rules|);
    LoneStep(sys, ResetAll(sys, w), i, begin, Up);
  }

  lemma WakeUpOnTrack(sys: System, r: Runner, i: nat, origin: Timestamp, t: Timestamp, now: Timestamp)
    requires OnTrack(sys, r.world, i, origin, t) && Timely(sys.win, now) && t <= now
    ensures OnTrack(sys, WakeUp(sys, r, now).world, i, origin, now)
  {
    if now >= r.next {
      StepOnTrack(sys, r.world, i, origin, t, now, Down);
    }
  }

  lemma {:induction false} SleepOnTrack(sys: System, r: Runner, i: nat, origin: Timestamp, from: Timestamp, upTo: Timestamp)
    requires OnTrack(sys, r.world, i, origin, from) && Timely(sys.win, from) && Timely(sys.win, upTo) && from <= upTo
    ensures OnTrack(sys, Sleep(sys, r, from, upTo).world, i, origin, upTo)
    decreases upTo
  {
    if from < upTo {
      var t := SecondBefore(upTo);
      var r' := Sleep(sys, r, from, t);
      SleepOnTrack(sys, r, i, origin, from, t);
      if Rings(r', upTo) {
        WakeUpOnTrack(sys, r', i, origin, t, upTo);
      }
    }
  }

  // ----- The channel

  lemma DueIsOnSchedule(sys: System, i: nat, d: Dyn, origin: Timestamp, t: Timestamp)
    requires WellFormed(sys) && i < |sys.configs| && Timely(sys.win, t)
    requires In(sys.win, origin) && d.start != EMPTY && origin != EMPTY
    requires sys.configs[i].schedule.first == EMPTY || sys.configs[i].schedule.first <= origin
    requires SamePeriods(sys.configs[i].schedule, sys.win, d.start, origin, t)
    ensures Due(sys, i, d, t) <==> OnSchedule(sys.configs[i].schedule, origin, t)
  {
    var s := sys.configs[i].schedule;
    TickInWindow(s, sys.win, origin, t);
    if s.period.Fixed? && origin <= t {
      ActiveModuloPeriod(s, sys.win, origin, t);
    } else {
      ActiveInWindow(s, sys.win, origin, t);
    }
  }

  /** At every second after the start, although the device sleeps in between, the channel of a lone
      rule is in the state for a running action exactly if the rule was loaded as enabled and its
      schedule, begun at the starting time, has an interval there. */
  lemma ChannelIsSchedule(sys: System, w: World, begin: Timestamp, now: Timestamp, later: Timestamp, i: nat, c: nat)
    requires Accounted(sys, w, i, c) && Parents(sys, i) == []
    requires Timely(sys.win, begin) && Timely(sys.win, now) && Timely(sys.win, later) && begin <= now <= later
    requires NeverLate(sys, Start(sys, w, begin, now), now, later)
    ensures var s := sys.configs[i].schedule;
            Sleep(sys, Start(sys, w, begin, now), now, later).world.channels[c]
            == StateWhile(sys, i, sys.configs[i].enabledOnStart && OnSchedule(s, InitialStart(s, begin), later))
  {
    ActionIsSchedule(sys, w, begin, now, later, i);
    StartFollows(sys, w, begin, now, i, c);
    SleepFollows(sys, Start(sys, w, begin, now), now, later, i, c);
  }

  /** The same from whichever time the first period begins at. */
  lemma ChannelFromOrigin(sys: System, w: World, begin: Timestamp, now: Timestamp, later: Timestamp, i: nat, c: nat,
                          origin: Timestamp)
    requires Accounted(sys, w, i, c) && Parents(sys, i) == [] && BeginsAt(sys.configs[i].schedule, begin, origin)
    requires Timely(sys.win, begin) && Timely(sys.win, now) && Timely(sys.win, later) && begin <= now <= later
    requires NeverLate(sys, Start(sys, w, begin, now), now, later)
    ensures Sleep(sys, Start(sys, w, begin, now), now, later).world.channels[c]
            == StateWhile(sys, i, sys.configs[i].enabledOnStart && OnSchedule(sys.configs[i].schedule, origin, later))
  {
    var s := sys.configs[i].schedule;
    InitialBeginsAt(s, begin);
    BeginsAtIsUnique(s, begin, origin, InitialStart(s, begin));
    ChannelIsSchedule(sys, w, begin, now, later, i, c);
  }

  /** Whatever state the channel was in at the start, it follows the schedule from the first second on
      at which the action runs. */
  lemma ChannelOnceRun(sys: System, w: World, begin: Timestamp, now: Timestamp, t: Timestamp, later: Timestamp, i: nat, c: nat)
    requires WellFormed(sys) && Fit(sys, w) && Drives(sys, i, c) && Parents(sys, i) == [] && sys.configs[i].enabledOnStart
    requires Timely(sys.win, begin) && Timely(sys.win, now) && Timely(sys.win, t) && Timely(sys.win, later)
    requires begin <= now <= t <= later && OnSchedule(sys.configs[i].schedule, InitialStart(sys.configs[i].schedule, begin), t)
    requires NeverLate(sys, Start(sys, w, begin, now), now, later)
    ensures var s := sys.configs[i].schedule;
            Sleep(sys, Start(sys, w, begin, now), now, later).world.channels[c]
            == StateWhile(sys, i, OnSchedule(s, InitialStart(s, begin), later))
  {
    var r := Start(sys, w, begin, now);
    StartSettles(sys, w, begin, now, i, c);
    SleepSettles(sys, r, now, t, i, c, ChannelAtReset(sys, w, i, c));
    ActionIsSchedule(sys, w, begin, now, t, i);
    ActionIsSchedule(sys, w, begin, now, later, i);
    SleepFollows(sys, Sleep(sys, r, now, t), t, later, i, c);
    SleepOnward(sys, r, now, t, later);
  }

  /** The action of a lone rule at every second after the start. */
  lemma ActionIsSchedule(sys: System, w: World, begin: Timestamp, now: Timestamp, later: Timestamp, i: nat)
    requires WellFormed(sys) && Fit(sys, w) && Lone(sys, i)
    requires Timely(sys.win, begin) && Timely(sys.win, now) && Timely(sys.win, later) && begin <= now <= later
    requires NeverLate(sys, Start(sys, w, begin, now), now, later)
    ensures var s := sys.configs[i].schedule;
            Sleep(sys, Start(sys, w, begin, now), now, later).world.rules[i].active
            == (sys.configs[i].enabledOnStart && OnSchedule(s, InitialStart(s, begin), later))
  {
    var s := sys.configs[i].schedule;
    var origin, r := InitialStart(s, begin), Start(sys, w, begin, now);
    FirstStepOnTrack(sys, w, i, begin);
    InitialInWindow(s, sys.win, begin);
    WakeUpOnTrack(sys, Runner(Step(sys, ResetAll(sys, w), begin, Up), begin, begin, begin), i, origin, begin, now);
    SleepOnTrack(sys, r, i, origin, now, later);
    SleepingIsPolling(sys, w, begin, now, later);
    var v := Sleep(sys, r, now, later).world;
    if v.rules[i].enabled {
      assert RuleQuiet(sys, i, v.rules[i], later);
      QuietIsDue(sys, i, v.rules[i], later);
      DueIsOnSchedule(sys, i, v.rules[i], origin, later);
    }
  }

  /** The rule that toggles a channel every second has it on at every second one, from the start. */
  lemma ToggleToggles(begin: Timestamp, now: Timestamp, later: Timestamp)
    requires Timely(ToggleSystem().win, later) && begin <= now <= later
    ensures WellFormed(ToggleSystem()) && Fit(ToggleSystem(), ToggleWorld())
    ensures Timely(ToggleSystem().win, begin) && Timely(ToggleSystem().win, now)
    ensures Sleep(ToggleSystem(), Start(ToggleSystem(), ToggleWorld(), begin, now), now, later).world.channels[0]
       <==> (later - begin) % 2 == 0
  {
    var sys := ToggleSystem();
    ToggleIsCovered();
    NoRuleTogglesIt();
    ToggleSchedule(begin, later);
    FreshStartIsNeverLate(sys, ToggleWorld(), begin, now, later);
    ChannelIsSchedule(sys, ToggleWorld(), begin, now, later, 0, 0);
  }

  lemma NoRuleTogglesIt()
    ensures Parents(ToggleSystem(), 0) == []
  {
    OneMoreParent(ToggleSystem(), 0, 0, 1);
  }

  lemma ToggleSchedule(begin: Timestamp, later: Timestamp)
    requires begin <= later
    ensures var s := ToggleSystem().configs[0].schedule;
            OnSchedule(s, InitialStart(s, begin), later) <==> (later - begin) % 2 == 0
  {
    var s := ToggleSystem().configs[0].schedule;
    assert s.intervals[0] in s.intervals;
  }

  /** A single rule with a period that never ends, and with one interval. The longest field of such a
      period is its years. */
  function OnceSystem(first: Timestamp, o: Offsets): System {
    System([Config(Schedule(Infinite, Years, [o], first), true, true, Channel(0))], [0], 1, Window(-ONE_WEEK, 0x7000_0000))
  }

  lemma OnceIsLone(first: Timestamp, o: Offsets)
    requires first <= 0x7000_0000 || first == EMPTY
    requires 0 <= o.start <= 0x0800_0000 && 0 <= o.end <= 0x0800_0000
    ensures Accounted(OnceSystem(first, o), ToggleWorld(), 0, 0) && Parents(OnceSystem(first, o), 0) == []
  {
    var sys := OnceSystem(first, o);
    OneMoreParent(sys, 0, 0, 1);
    assert ParentsBelow(sys, 0, 0) == [] && !IsParent(sys, 0, 0);
    assert TargetOk(sys, 0);
    assert Fits(sys.configs[0].schedule, sys.win);
  }

  /** It has its channel on once: in that interval, counted from the given start if there is one, even
      one that is over, and else from the starting time. */
  lemma OnlyOnce(first: Timestamp, o: Offsets, begin: Timestamp, now: Timestamp, later: Timestamp)
    requires first <= 0x7000_0000 || first == EMPTY
    requires 0 <= o.start <= 0x0800_0000 && 0 <= o.end <= 0x0800_0000
    requires begin <= now <= later && Timely(OnceSystem(first, o).win, later)
    ensures WellFormed(OnceSystem(first, o)) && Fit(OnceSystem(first, o), ToggleWorld())
    ensures Timely(OnceSystem(first, o).win, begin) && Timely(OnceSystem(first, o).win, now)
    ensures Sleep(OnceSystem(first, o), Start(OnceSystem(first, o), ToggleWorld(), begin, now), now, later).world.channels[0]
       <==> o.start <= later - (if first == EMPTY then begin else first) < o.end
  {
    var sys, origin := OnceSystem(first, o), if first == EMPTY then begin else first;
    OnceIsLone(first, o);
    assert forall c :: c in sys.configs[0].schedule.intervals <==> c == o;
    FreshStartIsNeverLate(sys, ToggleWorld(), begin, now, later);
    ChannelFromOrigin(sys, ToggleWorld(), begin, now, later, 0, 0, origin);
  }

  // ----- A channel that is off while its action runs

  /** On except for ten seconds, from ten seconds after the start. */
  function InvertedSystem(): System {
    System([Config(InvertedSchedule(), true, false, Channel(0))], [0], 1, Window(-ONE_WEEK, 0x7000_0000))
  }

  function InvertedSchedule(): Schedule {
    Schedule(Infinite, Seconds, [Offsets(10, 20)], EMPTY)
  }

  lemma InvertedIsLone()
    ensures Lone(InvertedSystem(), 0) && Drives(InvertedSystem(), 0, 0)
    ensures Fit(InvertedSystem(), ToggleWorld())
  {
    OneMoreParent(InvertedSystem(), 0, 0, 1);
    InvertedFits();
    assert TargetOk(InvertedSystem(), 0);
  }

  lemma InvertedFits()
    ensures Fits(InvertedSchedule(), InvertedSystem().win)
    ensures forall t: Timestamp :: ActiveAt(InvertedSchedule(), 1000, t) <==> 1010 <= t < 1020
  {
    var s := InvertedSchedule();
    forall t: Timestamp
      ensures ActiveAt(s, 1000, t) <==> 1010 <= t < 1020
    {
      assert s.intervals[0] in s.intervals;
      ActiveInWindow(s, InvertedSystem().win, 1000, t);
    }
  }

  /** An idle look at an idle rule touches no channel. */
  lemma IdleLook(sys: System, u: World, i: nat, now: Timestamp)
    requires Good(sys, u, now) && Lone(sys, i) && i < |u.rules| && !u.rules[i].active && !DueNow(sys, i, u.rules[i], now)
    ensures Update(sys, u, i, now).channels == u.channels
  {
    if NotYetRun(u.rules[i]) {
      UpdateWithoutParents(sys, u, i, now);
      LoggedStaysGood(sys, u, u, i, now);
      IdlePlainly(sys, Logged(sys, u, i), i, now);
    }
  }

  lemma IdlePlainly(sys: System, u: World, i: nat, now: Timestamp)
    requires Good(sys, u, now) && Lone(sys, i) && i < |u.rules| && !u.rules[i].active && !DueNow(sys, i, u.rules[i], now)
    ensures EvaluatePlainly(sys, u, i, now).channels == u.channels
  {
  }

  lemma IdleStep(w: World, d: Direction)
    requires WellFormed(InvertedSystem()) && Fit(InvertedSystem(), w)
    requires w.rules[0].enabled && !w.rules[0].active && (w.rules[0].start == EMPTY || w.rules[0].start == 1000)
    ensures var r := Step(InvertedSystem(), w, 1000, d);
            r.channels == w.channels && r.rules[0].enabled && !r.rules[0].active && r.rules[0].start == 1000
  {
    var sys, c := InvertedSystem(), Cleared(w);
    InvertedIsLone();
    InvertedFits();
    assert Indices(1, d)[0] == 0;
    assert UpdateEach(sys, c, Indices(1, d), 0, 1000) == c;
    OneUpdated(sys, c, Indices(1, d), 0, 1, 1000);
    IdleLook(sys, c, 0, 1000);
    LoneUpdated(sys, c, 0, 1000);
    StepIsComplete(sys, w, 1000, d);
  }

  /** When the board boots, such a channel is off although its action does not run, and stays so until
      the action has run once. */
  lemma InvertedStartsOff()
    ensures WellFormed(InvertedSystem()) && Fit(InvertedSystem(), ToggleWorld())
    ensures var r := Start(InvertedSystem(), ToggleWorld(), 1000, 1000).world;
            !r.rules[0].active && !r.channels[0] && StateWhile(InvertedSystem(), 0, false)
  {
    var sys, w := InvertedSystem(), ToggleWorld();
    InvertedIsLone();
    ResetEnables(sys, w);
    var u := ResetAll(sys, w);
    IdleStep(u, Up);
    IdleStep(Step(sys, u, 1000, Up), Down);
  }
}
