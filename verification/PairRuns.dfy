/** A rule and its only parent over a whole run: the channel of the rule, in terms of the two
    schedules alone. */
module PairRuns {
  import opened Calendar
  import opened Periods
  import opened RuleTime
  import opened Network
  import opened Steps
  import opened Device
  import opened Outputs
  import opened Resetting
  import opened SwitchingOff
  import opened LoneRules

  // ----- The two schedules

  /** The parent's action runs. */
  predicate ParentOn(sys: System, p: nat, origin: Timestamp, t: Timestamp)
    requires p < |sys.configs|
  {
    sys.configs[p].enabledOnStart && OnSchedule(sys.configs[p].schedule, origin, t)
  }

  /** Whether the rule is switched on, whether its action runs, and the start its periods are counted
      from. */
  datatype Child = Child(on: bool, running: bool, origin: Timestamp)

  /** What becomes of the rule from one look to the next, at which its parent runs or not.
      - When the parent starts, the rule is switched on and begins its periods. If it was on and is
        updated first, it is looked at twice.
      - When the parent stops, the rule is switched off. If it is updated first, its action may run
        on.
      - Otherwise it follows its own schedule while it is on, and stays as it is while it is off. */
  function NextChild(s: Schedule, c: Child, was: bool, on: bool, t: Timestamp, ruleFirst: bool): Child {
    if on && !was then
      var origin := InitialStart(s, t);
      Child(true, if ruleFirst && c.on then OnSchedule(s, origin, t) else ActiveAt(s, origin, t), origin)
    else if was && !on then Child(false, ruleFirst && c.on && OnSchedule(s, c.origin, t), c.origin)
    else if c.on then c.(running := OnSchedule(s, c.origin, t))
    else c
  }

  /** The rule after the first look, at which its parent starts or not, and if it does still runs at a
      second look or not. */
  function FirstChild(s: Schedule, loaded: bool, starts: bool, on: bool, t: Timestamp, ruleFirst: bool): Child {
    var origin := InitialStart(s, t);
    if starts then Child(on, if ruleFirst && loaded then OnSchedule(s, origin, t) else ActiveAt(s, origin, t), origin)
    else Child(loaded, loaded && ActiveAt(s, origin, t), origin)
  }

  /** The parent starts at the first look, which takes the first period even if that is over. */
  predicate ParentStarts(sys: System, p: nat, begin: Timestamp)
    requires p < |sys.configs|
  {
    var s := sys.configs[p].schedule;
    sys.configs[p].enabledOnStart && ActiveAt(s, InitialStart(s, begin), begin)
  }

  predicate ParentStarted(sys: System, p: nat, begin: Timestamp)
    requires p < |sys.configs|
  {
    ParentStarts(sys, p, begin) && ParentOn(sys, p, InitialStart(sys.configs[p].schedule, begin), begin)
  }

  /** The rule at a second of a run that began at `from` with c. */
  function ChildAt(sys: System, p: nat, i: nat, origin: Timestamp, c: Child, from: Timestamp, t: Timestamp): Child
    requires p < |sys.configs| && i < |sys.configs| && from <= t
    decreases t
  {
    if from == t then c
    else
      var u := SecondBefore(t);
      NextChild(sys.configs[i].schedule, ChildAt(sys, p, i, origin, c, from, u),
                ParentOn(sys, p, origin, u), ParentOn(sys, p, origin, t), t, ComesFirst(Down, i, p))
  }

  /** The rule after a start, which makes two steps. */
  function ChildStarted(sys: System, p: nat, i: nat, loaded: bool, begin: Timestamp, now: Timestamp): Child
    requires p < |sys.configs| && i < |sys.configs|
  {
    var s, origin := sys.configs[i].schedule, InitialStart(sys.configs[p].schedule, begin);
    var was := ParentStarted(sys, p, begin);
    NextChild(s, FirstChild(s, loaded, ParentStarts(sys, p, begin), was, begin, ComesFirst(Up, i, p)),
              was, ParentOn(sys, p, origin, now), now, ComesFirst(Down, i, p))
  }

  // ----- One look

  predicate OriginOk(sys: System, j: nat, origin: Timestamp)
    requires j < |sys.configs|
  {
    var s := sys.configs[j].schedule;
    In(sys.win, origin) && origin != EMPTY && (s.first == EMPTY || s.first <= origin)
  }

  predicate Counting(sys: System, j: nat, start: Timestamp, origin: Timestamp, t: Timestamp)
    requires j < |sys.configs|
  {
    start != EMPTY && OriginOk(sys, j, origin) && SamePeriods(sys.configs[j].schedule, sys.win, start, origin, t)
  }

  lemma LookCounts(sys: System, j: nat, d: Dyn, origin: Timestamp, t: Timestamp, now: Timestamp)
    requires WellFormed(sys) && j < |sys.configs| && DynOk(sys, j, d) && Timely(sys.win, now) && t <= now
    requires Counting(sys, j, d.start, origin, t)
    ensures Counting(sys, j, NewStart(sys, j, d, now), origin, now)
    ensures DueNow(sys, j, d, now) <==> OnSchedule(sys.configs[j].schedule, origin, now)
  {
    CountingOn(sys, j, d, origin, t, now);
    DueIsOnSchedule(sys, j, d, origin, now);
  }

  lemma FirstLookCounts(sys: System, j: nat, d: Dyn, now: Timestamp)
    requires WellFormed(sys) && j < |sys.configs| && DynOk(sys, j, d) && Timely(sys.win, now) && d.start == EMPTY
    ensures var origin := InitialStart(sys.configs[j].schedule, now);
            NewStart(sys, j, d, now) == origin && Counting(sys, j, origin, origin, now)
  {
    InitialInWindow(sys.configs[j].schedule, sys.win, now);
  }

  // ----- The parent

  predicate ParentTrack(sys: System, p: nat, d: Dyn, origin: Timestamp, t: Timestamp, was: bool)
    requires p < |sys.configs|
  {
    && d.enabled == sys.configs[p].enabledOnStart && d.active == was && (was ==> d.enabled)
    && (d.enabled ==> Counting(sys, p, d.start, origin, t))
  }

  /** No interval runs before a given first period. */
  lemma NoEarlyStart(sys: System, p: nat, d: Dyn, now: Timestamp)
    requires WellFormed(sys) && p < |sys.configs| && DynOk(sys, p, d) && Timely(sys.win, now)
    requires d.start != EMPTY && DueNow(sys, p, d, now)
    ensures !StopsFirst(sys.configs[p].schedule, d, now)
  {
    ActiveNotBefore(sys.configs[p].schedule, sys.win, NewStart(sys, p, d, now), now);
  }

  lemma ParentSteps(sys: System, p: nat, d: Dyn, origin: Timestamp, t: Timestamp, now: Timestamp, was: bool)
    requires WellFormed(sys) && p < |sys.configs| && DynOk(sys, p, d) && Timely(sys.win, now) && t <= now
    requires ParentTrack(sys, p, d, origin, t, was)
    ensures ParentTrack(sys, p, ParentAfter(sys, p, d, now), origin, now, ParentOn(sys, p, origin, now))
    ensures Begins(sys, p, d, now) <==> ParentOn(sys, p, origin, now) && !was
    ensures Ends(sys, p, d, now) <==> was && !ParentOn(sys, p, origin, now)
    ensures Begins(sys, p, d, now) ==> ParentAfter(sys, p, d, now).active
  {
    if d.enabled {
      LookCounts(sys, p, d, origin, t, now);
      LookTwice(sys, p, d, now);
      if DueNow(sys, p, d, now) {
        NoEarlyStart(sys, p, d, now);
      }
    }
  }

  lemma ParentFirstLook(sys: System, p: nat, d: Dyn, begin: Timestamp)
    requires WellFormed(sys) && p < |sys.configs| && DynOk(sys, p, d) && Timely(sys.win, begin)
    requires d.enabled == sys.configs[p].enabledOnStart && d.start == EMPTY && !d.active
    ensures var origin := InitialStart(sys.configs[p].schedule, begin);
            && ParentTrack(sys, p, ParentAfter(sys, p, d, begin), origin, begin, ParentStarted(sys, p, begin))
            && (Begins(sys, p, d, begin) <==> ParentStarts(sys, p, begin)) && !Ends(sys, p, d, begin)
  {
    var e := Looked(sys, p, d, begin);
    FirstLookCounts(sys, p, d, begin);
    LookCounts(sys, p, e, e.start, begin, begin);
  }

  // ----- The rule

  predicate ChildTrack(sys: System, i: nat, e: Dyn, c: Child, t: Timestamp)
    requires i < |sys.configs|
  {
    e.enabled == c.on && e.active == c.running && (c.on ==> Counting(sys, i, e.start, c.origin, t))
  }

  /** A look at the rule while it is on, or just switched off. */
  lemma ChildLooked(sys: System, i: nat, e: Dyn, origin: Timestamp, t: Timestamp, now: Timestamp)
    requires WellFormed(sys) && i < |sys.configs| && DynOk(sys, i, e) && Timely(sys.win, now) && t <= now
    requires Counting(sys, i, e.start, origin, t)
    ensures var s := sys.configs[i].schedule;
            ChildTrack(sys, i, Looked(sys, i, e, now), Child(e.enabled, OnSchedule(s, origin, now), origin), now)
  {
    LookCounts(sys, i, e, origin, t, now);
  }

  /** A look at the rule when it begins its periods. */
  lemma ChildBegins(sys: System, i: nat, e: Dyn, now: Timestamp)
    requires WellFormed(sys) && i < |sys.configs| && DynOk(sys, i, e) && Timely(sys.win, now) && e.start == EMPTY
    ensures var s, f := sys.configs[i].schedule, Looked(sys, i, e, now);
            var origin := InitialStart(s, now);
            && ChildTrack(sys, i, f, Child(e.enabled, ActiveAt(s, origin, now), origin), now)
            && ChildTrack(sys, i, Looked(sys, i, f, now), Child(e.enabled, OnSchedule(s, origin, now), origin), now)
  {
    FirstLookCounts(sys, i, e, now);
    var f := Looked(sys, i, e, now);
    ChildLooked(sys, i, f, f.start, now, now);
  }

  lemma ChildSteps(sys: System, p: nat, i: nat, d: Dyn, e: Dyn, origin: Timestamp, c: Child, t: Timestamp, now: Timestamp,
                   was: bool, ruleFirst: bool)
    requires WellFormed(sys) && p < |sys.configs| && i < |sys.configs| && DynOk(sys, p, d) && DynOk(sys, i, e)
    requires Timely(sys.win, now) && t <= now && ParentTrack(sys, p, d, origin, t, was) && ChildTrack(sys, i, e, c, t)
    ensures ChildTrack(sys, i, RuleAfter(sys, p, i, d, e, now, ruleFirst),
                       NextChild(sys.configs[i].schedule, c, was, ParentOn(sys, p, origin, now), now, ruleFirst), now)
  {
    ParentSteps(sys, p, d, origin, t, now, was);
    if Begins(sys, p, d, now) {
      ChildBegins(sys, i, e.(enabled := true, start := EMPTY), now);
    } else if c.on {
      ChildLooked(sys, i, RuleAfterParent(sys, p, i, d, e, now), c.origin, t, now);
    }
  }

  lemma ChildStarts(sys: System, p: nat, i: nat, d: Dyn, e: Dyn, begin: Timestamp, ruleFirst: bool)
    requires WellFormed(sys) && p < |sys.configs| && i < |sys.configs| && DynOk(sys, p, d) && DynOk(sys, i, e)
    requires Timely(sys.win, begin) && d.enabled == sys.configs[p].enabledOnStart && d.start == EMPTY && !d.active
    requires e.start == EMPTY && !e.active
    ensures ChildTrack(sys, i, RuleAfter(sys, p, i, d, e, begin, ruleFirst),
                       FirstChild(sys.configs[i].schedule, e.enabled, ParentStarts(sys, p, begin), ParentStarted(sys, p, begin),
                                  begin, ruleFirst), begin)
  {
    ParentFirstLook(sys, p, d, begin);
    if ParentStarts(sys, p, begin) {
      ChildBegins(sys, i, e.(enabled := ParentAfter(sys, p, d, begin).active, start := EMPTY), begin);
    } else {
      ChildBegins(sys, i, e, begin);
    }
  }

  // ----- Runs

  predicate PairTrack(sys: System, w: World, p: nat, i: nat, origin: Timestamp, c: Child, t: Timestamp, was: bool) {
    && Pair(sys, p, i) && Fit(sys, w)
    && ParentTrack(sys, p, w.rules[p], origin, t, was) && ChildTrack(sys, i, w.rules[i], c, t)
  }

  lemma StepKeepsTrack(sys: System, w: World, p: nat, i: nat, origin: Timestamp, c: Child, t: Timestamp, now: Timestamp,
                       was: bool)
    requires PairTrack(sys, w, p, i, origin, c, t, was) && Timely(sys.win, now) && t <= now
    ensures PairTrack(sys, Step(sys, w, now, Down), p, i, origin,
                      NextChild(sys.configs[i].schedule, c, was, ParentOn(sys, p, origin, now), now, ComesFirst(Down, i, p)), now,
                      ParentOn(sys, p, origin, now))
  {
    StepOfPair(sys, w, p, i, now, Down);
    ParentSteps(sys, p, w.rules[p], origin, t, now, was);
    ChildSteps(sys, p, i, w.rules[p], w.rules[i], origin, c, t, now, was, ComesFirst(Down, i, p));
  }

  /** Second by second the rule goes the way of the two schedules. */
  lemma {:induction false} PollKeepsTrack(sys: System, w: World, p: nat, i: nat, origin: Timestamp, c: Child,
                                          from: Timestamp, upTo: Timestamp)
    requires p < |sys.configs| && PairTrack(sys, w, p, i, origin, c, from, ParentOn(sys, p, origin, from))
    requires Timely(sys.win, from) && Timely(sys.win, upTo) && from <= upTo
    ensures PairTrack(sys, Poll(sys, w, from, upTo), p, i, origin, ChildAt(sys, p, i, origin, c, from, upTo), upTo,
                      ParentOn(sys, p, origin, upTo))
    decreases upTo
  {
    if from < upTo {
      var t := SecondBefore(upTo);
      PollKeepsTrack(sys, w, p, i, origin, c, from, t);
      StepKeepsTrack(sys, Poll(sys, w, from, t), p, i, origin, ChildAt(sys, p, i, origin, c, from, t), t, upTo,
                     ParentOn(sys, p, origin, t));
    }
  }

  /** The first step, from a state that a reset has left. */
  lemma FirstStepTracks(sys: System, u: World, p: nat, i: nat, begin: Timestamp)
    requires Pair(sys, p, i) && Fit(sys, u) && Timely(sys.win, begin)
    requires u.rules[p].enabled == sys.configs[p].enabledOnStart && u.rules[p].start == EMPTY && !u.rules[p].active
    requires u.rules[i].start == EMPTY && !u.rules[i].active
    ensures PairTrack(sys, Step(sys, u, begin, Up), p, i, InitialStart(sys.configs[p].schedule, begin),
                      FirstChild(sys.configs[i].schedule, u.rules[i].enabled, ParentStarts(sys, p, begin),
                                 ParentStarted(sys, p, begin), begin, ComesFirst(Up, i, p)), begin, ParentStarted(sys, p, begin))
  {
    StepOfPair(sys, u, p, i, begin, Up);
    ParentFirstLook(sys, p, u.rules[p], begin);
    ChildStarts(sys, p, i, u.rules[p], u.rules[i], begin, ComesFirst(Up, i, p));
  }

  lemma ResetIsFirst(sys: System, w: World, p: nat, i: nat)
    requires Pair(sys, p, i) && Fit(sys, w)
    ensures var u := ResetAll(sys, w);
            && u.rules[p].enabled == sys.configs[p].enabledOnStart && u.rules[p].start == EMPTY && !u.rules[p].active
            && u.rules[i].start == EMPTY && !u.rules[i].active
  {
    ResetFirstStops(sys, w, |w.rules|);
    ResetRestoresParentless(sys, w, p);
  }

  lemma StartTracks(sys: System, w: World, p: nat, i: nat, begin: Timestamp, now: Timestamp)
    requires Pair(sys, p, i) && Fit(sys, w) && Timely(sys.win, begin) && Timely(sys.win, now) && begin <= now
    ensures var origin := InitialStart(sys.configs[p].schedule, begin);
            PairTrack(sys, Start(sys, w, begin, now).world, p, i, origin,
                      ChildStarted(sys, p, i, ResetAll(sys, w).rules[i].enabled, begin, now), now, ParentOn(sys, p, origin, now))
  {
    var u, origin := ResetAll(sys, w), InitialStart(sys.configs[p].schedule, begin);
    var was := ParentStarted(sys, p, begin);
    ResetIsFirst(sys, w, p, i);
    FirstStepTracks(sys, u, p, i, begin);
    var c := FirstChild(sys.configs[i].schedule, u.rules[i].enabled, ParentStarts(sys, p, begin), was, begin, ComesFirst(Up, i, p));
    StepKeepsTrack(sys, Step(sys, u, begin, Up), p, i, origin, c, begin, now, was);
    StartInSteps(sys, w, u, begin, now);
  }

  /** At every second the channel of a rule with one parent is in the state that the two schedules
      tell, action left running included. `loaded` says whether the rule comes out of the reset enabled. */
  lemma PairChannel(sys: System, w: World, begin: Timestamp, now: Timestamp, later: Timestamp, p: nat, i: nat, c: nat,
                    loaded: bool)
    requires Pair(sys, p, i) && Accounted(sys, w, i, c) && loaded == (sys.configs[i].enabledOnStart && !LeftOff(sys, w, i))
    requires Timely(sys.win, begin) && Timely(sys.win, now) && Timely(sys.win, later) && begin <= now <= later
    requires NeverLate(sys, Start(sys, w, begin, now), now, later)
    ensures var origin := InitialStart(sys.configs[p].schedule, begin);
            Sleep(sys, Start(sys, w, begin, now), now, later).world.channels[c]
            == StateWhile(sys, i, ChildAt(sys, p, i, origin, ChildStarted(sys, p, i, loaded, begin, now), now, later).running)
  {
    var r, origin := Start(sys, w, begin, now), InitialStart(sys.configs[p].schedule, begin);
    ResetRestoresIff(sys, w, i);
    StartTracks(sys, w, p, i, begin, now);
    PollKeepsTrack(sys, r.world, p, i, origin, ChildStarted(sys, p, i, loaded, begin, now), now, later);
    StartFollows(sys, w, begin, now, i, c);
    PollFollows(sys, r.world, now, later, i, c);
    SleepingIsPolling(sys, w, begin, now, later);
  }

  /** The same from whichever time the parent's first period begins at. */
  lemma PairChannelFromOrigin(sys: System, w: World, begin: Timestamp, now: Timestamp, later: Timestamp, p: nat, i: nat, c: nat,
                              loaded: bool, origin: Timestamp)
    requires Pair(sys, p, i) && Accounted(sys, w, i, c) && loaded == (sys.configs[i].enabledOnStart && !LeftOff(sys, w, i))
    requires BeginsAt(sys.configs[p].schedule, begin, origin)
    requires Timely(sys.win, begin) && Timely(sys.win, now) && Timely(sys.win, later) && begin <= now <= later
    requires NeverLate(sys, Start(sys, w, begin, now), now, later)
    ensures Sleep(sys, Start(sys, w, begin, now), now, later).world.channels[c]
            == StateWhile(sys, i, ChildAt(sys, p, i, origin, ChildStarted(sys, p, i, loaded, begin, now), now, later).running)
  {
    var s := sys.configs[p].schedule;
    InitialBeginsAt(s, begin);
    BeginsAtIsUnique(s, begin, origin, InitialStart(s, begin));
    PairChannel(sys, w, begin, now, later, p, i, c, loaded);
  }

  // ----- When the channel needs the parent

  /** A rule that its parent alone switches on, and that is looked at after its parent, runs only
      while its parent does, and then by its own schedule from the parent's last start. */
  predicate WithParent(c: Child, on: bool) {
    c.on == on && (c.running ==> on)
  }

  lemma {:induction false} RunsWithParent(sys: System, p: nat, i: nat, origin: Timestamp, c: Child, from: Timestamp, t: Timestamp)
    requires p < |sys.configs| && i < |sys.configs| && from <= t && !ComesFirst(Down, i, p)
    requires WithParent(c, ParentOn(sys, p, origin, from))
    ensures var s, d := sys.configs[i].schedule, ChildAt(sys, p, i, origin, c, from, t);
            && WithParent(d, ParentOn(sys, p, origin, t))
            && (from < t && ParentOn(sys, p, origin, t) && ParentOn(sys, p, origin, SecondBefore(t)) ==>
                  d.running == OnSchedule(s, d.origin, t))
    decreases t
  {
    if from < t {
      RunsWithParent(sys, p, i, origin, c, from, SecondBefore(t));
    }
  }
}
