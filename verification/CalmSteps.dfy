/** Steps at which no rule that switches others on stops: they switch nothing off, and so leave no
    rule running that is switched off. */
module CalmSteps {
  import opened Calendar
  import opened Periods
  import opened RuleTime
  import opened NextChange
  import opened Network
  import opened Stepping
  import opened Steps
  import opened Islands
  import opened Device
  import opened Outputs
  import opened SwitchingOff
  import opened LeftOn

  /** A rule that switches others, about to be looked at: if it runs, its interval is not over, and
      it has begun its period or finds a first one that is not over. If it may be switched on in
      between, and so begin a new period, that makes no difference to an interval that runs. */
  predicate CalmRule(sys: System, j: nat, d: Dyn, now: Timestamp)
    requires WellFormed(sys) && j < |sys.configs| && DynOk(sys, j, d) && Timely(sys.win, now)
  {
    var s := sys.configs[j].schedule;
    && (d.active ==> d.enabled && DueNow(sys, j, d, now) && !StopsFirst(s, d, now))
    && HasBegun(sys, j, d, now)
    && (HasParent(sys, j) ==> Restartable(sys, j, d, now))
  }

  predicate Restartable(sys: System, j: nat, d: Dyn, now: Timestamp)
    requires WellFormed(sys) && j < |sys.configs| && DynOk(sys, j, d) && Timely(sys.win, now)
  {
    var s := sys.configs[j].schedule;
    s.first == EMPTY && FreshStart(s, now) && (d.enabled && DueNow(sys, j, d, now) ==> ActiveAt(s, InitialStart(s, now), now))
  }

  /** A rule that switches others is calm, and no rule runs that is switched off. */
  predicate CalmAt(sys: System, w: World, j: nat, now: Timestamp)
    requires WellFormed(sys) && j < |sys.configs| && Timely(sys.win, now)
    requires |w.rules| == |sys.configs| && DynOk(sys, j, w.rules[j])
  {
    && (w.rules[j].active ==> w.rules[j].enabled)
    && (sys.configs[j].target.ActivatesRule? ==> CalmRule(sys, j, w.rules[j], now))
  }

  predicate Calm(sys: System, w: World, now: Timestamp, s: set<nat>)
    requires WellFormed(sys) && Fit(sys, w) && Timely(sys.win, now)
  {
    Island(sys, s) && forall j :: 0 <= j < |w.rules| && j in s ==> CalmAt(sys, w, j, now)
  }

  /** Nothing on the island is switched off, and everything there stays calm. */
  predicate StaysCalm(sys: System, w: World, r: World, now: Timestamp, s: set<nat>)
    requires WellFormed(sys) && Fit(sys, w) && Fit(sys, r) && Timely(sys.win, now)
  {
    Calm(sys, r, now, s) && forall j :: 0 <= j < |w.rules| && j in s && w.rules[j].enabled ==> r.rules[j].enabled
  }

  // ----- One rule

  /** A calm rule that has been looked at. */
  lemma LookedAt(sys: System, j: nat, d: Dyn, e: Dyn, now: Timestamp)
    requires WellFormed(sys) && j < |sys.configs| && DynOk(sys, j, d) && DynOk(sys, j, e) && Timely(sys.win, now)
    requires CalmRule(sys, j, d, now) && e.enabled && d.enabled
    requires e.start == NewStart(sys, j, d, now) && e.active == DueNow(sys, j, d, now)
    ensures CalmRule(sys, j, e, now)
  {
    LookTwice(sys, j, d, now);
    if e.active {
      ActiveNotBefore(sys.configs[j].schedule, sys.win, e.start, now);
    }
  }

  /** A calm rule that is switched on. */
  lemma SwitchedOnCalm(sys: System, j: nat, d: Dyn, now: Timestamp)
    requires WellFormed(sys) && j < |sys.configs| && DynOk(sys, j, d) && Timely(sys.win, now)
    requires CalmRule(sys, j, d, now) && HasParent(sys, j)
    ensures DynOk(sys, j, d.(enabled := true, start := EMPTY))
    ensures CalmRule(sys, j, d.(enabled := true, start := EMPTY), now)
  {
  }

  // ----- Evaluations

  predicate OnlyChanges(w: World, r: World, i: nat) {
    |r.rules| == |w.rules| && i < |w.rules| && forall j :: 0 <= j < |w.rules| && j != i ==> r.rules[j] == w.rules[j]
  }

  lemma OneChanged(sys: System, w: World, r: World, i: nat, now: Timestamp, s: set<nat>)
    requires WellFormed(sys) && Fit(sys, w) && Fit(sys, r) && Timely(sys.win, now) && i < |w.rules|
    requires Calm(sys, w, now, s) && OnlyChanges(w, r, i) && r.rules[i].enabled && CalmAt(sys, r, i, now)
    ensures StaysCalm(sys, w, r, now, s)
  {
    forall j | 0 <= j < |w.rules| && j in s
      ensures CalmAt(sys, r, j, now)
    {
      assert CalmAt(sys, w, j, now);
    }
  }

  lemma PlainCalm(sys: System, w: World, i: nat, now: Timestamp, s: set<nat>)
    requires Good(sys, w, now) && i < |w.rules| && !Launches(sys, w, i, now)
    requires Calm(sys, w, now, s) && i in s && w.rules[i].enabled
    ensures StaysCalm(sys, w, EvaluatePlainly(sys, w, i, now), now, s)
  {
    assert CalmAt(sys, w, i, now);
    var r := EvaluatePlainly(sys, w, i, now);
    if sys.configs[i].target.ActivatesRule? {
      PlainSwitcher(sys, w, i, now);
      LookedAt(sys, i, w.rules[i], r.rules[i], now);
    } else {
      PlainOther(sys, w, i, now);
    }
    OneChanged(sys, w, r, i, now, s);
  }

  lemma PlainSwitcher(sys: System, w: World, i: nat, now: Timestamp)
    requires Good(sys, w, now) && i < |w.rules| && !Launches(sys, w, i, now)
    requires sys.configs[i].target.ActivatesRule? && CalmRule(sys, i, w.rules[i], now)
    ensures var r, d := EvaluatePlainly(sys, w, i, now), w.rules[i];
            && OnlyChanges(w, r, i) && r.rules[i].enabled == d.enabled
            && r.rules[i].start == NewStart(sys, i, d, now) && r.rules[i].active == DueNow(sys, i, d, now)
  {
    assert EvaluatePlainly(sys, w, i, now) == Marked(sys, Prepare(sys, w, i, now), i, now);
  }

  lemma PlainOther(sys: System, w: World, i: nat, now: Timestamp)
    requires Good(sys, w, now) && i < |w.rules| && !sys.configs[i].target.ActivatesRule?
    ensures var r := EvaluatePlainly(sys, w, i, now);
            OnlyChanges(w, r, i) && r.rules[i].enabled == w.rules[i].enabled
  {
    StopsItself(sys, w, i);
    StopsItself(sys, Prepare(sys, w, i, now), i);
  }

  lemma StopsItself(sys: System, w: World, i: nat)
    requires WellFormed(sys) && Fit(sys, w) && i < |w.rules| && !sys.configs[i].target.ActivatesRule?
    ensures OnlyChanges(w, Stop(sys, w, i), i)
  {
  }

  lemma LaunchCalm(sys: System, w: World, i: nat, c: nat, now: Timestamp, s: set<nat>)
    requires Good(sys, w, now) && i < |w.rules| && IsParent(sys, i, c) && Launches(sys, w, i, now)
    requires Calm(sys, w, now, s) && i in s && w.rules[i].enabled && c < |w.rules|
    ensures var y := Enabled(sys, Started(sys, w, i, now), c);
            StaysCalm(sys, w, y, now, s) && c in s && y.rules[c].enabled
  {
    assert CalmAt(sys, w, i, now);
    LaunchTarget(sys, i, c);
    var x := Started(sys, w, i, now);
    var y := Enabled(sys, x, c);
    LookedAt(sys, i, w.rules[i], x.rules[i], now);
    OneChanged(sys, w, x, i, now, s);
    assert CalmAt(sys, x, c, now);
    if sys.configs[c].target.ActivatesRule? {
      SwitchedOnCalm(sys, c, x.rules[c], now);
    }
    OneChanged(sys, x, y, c, now, s);
  }

  lemma LoggedCalm(sys: System, w: World, i: nat, now: Timestamp, s: set<nat>)
    requires WellFormed(sys) && Fit(sys, w) && Timely(sys.win, now) && i < |w.rules| && Calm(sys, w, now, s)
    ensures Fit(sys, Logged(sys, w, i)) && StaysCalm(sys, w, Logged(sys, w, i), now, s)
  {
    forall j | 0 <= j < |w.rules| && j in s
      ensures CalmAt(sys, Logged(sys, w, i), j, now)
    {
      assert CalmAt(sys, w, j, now);
    }
  }

  lemma MarkedCalm(sys: System, z: World, i: nat, now: Timestamp, s: set<nat>)
    requires WellFormed(sys) && Fit(sys, z) && Timely(sys.win, now) && i < |z.rules| && Calm(sys, z, now, s)
    ensures StaysCalm(sys, z, Marked(sys, z, i, now), now, s)
  {
    forall j | 0 <= j < |z.rules| && j in s
      ensures CalmAt(sys, Marked(sys, z, i, now), j, now)
    {
      assert CalmAt(sys, z, j, now);
    }
  }

  lemma CalmTwice(sys: System, w: World, v: World, r: World, now: Timestamp, s: set<nat>)
    requires WellFormed(sys) && Fit(sys, w) && Fit(sys, v) && Fit(sys, r) && Timely(sys.win, now)
    requires StaysCalm(sys, w, v, now, s) && StaysCalm(sys, v, r, now, s)
    ensures StaysCalm(sys, w, r, now, s)
  {
  }

  lemma {:induction false} EvaluateCalm(sys: System, w: World, i: nat, now: Timestamp, s: set<nat>)
    requires Good(sys, w, now) && i < |w.rules| && ParentsDone(sys, w, i)
    requires Calm(sys, w, now, s) && i in s && w.rules[i].enabled
    ensures StaysCalm(sys, w, Evaluate(sys, w, i, now), now, s)
    decreases TotalWork(sys, w, now), sys.order[i], 1, 0
  {
    var u := Logged(sys, w, i);
    LoggedStaysGood(sys, w, u, i, now);
    LoggedCalm(sys, w, i, now, s);
    if Launches(sys, u, i, now) {
      var c := sys.configs[i].target.rule;
      Launch(sys, u, i, c, now);
      LaunchCalm(sys, u, i, c, now, s);
      var y := Enabled(sys, Started(sys, u, i, now), c);
      UpdateWithParentsCalm(sys, y, c, now, s);
      var z := UpdateWithParents(sys, y, c, now);
      MarkedCalm(sys, z, i, now, s);
      CalmTwice(sys, u, y, z, now, s);
      CalmTwice(sys, u, z, Marked(sys, z, i, now), now, s);
    } else {
      PlainCalm(sys, u, i, now, s);
    }
  }

  lemma {:induction false} RunParentsCalm(sys: System, w: World, i: nat, now: Timestamp, k: nat, s: set<nat>)
    requires Good(sys, w, now) && i < |w.rules| && k <= |Parents(sys, i)| && ParentsDoneTo(sys, w, i, k)
    requires Calm(sys, w, now, s) && i in s
    ensures StaysCalm(sys, w, RunParents(sys, w, i, now, k), now, s)
    decreases TotalWork(sys, w, now), sys.order[i], 2, |Parents(sys, i)| - k
  {
    if k < |Parents(sys, i)| {
      var p, m := Parents(sys, i)[k], k + 1;
      ParentComesFirst(sys, p, i);
      ParentInside(sys, p, i, s);
      var v := WithParent(sys, w, i, now, k);
      if !w.rules[p].hasRun {
        UpdateCalm(sys, w, p, now, s);
      }
      RunParentsOnward(sys, w, i, now, k, m);
      RunParentsCalm(sys, v, i, now, m, s);
      CalmTwice(sys, w, v, RunParents(sys, v, i, now, m), now, s);
    }
  }

  lemma {:induction false} UpdateWithParentsCalm(sys: System, w: World, i: nat, now: Timestamp, s: set<nat>)
    requires Good(sys, w, now) && i < |w.rules| && Calm(sys, w, now, s) && i in s && w.rules[i].enabled
    ensures StaysCalm(sys, w, UpdateWithParents(sys, w, i, now), now, s)
    decreases TotalWork(sys, w, now), sys.order[i], 3, 0
  {
    RunParentsCalm(sys, w, i, now, 0, s);
    var v := RunParents(sys, w, i, now, 0);
    EvaluateCalm(sys, v, i, now, s);
    CalmTwice(sys, w, v, Evaluate(sys, v, i, now), now, s);
  }

  lemma {:induction false} UpdateCalm(sys: System, w: World, i: nat, now: Timestamp, s: set<nat>)
    requires Good(sys, w, now) && i < |w.rules| && Calm(sys, w, now, s) && i in s
    ensures StaysCalm(sys, w, Update(sys, w, i, now), now, s)
    decreases TotalWork(sys, w, now), sys.order[i], 4, 0
  {
    if w.rules[i].enabled && !w.rules[i].hasRun {
      UpdateWithParentsCalm(sys, w, i, now, s);
    }
  }

  lemma AnyUpdateCalm(sys: System, w: World, i: nat, now: Timestamp, s: set<nat>)
    requires Good(sys, w, now) && i < |w.rules| && Calm(sys, w, now, s)
    ensures StaysCalm(sys, w, Update(sys, w, i, now), now, s)
  {
    if i in s {
      UpdateCalm(sys, w, i, now, s);
    } else {
      UpdateElsewhere(sys, w, i, now, s);
      SameOnCalm(sys, w, Update(sys, w, i, now), now, s);
    }
  }

  lemma SameOnCalm(sys: System, w: World, v: World, now: Timestamp, s: set<nat>)
    requires WellFormed(sys) && Fit(sys, w) && Fit(sys, v) && Timely(sys.win, now) && Calm(sys, w, now, s) && SameOn(w, v, s)
    ensures StaysCalm(sys, w, v, now, s)
  {
    forall j | 0 <= j < |w.rules| && j in s
      ensures CalmAt(sys, v, j, now)
    {
      assert CalmAt(sys, w, j, now);
    }
  }

  lemma ParentInside(sys: System, p: nat, i: nat, s: set<nat>)
    requires WellFormed(sys) && Island(sys, s) && p in Parents(sys, i) && i in s
    ensures p in s
  {
    assert IsParent(sys, p, i);
  }

  lemma {:induction false} UpdateEachCalm(sys: System, w: World, indices: seq<nat>, k: nat, now: Timestamp, s: set<nat>)
    requires Good(sys, w, now) && InRange(indices, |w.rules|) && k <= |indices| && Calm(sys, w, now, s)
    ensures StaysCalm(sys, w, UpdateEach(sys, w, indices, k, now), now, s)
    decreases k
  {
    if k > 0 {
      var j := Before(k);
      var v := UpdateEach(sys, w, indices, j, now);
      UpdateEachCalm(sys, w, indices, j, now, s);
      AnyUpdateCalm(sys, v, indices[j], now, s);
      CalmTwice(sys, w, v, Update(sys, v, indices[j], now), now, s);
    }
  }

  lemma ClearedCalm(sys: System, w: World, now: Timestamp, s: set<nat>)
    requires WellFormed(sys) && Fit(sys, w) && Timely(sys.win, now) && Calm(sys, w, now, s)
    ensures Good(sys, Cleared(w), now) && Calm(sys, Cleared(w), now, s)
  {
    forall j | 0 <= j < |w.rules| && j in s
      ensures CalmAt(sys, Cleared(w), j, now)
    {
      assert CalmAt(sys, w, j, now);
    }
  }

  /** In any graph, on every island of it that is calm, a step switches no rule off and leaves none
      running that is switched off. */
  lemma CalmStep(sys: System, w: World, now: Timestamp, d: Direction, s: set<nat>)
    requires WellFormed(sys) && Fit(sys, w) && Timely(sys.win, now) && Calm(sys, w, now, s)
    ensures StaysCalm(sys, w, Step(sys, w, now, d), now, s)
  {
    ClearedCalm(sys, w, now, s);
    UpdateEachCalm(sys, Cleared(w), Indices(|w.rules|, d), |w.rules|, now, s);
  }

  /** So a channel that one rule drives is afterwards in the state for a running action exactly if that
      rule is enabled and an interval of its period contains the time. */
  lemma ChannelAfterCalmStep(sys: System, w: World, now: Timestamp, d: Direction, i: nat, c: nat, s: set<nat>)
    requires Follows(sys, w, i, c) && Timely(sys.win, now) && Calm(sys, w, now, s) && i in s
    ensures var r := Step(sys, w, now, d);
            r.channels[c] == StateWhile(sys, i, r.rules[i].enabled && ActiveAt(sys.configs[i].schedule, r.rules[i].start, now))
  {
    var r := Step(sys, w, now, d);
    StepFollows(sys, w, now, d, i, c);
    StepIsComplete(sys, w, now, d);
    CalmStep(sys, w, now, d, s);
    assert CalmAt(sys, r, i, now);
  }

  lemma CalmSecond(sys: System, w: World, now: Timestamp, later: Timestamp, i: nat, s: set<nat>)
    requires WellFormed(sys) && Fit(sys, w) && Timely(sys.win, now) && Timely(sys.win, later) && now < later
    requires i < |w.rules| && i in s
    requires Calm(sys, Poll(sys, w, now, SecondBefore(later)), later, s)
    ensures var r := Poll(sys, w, now, later).rules[i]; r.active ==> r.enabled
  {
    var x := Poll(sys, w, now, SecondBefore(later));
    CalmStep(sys, x, later, Down, s);
    assert CalmAt(sys, Step(sys, x, later, Down), i, later);
  }

  /** At every second that is calm for the polling timer on the island of rule i, the channel of the
      sleeping one is in the state for a running action exactly if the rule is enabled and its
      current period has an interval there. */
  lemma ChannelAtCalmSecond(sys: System, w: World, begin: Timestamp, now: Timestamp, later: Timestamp, i: nat, c: nat,
                            s: set<nat>)
    requires Accounted(sys, w, i, c) && i in s
    requires Timely(sys.win, begin) && Timely(sys.win, now) && Timely(sys.win, later) && begin <= now < later
    requires NeverLate(sys, Start(sys, w, begin, now), now, later)
    requires Calm(sys, Poll(sys, Start(sys, w, begin, now).world, now, SecondBefore(later)), later, s)
    ensures var v := Sleep(sys, Start(sys, w, begin, now), now, later).world;
            v.channels[c] == StateWhile(sys, i, v.rules[i].enabled && Due(sys, i, v.rules[i], later))
  {
    var r := Start(sys, w, begin, now);
    SleepingIsPolling(sys, w, begin, now, later);
    StartFollows(sys, w, begin, now, i, c);
    SleepFollows(sys, r, now, later, i, c);
    CalmSecond(sys, r.world, now, later, i, s);
    ChannelOnSchedule(sys, w, begin, now, later, i, c);
  }

  /** The two rules of the late system are calm until the interval of the first one ends. */
  lemma LateIsCalm(now: Timestamp)
    requires 1000 <= now < 1010
    ensures WellFormed(LateSystem()) && Fit(LateSystem(), LateWorld()) && Calm(LateSystem(), LateWorld(), now, {0, 1})
  {
    var sys, w := LateSystem(), LateWorld();
    LateIsCovered();
    LateFits(10);
    LateParents();
    PairIsIsland(sys, 0, 1);
    assert CalmRule(sys, 0, w.rules[0], now);
  }
}
