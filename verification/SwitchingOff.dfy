/** A rule and its only parent: exactly what a step makes of both, and when it leaves the rule switched
    off with its action still running. */
module SwitchingOff {
  import opened Calendar
  import opened Periods
  import opened RuleTime
  import opened NextChange
  import opened Network
  import opened Stepping
  import opened Steps
  import opened Islands

  /** Rule p, which nothing switches, switches the channel rule i, which nothing else switches. */
  predicate Pair(sys: System, p: nat, i: nat) {
    && WellFormed(sys) && p < |sys.configs| && i < |sys.configs| && sys.configs[i].target.Channel?
    && Parents(sys, i) == [p] && Parents(sys, p) == []
  }

  lemma PairIsIsland(sys: System, p: nat, i: nat)
    requires Pair(sys, p, i)
    ensures p != i && IsParent(sys, p, i) && Island(sys, {p, i})
  {
    assert p in Parents(sys, i);
    ParentComesFirst(sys, p, i);
    forall j | 0 <= j < |sys.configs| && sys.configs[j].target.ActivatesRule?
      ensures j in {p, i} <==> sys.configs[j].target.rule in {p, i}
    {
      var c := sys.configs[j].target.rule;
      assert IsParent(sys, j, c) && j in Parents(sys, c);
    }
  }

  // ----- Looks at one rule

  predicate DueNow(sys: System, j: nat, d: Dyn, now: Timestamp)
    requires WellFormed(sys) && j < |sys.configs| && DynOk(sys, j, d) && Timely(sys.win, now)
  {
    ActiveAt(sys.configs[j].schedule, NewStart(sys, j, d, now), now)
  }

  /** The parent's running action comes to an end. */
  predicate Ends(sys: System, p: nat, d: Dyn, now: Timestamp)
    requires WellFormed(sys) && p < |sys.configs| && DynOk(sys, p, d) && Timely(sys.win, now)
  {
    d.enabled && d.active && !DueNow(sys, p, d, now)
  }

  /** The parent's action starts, perhaps after it has been stopped for a given first period. */
  predicate Begins(sys: System, p: nat, d: Dyn, now: Timestamp)
    requires WellFormed(sys) && p < |sys.configs| && DynOk(sys, p, d) && Timely(sys.win, now)
  {
    var first := sys.configs[p].schedule.first;
    d.enabled && (!d.active || (first != EMPTY && (d.start == EMPTY || now < first))) && DueNow(sys, p, d, now)
  }

  /** Rule j once it has been looked at. */
  function Looked(sys: System, j: nat, d: Dyn, now: Timestamp): (r: Dyn)
    requires WellFormed(sys) && j < |sys.configs| && DynOk(sys, j, d) && Timely(sys.win, now)
    ensures DynOk(sys, j, r)
  {
    d.(start := NewStart(sys, j, d, now), active := DueNow(sys, j, d, now))
  }

  /** What can be told of a rule between steps. */
  predicate SameState(d: Dyn, e: Dyn) {
    d.enabled == e.enabled && d.active == e.active && d.start == e.start
  }

  lemma LookedByStart(sys: System, j: nat, d: Dyn, e: Dyn, now: Timestamp)
    requires WellFormed(sys) && j < |sys.configs| && DynOk(sys, j, d) && DynOk(sys, j, e) && Timely(sys.win, now)
    requires d.start == e.start && d.enabled == e.enabled
    ensures SameState(Looked(sys, j, d, now), Looked(sys, j, e, now))
  {
  }

  /** The parent has begun its period, or finds a first one that is not over. */
  predicate HasBegun(sys: System, p: nat, d: Dyn, now: Timestamp)
    requires p < |sys.configs|
  {
    d.start != EMPTY || FreshStart(sys.configs[p].schedule, now)
  }

  /** A second look finds the same period. */
  lemma LookTwice(sys: System, p: nat, d: Dyn, now: Timestamp)
    requires WellFormed(sys) && p < |sys.configs| && DynOk(sys, p, d) && Timely(sys.win, now) && HasBegun(sys, p, d, now)
    ensures var e := d.(start := NewStart(sys, p, d, now)); NewStart(sys, p, e, now) == e.start
  {
    var s := sys.configs[p].schedule;
    if d.start != EMPTY {
      TickTwice(s, sys.win, d.start, now, now);
    } else {
      TickWhileCurrent(s, NewStart(sys, p, d, now), now);
    }
  }

  // ----- What a step makes of the two rules

  /** The parent after its update. If its action starts, it is looked at once more while its target
      is updated. */
  function ParentAfter(sys: System, p: nat, d: Dyn, now: Timestamp): (r: Dyn)
    requires WellFormed(sys) && p < |sys.configs| && DynOk(sys, p, d) && Timely(sys.win, now)
    ensures DynOk(sys, p, r)
  {
    if !d.enabled then d
    else if Begins(sys, p, d, now) then Looked(sys, p, Looked(sys, p, d, now), now)
    else Looked(sys, p, d, now)
  }

  /** The rule after the update of its parent. */
  function RuleAfterParent(sys: System, p: nat, i: nat, d: Dyn, e: Dyn, now: Timestamp): (r: Dyn)
    requires WellFormed(sys) && p < |sys.configs| && i < |sys.configs| && DynOk(sys, p, d) && DynOk(sys, i, e)
    requires Timely(sys.win, now)
    ensures DynOk(sys, i, r)
  {
    if Begins(sys, p, d, now) then
      Looked(sys, i, e.(enabled := ParentAfter(sys, p, d, now).active, start := EMPTY), now)
    else if Ends(sys, p, d, now) then e.(enabled := false, active := false)
    else e
  }

  /** The rule after its own update as well. If that comes first, it is made even if the parent has
      switched the rule off; if it comes second, it is not made again when the parent has made it. */
  function RuleAfter(sys: System, p: nat, i: nat, d: Dyn, e: Dyn, now: Timestamp, ruleFirst: bool): (r: Dyn)
    requires WellFormed(sys) && p < |sys.configs| && i < |sys.configs| && DynOk(sys, p, d) && DynOk(sys, i, e)
    requires Timely(sys.win, now)
    ensures DynOk(sys, i, r)
  {
    var f := RuleAfterParent(sys, p, i, d, e, now);
    if ruleFirst && e.enabled then Looked(sys, i, f, now)
    else if !ruleFirst && f.enabled && !Begins(sys, p, d, now) then Looked(sys, i, f, now)
    else f
  }

  // ----- What the parent's evaluation does to the rule

  lemma PlainOnTarget(sys: System, u: World, p: nat, i: nat, now: Timestamp)
    requires Good(sys, u, now) && Pair(sys, p, i) && i < |u.rules| && p < |u.rules| && u.rules[p].enabled
    requires !Launches(sys, u, p, now)
    ensures var r := EvaluatePlainly(sys, u, p, now).rules[i];
            r == if Ends(sys, p, u.rules[p], now) then u.rules[i].(enabled := false, active := false) else u.rules[i]
    ensures !Begins(sys, p, u.rules[p], now)
  {
    PairIsIsland(sys, p, i);
    assert TargetOk(sys, p) && TargetOk(sys, i);
    var v := Prepare(sys, u, p, now);
    StopOnTarget(sys, u, p, i);
    StopOnTarget(sys, v, p, i);
  }

  lemma StopOnTarget(sys: System, u: World, p: nat, i: nat)
    requires WellFormed(sys) && Fit(sys, u) && p < |u.rules| && i < |u.rules| && IsParent(sys, p, i) && p != i
    ensures u.rules[p].active ==> Stop(sys, u, p).rules[i] == u.rules[i].(enabled := false, active := false)
    ensures !u.rules[p].active ==> Stop(sys, u, p) == u
  {
    if u.rules[p].active {
      assert TargetOk(sys, p);
      var x := u.(rules := u.rules[p := u.rules[p].(active := false)]);
      var y := x.(rules := x.rules[i := x.rules[i].(enabled := false)]);
      assert Stop(sys, u, p) == Stop(sys, y, i);
    }
  }

  // ----- Updating the parent, and the rule

  /** The period and the action that an evaluation leaves a rule with depend on the time alone, unless
      it switches on another. */
  lemma PlainByTime(sys: System, w: World, i: nat, now: Timestamp)
    requires Good(sys, w, now) && i < |w.rules| && !Launches(sys, w, i, now)
    ensures SameState(EvaluatePlainly(sys, w, i, now).rules[i], Looked(sys, i, w.rules[i], now))
  {
  }

  /** Evaluating a channel rule changes no other rule. */
  lemma PlainAlone(sys: System, u: World, i: nat, j: nat, now: Timestamp)
    requires Good(sys, u, now) && i < |u.rules| && j < |u.rules| && j != i && sys.configs[i].target.Channel?
    ensures EvaluatePlainly(sys, u, i, now).rules[j] == u.rules[j]
  {
  }

  lemma ChannelEvaluated(sys: System, w: World, i: nat, now: Timestamp)
    requires Good(sys, w, now) && i < |w.rules| && ParentsDone(sys, w, i) && sys.configs[i].target.Channel?
    ensures var r := Evaluate(sys, w, i, now);
            && SameState(r.rules[i], Looked(sys, i, w.rules[i], now)) && r.rules[i].hasRun
            && forall j :: 0 <= j < |w.rules| && j != i ==> r.rules[j] == w.rules[j]
  {
    LoggedStaysGood(sys, w, w, i, now);
    PlainByTime(sys, Logged(sys, w, i), i, now);
    forall j | 0 <= j < |w.rules| && j != i
      ensures Evaluate(sys, w, i, now).rules[j] == w.rules[j]
    {
      PlainAlone(sys, Logged(sys, w, i), i, j, now);
    }
  }

  lemma UpdateWithoutParents(sys: System, w: World, p: nat, now: Timestamp)
    requires Good(sys, w, now) && p < |w.rules| && Parents(sys, p) == [] && NotYetRun(w.rules[p])
    ensures ParentsDone(sys, w, p) && Update(sys, w, p, now) == Evaluate(sys, w, p, now)
  {
    assert RunParents(sys, w, p, now, 0) == w;
  }

  /** What running the only parent comes to, whether it has been evaluated already or is disabled. */
  lemma RunsOne(sys: System, w: World, p: nat, i: nat, now: Timestamp)
    requires Good(sys, w, now) && p < |w.rules| && i < |w.rules| && Parents(sys, i) == [p]
    ensures RunParents(sys, w, i, now, 0) == Update(sys, w, p, now)
  {
    var v := WithParent(sys, w, i, now, 0);
    assert v == Update(sys, w, p, now);
    RunParentsOnward(sys, w, i, now, 0, 1);
    assert RunParents(sys, v, i, now, 1) == v;
  }

  /** A parent that is looked at while it runs. */
  lemma RunningParent(sys: System, y: World, p: nat, i: nat, now: Timestamp)
    requires Good(sys, y, now) && Pair(sys, p, i) && p < |y.rules| && i < |y.rules|
    requires NotYetRun(y.rules[p]) && y.rules[p].active && !StopsFirst(sys.configs[p].schedule, y.rules[p], now)
    ensures var x, due := Update(sys, y, p, now), DueNow(sys, p, y.rules[p], now);
            && SameState(x.rules[p], Looked(sys, p, y.rules[p], now))
            && x.rules[i] == if due then y.rules[i] else y.rules[i].(enabled := false, active := false)
  {
    UpdateWithoutParents(sys, y, p, now);
    LoggedStaysGood(sys, y, y, p, now);
    PlainByTime(sys, Logged(sys, y, p), p, now);
    PlainOnTarget(sys, Logged(sys, y, p), p, i, now);
  }

  /** The rule, switched on by its parent, is updated with it, and the parent is looked at once
      more. */
  lemma SwitchedOn(sys: System, y: World, p: nat, i: nat, now: Timestamp)
    requires Good(sys, y, now) && Pair(sys, p, i) && p < |y.rules| && i < |y.rules|
    requires NotYetRun(y.rules[p]) && y.rules[p].active && !StopsFirst(sys.configs[p].schedule, y.rules[p], now)
    requires y.rules[i].enabled
    ensures var r, due := UpdateWithParents(sys, y, i, now), DueNow(sys, p, y.rules[p], now);
            && SameState(r.rules[p], Looked(sys, p, y.rules[p], now))
            && SameState(r.rules[i], Looked(sys, i, y.rules[i].(enabled := due), now)) && r.rules[i].hasRun
  {
    PairIsIsland(sys, p, i);
    var x := Update(sys, y, p, now);
    RunsOne(sys, y, p, i, now);
    RunningParent(sys, y, p, i, now);
    ChannelEvaluated(sys, x, i, now);
    LookedByStart(sys, i, x.rules[i], y.rules[i].(enabled := x.rules[i].enabled), now);
  }

  /** An update of the parent that starts its action. */
  lemma LaunchOnTarget(sys: System, u: World, p: nat, i: nat, now: Timestamp)
    requires Good(sys, u, now) && Pair(sys, p, i) && p < |u.rules| && i < |u.rules| && NotYetRun(u.rules[p])
    requires Launches(sys, u, p, now)
    ensures Begins(sys, p, u.rules[p], now)
    ensures var y := Enabled(sys, Started(sys, u, p, now), i);
            Good(sys, y, now) && BothUpdated(sys, p, i, u, UpdateWithParents(sys, y, i, now), now)
  {
    PairIsIsland(sys, p, i);
    Launch(sys, u, p, i, now);
    var y := Enabled(sys, Started(sys, u, p, now), i);
    ActiveNotBefore(sys.configs[p].schedule, sys.win, y.rules[p].start, now);
    SwitchedOn(sys, y, p, i, now);
  }

  /** The two rules after the update of the parent. */
  predicate BothUpdated(sys: System, p: nat, i: nat, w: World, r: World, now: Timestamp)
    requires WellFormed(sys) && Fit(sys, w) && |r.rules| == |w.rules| && p < |w.rules| && i < |w.rules| && Timely(sys.win, now)
  {
    && SameState(r.rules[p], ParentAfter(sys, p, w.rules[p], now))
    && SameState(r.rules[i], RuleAfterParent(sys, p, i, w.rules[p], w.rules[i], now))
    && r.rules[i].hasRun == (w.rules[i].hasRun || Begins(sys, p, w.rules[p], now))
  }

  /** The parent has not been updated yet. */
  predicate PairReady(sys: System, u: World, p: nat, i: nat, now: Timestamp) {
    Good(sys, u, now) && Pair(sys, p, i) && p < |u.rules| && i < |u.rules| && !u.rules[p].hasRun
  }

  /** What updating the parent makes of both. */
  lemma ParentUpdated(sys: System, w: World, p: nat, i: nat, now: Timestamp)
    requires PairReady(sys, w, p, i, now)
    ensures BothUpdated(sys, p, i, w, Update(sys, w, p, now), now)
  {
    if w.rules[p].enabled {
      UpdateWithoutParents(sys, w, p, now);
      LoggedStaysGood(sys, w, w, p, now);
      PairIsIsland(sys, p, i);
      var u := Logged(sys, w, p);
      if Launches(sys, u, p, now) {
        LaunchOnTarget(sys, u, p, i, now);
      } else {
        PlainOnTarget(sys, u, p, i, now);
        PlainByTime(sys, u, p, now);
      }
    }
  }

  /** Updating the rule runs its parent first, and evaluates the rule even if that has switched it
      off. */
  lemma RuleUpdated(sys: System, w: World, p: nat, i: nat, now: Timestamp)
    requires Good(sys, w, now) && Pair(sys, p, i) && p < |w.rules| && i < |w.rules| && NotYetRun(w.rules[i])
    ensures var x, r := Update(sys, w, p, now), Update(sys, w, i, now);
            SameState(r.rules[i], Looked(sys, i, x.rules[i], now)) && r.rules[p] == x.rules[p] && !NotYetRun(r.rules[p])
  {
    PairIsIsland(sys, p, i);
    RunsOne(sys, w, p, i, now);
    ChannelEvaluated(sys, Update(sys, w, p, now), i, now);
  }

  // ----- The step

  /** The two rules after the step. */
  predicate BothStepped(sys: System, p: nat, i: nat, d: Dyn, e: Dyn, r: World, now: Timestamp, ruleFirst: bool)
    requires WellFormed(sys) && p < |sys.configs| && i < |sys.configs| && DynOk(sys, p, d) && DynOk(sys, i, e)
    requires |r.rules| == |sys.configs| && Timely(sys.win, now)
  {
    && SameState(r.rules[p], ParentAfter(sys, p, d, now))
    && SameState(r.rules[i], RuleAfter(sys, p, i, d, e, now, ruleFirst))
  }

  lemma ParentThenRule(sys: System, u: World, v: World, p: nat, i: nat, now: Timestamp)
    requires PairReady(sys, u, p, i, now) && !u.rules[i].hasRun
    requires Good(sys, v, now) && SameOn(Update(sys, u, p, now), v, {p, i})
    ensures BothStepped(sys, p, i, u.rules[p], u.rules[i], Update(sys, v, i, now), now, false)
  {
    ParentUpdated(sys, u, p, i, now);
    AlreadyDone(sys, v, p, now);
    if NotYetRun(v.rules[i]) {
      RuleUpdated(sys, v, p, i, now);
    }
  }

  lemma AlreadyDone(sys: System, v: World, p: nat, now: Timestamp)
    requires Good(sys, v, now) && p < |v.rules| && !NotYetRun(v.rules[p])
    ensures Update(sys, v, p, now) == v
  {
  }

  lemma RuleThenParent(sys: System, u: World, v: World, p: nat, i: nat, now: Timestamp)
    requires PairReady(sys, u, p, i, now) && !u.rules[i].hasRun
    requires Good(sys, v, now) && SameOn(Update(sys, u, i, now), v, {p, i})
    ensures BothStepped(sys, p, i, u.rules[p], u.rules[i], Update(sys, v, p, now), now, true)
  {
    if u.rules[i].enabled {
      ParentUpdated(sys, u, p, i, now);
      RuleUpdated(sys, u, p, i, now);
      AlreadyDone(sys, v, p, now);
    } else {
      AlreadyDone(sys, u, i, now);
      ParentUpdated(sys, v, p, i, now);
    }
  }

  /** The position at which rule i is updated. */
  function Position(n: nat, d: Direction, i: nat): (k: nat)
    requires i < n
    ensures k < n && Indices(n, d)[k] == i
    ensures forall j :: 0 <= j < n && j != k ==> Indices(n, d)[j] != i
  {
    if d.Up? then i else n - 1 - i
  }

  /** The rule comes before its parent. */
  predicate ComesFirst(d: Direction, i: nat, p: nat) {
    if d.Up? then i < p else p < i
  }

  /** The two worlds in which a step updates the rules of an island. */
  lemma TwoInStep(sys: System, w: World, x: nat, y: nat, now: Timestamp, d: Direction) returns (u: World, v: World)
    requires WellFormed(sys) && Fit(sys, w) && Timely(sys.win, now) && Island(sys, {x, y})
    requires x < |w.rules| && y < |w.rules| && ComesFirst(d, x, y)
    ensures Good(sys, u, now)
    ensures u.rules[x] == w.rules[x].(hasRun := false) && u.rules[y] == w.rules[y].(hasRun := false)
    ensures Good(sys, v, now) && SameOn(Update(sys, u, x, now), v, {x, y})
    ensures SameOn(Update(sys, v, y, now), Step(sys, w, now, d), {x, y})
  {
    var c, n := Cleared(w), |w.rules|;
    u, v := TwoOfIsland(sys, c, Indices(n, d), Position(n, d, x), Position(n, d, y), now, {x, y});
    assert u.rules[x] == c.rules[x] && u.rules[y] == c.rules[y];
  }

  lemma MarksIgnored(sys: System, p: nat, i: nat, d: Dyn, e: Dyn, r: World, now: Timestamp, ruleFirst: bool)
    requires WellFormed(sys) && p < |sys.configs| && i < |sys.configs| && DynOk(sys, p, d) && DynOk(sys, i, e)
    requires |r.rules| == |sys.configs| && Timely(sys.win, now)
    requires BothStepped(sys, p, i, d.(hasRun := false), e.(hasRun := false), r, now, ruleFirst)
    ensures BothStepped(sys, p, i, d, e, r, now, ruleFirst)
  {
    ByState(sys, p, i, d, d.(hasRun := false), e, e.(hasRun := false), now);
    var f := RuleAfterParent(sys, p, i, d, e, now);
    var g := RuleAfterParent(sys, p, i, d.(hasRun := false), e.(hasRun := false), now);
    LookedByStart(sys, i, f, g, now);
  }

  /** What becomes of both depends on their states only. */
  lemma ByState(sys: System, p: nat, i: nat, d: Dyn, d': Dyn, e: Dyn, e': Dyn, now: Timestamp)
    requires WellFormed(sys) && p < |sys.configs| && i < |sys.configs| && Timely(sys.win, now)
    requires DynOk(sys, p, d) && DynOk(sys, p, d') && DynOk(sys, i, e) && DynOk(sys, i, e')
    requires SameState(d, d') && SameState(e, e')
    ensures Begins(sys, p, d, now) == Begins(sys, p, d', now)
    ensures SameState(ParentAfter(sys, p, d, now), ParentAfter(sys, p, d', now))
    ensures SameState(RuleAfterParent(sys, p, i, d, e, now), RuleAfterParent(sys, p, i, d', e', now))
  {
    LookedByStart(sys, p, d, d', now);
    LookedByStart(sys, p, Looked(sys, p, d, now), Looked(sys, p, d', now), now);
    var on := ParentAfter(sys, p, d, now).active;
    LookedByStart(sys, i, e.(enabled := on, start := EMPTY), e'.(enabled := on, start := EMPTY), now);
  }

  /** Exactly what a step makes of a rule and its parent. */
  lemma StepOfPair(sys: System, w: World, p: nat, i: nat, now: Timestamp, d: Direction)
    requires Fit(sys, w) && Timely(sys.win, now) && Pair(sys, p, i)
    ensures BothStepped(sys, p, i, w.rules[p], w.rules[i], Step(sys, w, now, d), now, ComesFirst(d, i, p))
  {
    PairIsIsland(sys, p, i);
    if ComesFirst(d, i, p) {
      assert {i, p} == {p, i};
      var u, v := TwoInStep(sys, w, i, p, now, d);
      RuleThenParent(sys, u, v, p, i, now);
    } else {
      var u, v := TwoInStep(sys, w, p, i, now, d);
      ParentThenRule(sys, u, v, p, i, now);
    }
    MarksIgnored(sys, p, i, w.rules[p], w.rules[i], Step(sys, w, now, d), now, ComesFirst(d, i, p));
  }

  /** The parent's action starts, but is stopped again, because it was looked at for the first time
      and its first period is over. */
  predicate Falters(sys: System, p: nat, d: Dyn, now: Timestamp)
    requires WellFormed(sys) && p < |sys.configs| && DynOk(sys, p, d) && Timely(sys.win, now)
  {
    Begins(sys, p, d, now) && !ParentAfter(sys, p, d, now).active
  }

  lemma BegunNeverFalters(sys: System, p: nat, d: Dyn, now: Timestamp)
    requires WellFormed(sys) && p < |sys.configs| && DynOk(sys, p, d) && Timely(sys.win, now) && HasBegun(sys, p, d, now)
    ensures !Falters(sys, p, d, now)
  {
    LookTwice(sys, p, d, now);
  }

  /** Visible before a step: what leaves rule i switched off with its action running. */
  predicate LeftRunning(sys: System, p: nat, i: nat, d: Dyn, e: Dyn, now: Timestamp, ruleFirst: bool)
    requires WellFormed(sys) && p < |sys.configs| && i < |sys.configs| && DynOk(sys, p, d) && DynOk(sys, i, e)
    requires Timely(sys.win, now)
  {
    var anew := Looked(sys, i, e.(start := EMPTY), now);
    if Falters(sys, p, d, now) then if ruleFirst && e.enabled then DueNow(sys, i, anew, now) else anew.active
    else if e.enabled then ruleFirst && Ends(sys, p, d, now) && DueNow(sys, i, e, now)
    else e.active && !Ends(sys, p, d, now) && !Begins(sys, p, d, now)
  }

  /** A step leaves the rule switched off with its action running exactly if
      - it was enabled, is updated before its parent, that parent's interval is over, and its own
        is not; or
      - it was left so before, and its parent neither starts nor stops; or
      - its parent starts and stops again in this step, and its own interval is not over. */
  lemma StepLeavesRunningIff(sys: System, w: World, p: nat, i: nat, now: Timestamp, d: Direction)
    requires Fit(sys, w) && Timely(sys.win, now) && Pair(sys, p, i)
    ensures var r := Step(sys, w, now, d).rules[i];
            !r.enabled && r.active <==> LeftRunning(sys, p, i, w.rules[p], w.rules[i], now, ComesFirst(d, i, p))
  {
    StepOfPair(sys, w, p, i, now, d);
    LeftRunningByRuleAfter(sys, p, i, w.rules[p], w.rules[i], now, ComesFirst(d, i, p));
  }

  lemma LeftRunningByRuleAfter(sys: System, p: nat, i: nat, d: Dyn, e: Dyn, now: Timestamp, ruleFirst: bool)
    requires WellFormed(sys) && p < |sys.configs| && i < |sys.configs| && DynOk(sys, p, d) && DynOk(sys, i, e)
    requires Timely(sys.win, now)
    ensures var r := RuleAfter(sys, p, i, d, e, now, ruleFirst);
            !r.enabled && r.active <==> LeftRunning(sys, p, i, d, e, now, ruleFirst)
  {
  }
}
