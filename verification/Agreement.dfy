/** Two worlds that have been looked at at different times, but agree on everything that a look
    at `now` can bring out. Looking at both now makes them go the same way. */
module Agreement {
  import opened Calendar
  import opened Periods
  import opened RuleTime
  import opened Network
  import opened Stepping
  import opened Steps

  predicate Alike(sys: System, i: nat, d: Dyn, e: Dyn, now: Timestamp)
    requires i < |sys.configs|
  {
    var s := sys.configs[i].schedule;
    && d.enabled == e.enabled && d.active == e.active && d.hasRun == e.hasRun
    && (d.start == EMPTY <==> e.start == EMPTY)
    && Tick(s, d.start, now) == Tick(s, e.start, now)
  }

  predicate Agree(sys: System, w: World, v: World, now: Timestamp)
    requires |w.rules| == |v.rules| == |sys.configs|
  {
    && w.channels == v.channels
    && forall i :: 0 <= i < |w.rules| ==> Alike(sys, i, w.rules[i], v.rules[i], now)
  }

  /** Both worlds hold together, and agree. */
  predicate Joined(sys: System, w: World, v: World, now: Timestamp) {
    WellFormed(sys) && Fit(sys, w) && Fit(sys, v) && Timely(sys.win, now) && Agree(sys, w, v, now)
  }

  lemma ReplacedAgrees(sys: System, w: World, v: World, i: nat, d: Dyn, e: Dyn, now: Timestamp)
    requires Joined(sys, w, v, now) && i < |w.rules| && DynOk(sys, i, d) && DynOk(sys, i, e)
    requires Alike(sys, i, d, e, now)
    ensures Joined(sys, w.(rules := w.rules[i := d]), v.(rules := v.rules[i := e]), now)
  {
  }

  lemma {:induction false} StopAgrees(sys: System, w: World, v: World, i: nat, now: Timestamp)
    requires Joined(sys, w, v, now) && i < |w.rules|
    ensures Joined(sys, Stop(sys, w, i), Stop(sys, v, i), now)
    decreases Height(sys, i)
  {
    assert Alike(sys, i, w.rules[i], v.rules[i], now);
    if w.rules[i].active && sys.configs[i].target.ActivatesRule? {
      var c := sys.configs[i].target.rule;
      assert TargetOk(sys, i);
      var w1 := w.(rules := w.rules[i := w.rules[i].(active := false)]);
      var v1 := v.(rules := v.rules[i := v.rules[i].(active := false)]);
      ReplacedAgrees(sys, w, v, i, w1.rules[i], v1.rules[i], now);
      assert Alike(sys, c, w1.rules[c], v1.rules[c], now);
      var w2 := w1.(rules := w1.rules[c := w1.rules[c].(enabled := false)]);
      var v2 := v1.(rules := v1.rules[c := v1.rules[c].(enabled := false)]);
      ReplacedAgrees(sys, w1, v1, c, w2.rules[c], v2.rules[c], now);
      StopAgrees(sys, w2, v2, c, now);
    }
  }

  lemma PrepareAgrees(sys: System, w: World, v: World, i: nat, now: Timestamp)
    requires Joined(sys, w, v, now) && i < |w.rules|
    ensures Joined(sys, Prepare(sys, w, i, now), Prepare(sys, v, i, now), now)
    ensures Prepare(sys, w, i, now).rules[i].start == Prepare(sys, v, i, now).rules[i].start
    ensures Prepare(sys, w, i, now).rules[i].active == Prepare(sys, v, i, now).rules[i].active
  {
    var s := sys.configs[i].schedule;
    assert Alike(sys, i, w.rules[i], v.rules[i], now);
    var start := NewStart(sys, i, w.rules[i], now);
    var w1 := if StopsFirst(s, w.rules[i], now) then Stop(sys, w, i) else w;
    var v1 := if StopsFirst(s, v.rules[i], now) then Stop(sys, v, i) else v;
    if StopsFirst(s, w.rules[i], now) {
      StopAgrees(sys, w, v, i, now);
    }
    assert Alike(sys, i, w1.rules[i], v1.rules[i], now);
    ReplacedAgrees(sys, w1, v1, i, w1.rules[i].(start := start), v1.rules[i].(start := start), now);
  }

  lemma StartedAgrees(sys: System, w: World, v: World, i: nat, now: Timestamp)
    requires Joined(sys, w, v, now) && i < |w.rules|
    ensures Joined(sys, Started(sys, w, i, now), Started(sys, v, i, now), now)
  {
    PrepareAgrees(sys, w, v, i, now);
    var a, b := Prepare(sys, w, i, now), Prepare(sys, v, i, now);
    assert Alike(sys, i, a.rules[i], b.rules[i], now);
    ReplacedAgrees(sys, a, b, i, a.rules[i].(active := true), b.rules[i].(active := true), now);
  }

  lemma EnabledAgrees(sys: System, w: World, v: World, c: nat, now: Timestamp)
    requires Joined(sys, w, v, now) && c < |w.rules|
    ensures Joined(sys, Enabled(sys, w, c), Enabled(sys, v, c), now)
  {
    assert Alike(sys, c, w.rules[c], v.rules[c], now);
    ReplacedAgrees(sys, w, v, c, w.rules[c].(enabled := true, start := EMPTY), v.rules[c].(enabled := true, start := EMPTY), now);
  }

  lemma MarkedAgrees(sys: System, w: World, v: World, i: nat, now: Timestamp)
    requires Joined(sys, w, v, now) && i < |w.rules|
    ensures Joined(sys, Marked(sys, w, i, now), Marked(sys, v, i, now), now)
  {
    assert Alike(sys, i, w.rules[i], v.rules[i], now);
    var d, e := w.rules[i].(lastUpdate := now, hasRun := true), v.rules[i].(lastUpdate := now, hasRun := true);
    ReplacedAgrees(sys, w, v, i, d, e, now);
  }

  lemma PlainAgrees(sys: System, w: World, v: World, i: nat, now: Timestamp)
    requires Joined(sys, w, v, now) && Good(sys, w, now) && Good(sys, v, now) && i < |w.rules|
    requires !Launches(sys, w, i, now) && !Launches(sys, v, i, now)
    ensures Joined(sys, EvaluatePlainly(sys, w, i, now), EvaluatePlainly(sys, v, i, now), now)
  {
    var a, b := Prepare(sys, w, i, now), Prepare(sys, v, i, now);
    PrepareAgrees(sys, w, v, i, now);
    var act := ActiveAt(sys.configs[i].schedule, a.rules[i].start, now);
    if act == a.rules[i].active {
      MarkedAgrees(sys, a, b, i, now);
    } else if !act {
      StopAgrees(sys, a, b, i, now);
      MarkedAgrees(sys, Stop(sys, a, i), Stop(sys, b, i), i, now);
    } else {
      StartedAgrees(sys, w, v, i, now);
      var x, y := Switched(sys, Started(sys, w, i, now), i), Switched(sys, Started(sys, v, i, now), i);
      assert Joined(sys, x, y, now);
      MarkedAgrees(sys, x, y, i, now);
    }
  }

  lemma LaunchesAlike(sys: System, w: World, v: World, i: nat, now: Timestamp)
    requires Joined(sys, w, v, now) && Good(sys, w, now) && Good(sys, v, now) && i < |w.rules|
    ensures Launches(sys, w, i, now) == Launches(sys, v, i, now)
  {
    assert Alike(sys, i, w.rules[i], v.rules[i], now);
  }

  /** Worlds in which the parents of rule i are done. */
  predicate Poised(sys: System, w: World, v: World, i: nat, now: Timestamp) {
    && Joined(sys, w, v, now) && Good(sys, w, now) && Good(sys, v, now) && i < |w.rules|
    && ParentsDone(sys, w, i) && ParentsDone(sys, v, i)
  }

  lemma {:induction false} EvaluateAgrees(sys: System, w: World, v: World, i: nat, now: Timestamp)
    requires Poised(sys, w, v, i, now)
    ensures Joined(sys, Evaluate(sys, w, i, now), Evaluate(sys, v, i, now), now)
    decreases TotalWork(sys, w, now), sys.order[i], 1, 0
  {
    var a, b := Logged(sys, w, i), Logged(sys, v, i);
    LoggedStaysGood(sys, w, a, i, now);
    LoggedStaysGood(sys, v, b, i, now);
    LaunchesAlike(sys, a, b, i, now);
    if Launches(sys, a, i, now) {
      var c := sys.configs[i].target.rule;
      Launch(sys, a, i, c, now);
      Launch(sys, b, i, c, now);
      StartedAgrees(sys, a, b, i, now);
      var x, y := Enabled(sys, Started(sys, a, i, now), c), Enabled(sys, Started(sys, b, i, now), c);
      EnabledAgrees(sys, Started(sys, a, i, now), Started(sys, b, i, now), c, now);
      UpdateWithParentsAgrees(sys, x, y, c, now);
      MarkedAgrees(sys, UpdateWithParents(sys, x, c, now), UpdateWithParents(sys, y, c, now), i, now);
    } else {
      PlainAgrees(sys, a, b, i, now);
    }
  }

  lemma {:induction false} RunParentsAgrees(sys: System, w: World, v: World, i: nat, now: Timestamp, k: nat)
    requires Joined(sys, w, v, now) && Good(sys, w, now) && Good(sys, v, now) && i < |w.rules|
    requires k <= |Parents(sys, i)| && ParentsDoneTo(sys, w, i, k) && ParentsDoneTo(sys, v, i, k)
    ensures Joined(sys, RunParents(sys, w, i, now, k), RunParents(sys, v, i, now, k), now)
    decreases TotalWork(sys, w, now), sys.order[i], 2, |Parents(sys, i)| - k
  {
    if k < |Parents(sys, i)| {
      var p := Parents(sys, i)[k];
      ParentComesFirst(sys, p, i);
      assert Alike(sys, p, w.rules[p], v.rules[p], now);
      if w.rules[p].hasRun {
        RunParentsAgrees(sys, w, v, i, now, k + 1);
      } else {
        var a, b := Update(sys, w, p, now), Update(sys, v, p, now);
        ParentsStayDone(sys, w, a, i, k, now);
        ParentsStayDone(sys, v, b, i, k, now);
        UpdateAgrees(sys, w, v, p, now);
        RunParentsAgrees(sys, a, b, i, now, k + 1);
      }
    }
  }

  lemma {:induction false} UpdateWithParentsAgrees(sys: System, w: World, v: World, i: nat, now: Timestamp)
    requires Joined(sys, w, v, now) && Good(sys, w, now) && Good(sys, v, now) && i < |w.rules|
    ensures Joined(sys, UpdateWithParents(sys, w, i, now), UpdateWithParents(sys, v, i, now), now)
    decreases TotalWork(sys, w, now), sys.order[i], 3, 0
  {
    RunParentsAgrees(sys, w, v, i, now, 0);
    EvaluateAgrees(sys, RunParents(sys, w, i, now, 0), RunParents(sys, v, i, now, 0), i, now);
  }

  lemma {:induction false} UpdateAgrees(sys: System, w: World, v: World, i: nat, now: Timestamp)
    requires Joined(sys, w, v, now) && Good(sys, w, now) && Good(sys, v, now) && i < |w.rules|
    ensures Joined(sys, Update(sys, w, i, now), Update(sys, v, i, now), now)
    decreases TotalWork(sys, w, now), sys.order[i], 4, 0
  {
    assert Alike(sys, i, w.rules[i], v.rules[i], now);
    if w.rules[i].enabled && !w.rules[i].hasRun {
      UpdateWithParentsAgrees(sys, w, v, i, now);
    }
  }

  // ----- Whole steps

  lemma {:induction false} UpdateEachAgrees(sys: System, w: World, v: World, indices: seq<nat>, k: nat, now: Timestamp)
    requires Joined(sys, w, v, now) && Good(sys, w, now) && Good(sys, v, now) && InRange(indices, |w.rules|) && k <= |indices|
    ensures Joined(sys, UpdateEach(sys, w, indices, k, now), UpdateEach(sys, v, indices, k, now), now)
    decreases k
  {
    if k > 0 {
      var j := Before(k);
      UpdateEachAgrees(sys, w, v, indices, j, now);
      UpdateAgrees(sys, UpdateEach(sys, w, indices, j, now), UpdateEach(sys, v, indices, j, now), indices[j], now);
    }
  }

  /** Agreement between steps, when it does not matter which rules the last one evaluated. */
  predicate Matching(sys: System, w: World, v: World, now: Timestamp) {
    Joined(sys, Cleared(w), Cleared(v), now)
  }

  lemma JoinedIsMatching(sys: System, w: World, v: World, now: Timestamp)
    requires Joined(sys, w, v, now)
    ensures Matching(sys, w, v, now)
  {
    forall i | 0 <= i < |w.rules|
      ensures Alike(sys, i, Cleared(w).rules[i], Cleared(v).rules[i], now)
    {
      assert Alike(sys, i, w.rules[i], v.rules[i], now);
    }
  }

  /** A step keeps agreement. */
  lemma StepAgrees(sys: System, w: World, v: World, now: Timestamp, d: Direction)
    requires Matching(sys, w, v, now) && Fit(sys, w) && Fit(sys, v)
    ensures Matching(sys, Step(sys, w, now, d), Step(sys, v, now, d), now)
  {
    UpdateEachAgrees(sys, Cleared(w), Cleared(v), Indices(|w.rules|, d), |w.rules|, now);
    JoinedIsMatching(sys, Step(sys, w, now, d), Step(sys, v, now, d), now);
  }

  lemma AlikeLater(sys: System, i: nat, d: Dyn, e: Dyn, now: Timestamp, later: Timestamp)
    requires WellFormed(sys) && i < |sys.configs| && DynOk(sys, i, d) && DynOk(sys, i, e)
    requires Timely(sys.win, now) && now <= later && Alike(sys, i, d, e, now)
    ensures Alike(sys, i, d, e, later)
  {
    if d.start != EMPTY {
      TickTwice(sys.configs[i].schedule, sys.win, d.start, now, later);
      TickTwice(sys.configs[i].schedule, sys.win, e.start, now, later);
    }
  }

  /** What agrees now agrees at every later time. */
  lemma MatchingLater(sys: System, w: World, v: World, now: Timestamp, later: Timestamp)
    requires Matching(sys, w, v, now) && now <= later && Timely(sys.win, later)
    ensures Matching(sys, w, v, later)
  {
    forall i | 0 <= i < |w.rules|
      ensures Alike(sys, i, Cleared(w).rules[i], Cleared(v).rules[i], later)
    {
      AlikeLater(sys, i, Cleared(w).rules[i], Cleared(v).rules[i], now, later);
    }
  }
}
