/** Which rules a reset leaves off although they are loaded as on: a rule that is reset before one
    whose running action had switched it on is switched off again when that one is stopped. */
module Resetting {
  import opened Periods
  import opened RuleTime
  import opened Network
  import opened Steps
  import opened Device

  /** Stopping rule g stops its way down to rule j: an unbroken chain of running rules leads from
      g to a parent of j. */
  predicate Reaches(sys: System, w: World, g: nat, j: nat)
    requires WellFormed(sys) && |w.rules| == |sys.configs| && g < |w.rules|
    decreases Height(sys, g)
  {
    w.rules[g].active && sys.configs[g].target.ActivatesRule? &&
    (sys.configs[g].target.rule == j || (assert TargetOk(sys, g); Reaches(sys, w, sys.configs[g].target.rule, j)))
  }

  lemma {:induction false} ReachesLater(sys: System, w: World, g: nat, j: nat)
    requires WellFormed(sys) && |w.rules| == |sys.configs| && g < |w.rules| && Reaches(sys, w, g, j)
    ensures j < |w.rules| && sys.order[g] < sys.order[j]
    decreases Height(sys, g)
  {
    assert TargetOk(sys, g);
    if sys.configs[g].target.rule != j {
      ReachesLater(sys, w, sys.configs[g].target.rule, j);
    }
  }

  /** What leads to a rule on the way leads on. */
  lemma {:induction false} ReachesOnward(sys: System, w: World, g: nat, m: nat, j: nat)
    requires WellFormed(sys) && |w.rules| == |sys.configs| && g < |w.rules| && m < |w.rules|
    requires Reaches(sys, w, g, m) && Reaches(sys, w, m, j)
    ensures Reaches(sys, w, g, j)
    decreases Height(sys, g)
  {
    assert TargetOk(sys, g);
    if sys.configs[g].target.rule != m {
      ReachesOnward(sys, w, sys.configs[g].target.rule, m, j);
    }
  }

  /** A chain that leads to j survives in v when every running rule on it still runs there. */
  lemma {:induction false} ChainSurvives(sys: System, w: World, v: World, g: nat, j: nat)
    requires WellFormed(sys) && |w.rules| == |v.rules| == |sys.configs| && g < |w.rules|
    requires forall m :: 0 <= m < |w.rules| && Reaches(sys, w, m, j) ==> v.rules[m].active
    ensures Reaches(sys, w, g, j) ==> Reaches(sys, v, g, j)
    decreases Height(sys, g)
  {
    if Reaches(sys, w, g, j) && sys.configs[g].target.rule != j {
      assert TargetOk(sys, g);
      ChainSurvives(sys, w, v, sys.configs[g].target.rule, j);
    }
  }

  /** With fewer running rules there are fewer chains. */
  lemma {:induction false} FewerChains(sys: System, w: World, v: World, g: nat, j: nat)
    requires WellFormed(sys) && |w.rules| == |v.rules| == |sys.configs| && g < |w.rules|
    requires forall m :: 0 <= m < |w.rules| && sys.order[m] >= sys.order[g] && v.rules[m].active ==> w.rules[m].active
    ensures Reaches(sys, v, g, j) ==> Reaches(sys, w, g, j)
    decreases Height(sys, g)
  {
    if Reaches(sys, v, g, j) && sys.configs[g].target.rule != j {
      assert TargetOk(sys, g);
      FewerChains(sys, w, v, sys.configs[g].target.rule, j);
    }
  }

  /** Exactly what stopping rule g does to rule j. */
  lemma {:induction false} StopExact(sys: System, w: World, g: nat, j: nat)
    requires WellFormed(sys) && Fit(sys, w) && g < |w.rules| && j < |w.rules|
    ensures var r := Stop(sys, w, g).rules[j];
            && r.active == (w.rules[j].active && j != g && !Reaches(sys, w, g, j))
            && r.enabled == (w.rules[j].enabled && !Reaches(sys, w, g, j))
            && r.start == w.rules[j].start
    decreases Height(sys, g)
  {
    if w.rules[g].active && sys.configs[g].target.ActivatesRule? {
      var c := sys.configs[g].target.rule;
      assert TargetOk(sys, g);
      var v := w.(rules := w.rules[g := w.rules[g].(active := false)]);
      var u := v.(rules := v.rules[c := v.rules[c].(enabled := false)]);
      assert Stop(sys, w, g) == Stop(sys, u, c);
      StopExact(sys, u, c, j);
      FewerChains(sys, w, u, c, j);
      FewerChains(sys, u, w, c, j);
      if Reaches(sys, w, c, j) {
        ReachesLater(sys, w, c, j);
      }
    }
  }

  /** And to the channels: it puts the channel of every rule that it stops into the state for a stopped
      action, and touches no other. */
  lemma {:induction false} StopSwitches(sys: System, w: World, g: nat, j: nat, c: nat)
    requires WellFormed(sys) && Fit(sys, w) && g < |w.rules| && j < |w.rules| && sys.configs[j].target == Channel(c)
    requires w.rules[j].active && (j == g || Reaches(sys, w, g, j))
    ensures c < |w.channels| && Stop(sys, w, g).channels == w.channels[c := !sys.configs[j].whenRunning]
    decreases Height(sys, g)
  {
    assert TargetOk(sys, j);
    if j != g {
      var k := sys.configs[g].target.rule;
      assert TargetOk(sys, g);
      var v := w.(rules := w.rules[g := w.rules[g].(active := false)]);
      var u := v.(rules := v.rules[k := v.rules[k].(enabled := false)]);
      FewerChains(sys, u, w, k, j);
      if j != k {
        ReachesLater(sys, w, k, j);
      }
      StopSwitches(sys, u, k, j, c);
      assert Stop(sys, w, g) == Stop(sys, u, k);
    }
  }

  lemma {:induction false} StopSwitchesNothing(sys: System, w: World, g: nat)
    requires WellFormed(sys) && Fit(sys, w) && g < |w.rules|
    requires forall j :: 0 <= j < |w.rules| && w.rules[j].active && (j == g || Reaches(sys, w, g, j)) ==>
               !sys.configs[j].target.Channel?
    ensures Stop(sys, w, g).channels == w.channels
    decreases Height(sys, g)
  {
    if w.rules[g].active && sys.configs[g].target.ActivatesRule? {
      var k := sys.configs[g].target.rule;
      assert TargetOk(sys, g);
      var v := w.(rules := w.rules[g := w.rules[g].(active := false)]);
      var u := v.(rules := v.rules[k := v.rules[k].(enabled := false)]);
      forall j | 0 <= j < |u.rules| && u.rules[j].active && (j == k || Reaches(sys, u, k, j))
        ensures !sys.configs[j].target.Channel?
      {
        FewerChains(sys, w, u, k, j);
      }
      StopSwitchesNothing(sys, u, k);
      assert Stop(sys, w, g) == Stop(sys, u, k);
    }
  }

  // ----- Resetting

  /** The reset of rule g stops rule j, if that is running. */
  predicate Stops(sys: System, w: World, g: nat, j: nat)
    requires WellFormed(sys) && |w.rules| == |sys.configs| && g < |w.rules|
  {
    g == j || Reaches(sys, w, g, j)
  }

  /** No rule before the n-th stops rule j when it is reset. */
  predicate Spared(sys: System, w: World, n: nat, j: nat)
    requires WellFormed(sys) && |w.rules| == |sys.configs| && n <= |w.rules|
  {
    forall g :: 0 <= g < n ==> !Stops(sys, w, g, j)
  }

  /** A running rule still runs after the first n have been reset exactly if it is none of them
      and no chain of running rules leads to it from them. */
  predicate RunsSpared(sys: System, w: World, v: World, n: nat)
    requires WellFormed(sys) && |w.rules| == |v.rules| == |sys.configs| && n <= |w.rules|
  {
    forall j :: 0 <= j < |w.rules| ==> v.rules[j].active == (w.rules[j].active && Spared(sys, w, n, j))
  }

  /** A chain that is there now and leads to a rule that still runs was not broken. */
  lemma ChainsToRunning(sys: System, w: World, v: World, n: nat, j: nat)
    requires WellFormed(sys) && |w.rules| == |v.rules| == |sys.configs| && n < |w.rules| && j < |w.rules|
    requires RunsSpared(sys, w, v, n) && Spared(sys, w, n, j)
    ensures Reaches(sys, v, n, j) <==> Reaches(sys, w, n, j)
  {
    FewerChains(sys, w, v, n, j);
    forall m | 0 <= m < |w.rules| && Reaches(sys, w, m, j)
      ensures v.rules[m].active
    {
      forall g | 0 <= g < n
        ensures !Stops(sys, w, g, m)
      {
        assert !Stops(sys, w, g, j);
        if Reaches(sys, w, g, m) {
          ReachesOnward(sys, w, g, m, j);
        }
      }
    }
    ChainSurvives(sys, w, v, n, j);
  }

  lemma ResetExact(sys: System, v: World, n: nat, j: nat)
    requires WellFormed(sys) && Fit(sys, v) && n < |v.rules| && j < |v.rules|
    ensures var r := Reset(sys, v, n).rules[j];
            && r.active == (v.rules[j].active && j != n && !Reaches(sys, v, n, j))
            && r.enabled == if j == n then sys.configs[n].enabledOnStart else v.rules[j].enabled && !Reaches(sys, v, n, j)
  {
    var u := v.(rules := v.rules[n := v.rules[n].(start := EMPTY)]);
    StopExact(sys, u, n, j);
    FewerChains(sys, v, u, n, j);
    FewerChains(sys, u, v, n, j);
  }

  lemma {:induction false} ResetFirstRuns(sys: System, w: World, n: nat)
    requires WellFormed(sys) && Fit(sys, w) && n <= |w.rules|
    ensures RunsSpared(sys, w, ResetFirst(sys, w, n), n)
  {
    if n > 0 {
      var m := Before(n);
      var v := ResetFirst(sys, w, m);
      ResetFirstRuns(sys, w, m);
      forall j | 0 <= j < |w.rules|
        ensures Reset(sys, v, m).rules[j].active == (w.rules[j].active && Spared(sys, w, n, j))
      {
        ResetExact(sys, v, m, j);
        SparedOneMore(sys, w, m, n, j);
        if Spared(sys, w, m, j) {
          ChainsToRunning(sys, w, v, m, j);
        }
      }
    }
  }

  lemma SparedOneMore(sys: System, w: World, m: nat, n: nat, j: nat)
    requires WellFormed(sys) && |w.rules| == |sys.configs| && n <= |w.rules| && n > 0 && m == Before(n)
    ensures Spared(sys, w, n, j) <==> Spared(sys, w, m, j) && !Stops(sys, w, m, j)
  {
  }

  // ----- What is left off

  /** A parent of rule i still runs when the first k rules have been reset, but not any more when
      the first n have. */
  predicate ParentStopped(sys: System, w: World, i: nat, k: nat, n: nat)
    requires WellFormed(sys) && |w.rules| == |sys.configs| && k <= |w.rules| && n <= |w.rules|
  {
    exists p :: 0 <= p < |w.rules| && IsParent(sys, p, i) && w.rules[p].active && Spared(sys, w, k, p) && !Spared(sys, w, n, p)
  }

  /** A chain leads to a rule through one of its running parents. */
  lemma {:induction false} ReachesViaParent(sys: System, w: World, g: nat, j: nat)
    requires WellFormed(sys) && |w.rules| == |sys.configs| && g < |w.rules|
    ensures Reaches(sys, w, g, j) <==>
            exists p :: 0 <= p < |w.rules| && IsParent(sys, p, j) && w.rules[p].active && (p == g || Reaches(sys, w, g, p))
    decreases Height(sys, g)
  {
    if w.rules[g].active && sys.configs[g].target.ActivatesRule? {
      var c := sys.configs[g].target.rule;
      assert TargetOk(sys, g);
      if c == j {
        assert IsParent(sys, g, j);
      } else {
        ReachesViaParent(sys, w, c, j);
        if Reaches(sys, w, c, j) {
          var p :| 0 <= p < |w.rules| && IsParent(sys, p, j) && w.rules[p].active && (p == c || Reaches(sys, w, c, p));
          assert Reaches(sys, w, g, p);
        }
      }
    }
  }

  /** The reset of rule n switches rule i off exactly if it stops a parent that still runs. */
  lemma SwitchedOffBy(sys: System, w: World, v: World, i: nat, n: nat, next: nat)
    requires WellFormed(sys) && |w.rules| == |v.rules| == |sys.configs| && n < |w.rules| && next > 0 && n == Before(next)
    requires RunsSpared(sys, w, v, n)
    ensures Reaches(sys, v, n, i) <==> ParentStopped(sys, w, i, n, next)
  {
    ReachesViaParent(sys, v, n, i);
    forall p | 0 <= p < |w.rules| && IsParent(sys, p, i)
      ensures v.rules[p].active && (p == n || Reaches(sys, v, n, p))
         <==> w.rules[p].active && Spared(sys, w, n, p) && !Spared(sys, w, next, p)
    {
      SparedOneMore(sys, w, n, next, p);
      if Spared(sys, w, n, p) {
        ChainsToRunning(sys, w, v, n, p);
      }
    }
  }

  lemma ParentStoppedOneMore(sys: System, w: World, i: nat, k: nat, n: nat, next: nat)
    requires WellFormed(sys) && |w.rules| == |sys.configs| && next <= |w.rules| && next > 0 && n == Before(next) && k <= n
    ensures ParentStopped(sys, w, i, k, next) <==> ParentStopped(sys, w, i, k, n) || ParentStopped(sys, w, i, n, next)
  {
    forall p | 0 <= p < |w.rules|
      ensures Spared(sys, w, next, p) ==> Spared(sys, w, n, p)
      ensures Spared(sys, w, n, p) ==> Spared(sys, w, k, p)
    {
      SparedOneMore(sys, w, n, next, p);
    }
  }

  lemma {:induction false} ResetFirstExact(sys: System, w: World, i: nat, k: nat, n: nat)
    requires WellFormed(sys) && Fit(sys, w) && i < n <= |w.rules| && k == i + 1
    ensures ResetFirst(sys, w, n).rules[i].enabled == (sys.configs[i].enabledOnStart && !ParentStopped(sys, w, i, k, n))
  {
    var m := Before(n);
    var v := ResetFirst(sys, w, m);
    ResetExact(sys, v, m, i);
    if m != i {
      ResetFirstRuns(sys, w, m);
      ResetFirstExact(sys, w, i, k, m);
      SwitchedOffBy(sys, w, v, i, m, n);
      ParentStoppedOneMore(sys, w, i, k, m, n);
    }
  }

  /** Every rule that stops rule p when it is reset comes after rule i. */
  predicate StoppedAfter(sys: System, w: World, p: nat, i: nat)
    requires WellFormed(sys) && |w.rules| == |sys.configs|
  {
    forall q :: 0 <= q < |w.rules| && Stops(sys, w, q, p) ==> i < q
  }

  /** A parent of rule i runs, and every rule from which a chain of running rules leads to it, the
      parent itself included, comes after rule i. */
  predicate LeftOff(sys: System, w: World, i: nat)
    requires WellFormed(sys) && |w.rules| == |sys.configs|
  {
    exists p :: 0 <= p < |w.rules| && IsParent(sys, p, i) && w.rules[p].active && StoppedAfter(sys, w, p, i)
  }

  /** After a reset every rule is as enabled as it was loaded, except exactly those that are left
      off. */
  lemma ResetRestoresIff(sys: System, w: World, i: nat)
    requires WellFormed(sys) && Fit(sys, w) && i < |w.rules|
    ensures ResetAll(sys, w).rules[i].enabled == (sys.configs[i].enabledOnStart && !LeftOff(sys, w, i))
  {
    var n := |w.rules|;
    ResetFirstExact(sys, w, i, i + 1, n);
    forall p | 0 <= p < n
      ensures !Spared(sys, w, n, p)
      ensures Spared(sys, w, i + 1, p) <==> StoppedAfter(sys, w, p, i)
    {
      assert Stops(sys, w, p, p);
    }
  }

  /** A rule without parents is never left off. */
  lemma ResetRestoresParentless(sys: System, w: World, i: nat)
    requires WellFormed(sys) && Fit(sys, w) && i < |w.rules| && Parents(sys, i) == []
    ensures ResetAll(sys, w).rules[i].enabled == sys.configs[i].enabledOnStart
  {
    ResetRestoresIff(sys, w, i);
    forall p | 0 <= p < |w.rules|
      ensures !IsParent(sys, p, i)
    {
      assert p !in Parents(sys, i);
    }
  }

  // ----- A reset that leaves a rule off

  function PairSchedule(): Schedule {
    Schedule(Infinite, Seconds, [Offsets(0, 10)], EMPTY)
  }

  function PairWindow(): Window {
    Window(-ONE_WEEK, 0x7000_0000)
  }

  /** Rule 1 switches rule 0 on, which is loaded as on. */
  function PairSystem(): System {
    System([Config(PairSchedule(), true, true, NoTarget), Config(PairSchedule(), true, true, ActivatesRule(0))],
           [1, 0], 0, PairWindow())
  }

  /** Rule 1 is running. */
  function PairWorld(): World {
    World([Dyn(true, 0, 0, true, true), Dyn(true, 0, 0, true, true)], [], [])
  }

  lemma PairFits()
    ensures Fits(PairSchedule(), PairWindow())
  {
  }

  lemma PairIsWellFormed()
    ensures WellFormed(PairSystem()) && Fit(PairSystem(), PairWorld())
  {
    PairFits();
    ParentsBounded(PairSystem(), 0);
    ParentsBounded(PairSystem(), 1);
    assert TargetOk(PairSystem(), 0) && TargetOk(PairSystem(), 1);
  }

  lemma ResetLeavesOff()
    ensures WellFormed(PairSystem()) && Fit(PairSystem(), PairWorld())
    ensures PairSystem().configs[0].enabledOnStart && !ResetAll(PairSystem(), PairWorld()).rules[0].enabled
  {
    var sys, w := PairSystem(), PairWorld();
    PairIsWellFormed();
    assert IsParent(sys, 1, 0) && w.rules[1].active && !Stops(sys, w, 0, 1);
    ResetRestoresIff(sys, w, 0);
  }
}
