/** Groups of rules that no rule outside switches and that switch none outside: whatever is done to
    the other rules leaves them as they are. */
module Islands {
  import opened Calendar
  import opened RuleTime
  import opened Network
  import opened Stepping
  import opened Steps

  predicate Island(sys: System, s: set<nat>) {
    forall j :: 0 <= j < |sys.configs| && sys.configs[j].target.ActivatesRule? ==>
      (j in s <==> sys.configs[j].target.rule in s)
  }

  predicate SameOn(w: World, v: World, s: set<nat>) {
    |w.rules| == |v.rules| && forall i :: 0 <= i < |w.rules| && i in s ==> v.rules[i] == w.rules[i]
  }

  lemma {:induction false} StopElsewhere(sys: System, w: World, j: nat, s: set<nat>)
    requires WellFormed(sys) && Fit(sys, w) && Island(sys, s) && j < |w.rules| && j !in s
    ensures SameOn(w, Stop(sys, w, j), s)
    decreases Height(sys, j)
  {
    if w.rules[j].active && sys.configs[j].target.ActivatesRule? {
      var c := sys.configs[j].target.rule;
      assert TargetOk(sys, j);
      var v := w.(rules := w.rules[j := w.rules[j].(active := false)]);
      var u := v.(rules := v.rules[c := v.rules[c].(enabled := false)]);
      assert SameOn(w, u, s);
      StopElsewhere(sys, u, c, s);
      assert Stop(sys, w, j) == Stop(sys, u, c);
    }
  }

  lemma PrepareElsewhere(sys: System, w: World, j: nat, now: Timestamp, s: set<nat>)
    requires WellFormed(sys) && Fit(sys, w) && Island(sys, s) && Timely(sys.win, now) && j < |w.rules| && j !in s
    ensures SameOn(w, Prepare(sys, w, j, now), s)
  {
    StopElsewhere(sys, w, j, s);
  }

  lemma PlainElsewhere(sys: System, w: World, j: nat, now: Timestamp, s: set<nat>)
    requires Good(sys, w, now) && Island(sys, s) && j < |w.rules| && j !in s && !Launches(sys, w, j, now)
    ensures SameOn(w, EvaluatePlainly(sys, w, j, now), s)
  {
    PrepareElsewhere(sys, w, j, now, s);
    StopElsewhere(sys, Prepare(sys, w, j, now), j, s);
  }

  lemma LaunchElsewhere(sys: System, w: World, j: nat, k: nat, now: Timestamp, s: set<nat>)
    requires Good(sys, w, now) && Island(sys, s) && j < |w.rules| && j !in s && k < |w.rules| && IsParent(sys, j, k)
    ensures k !in s && SameOn(w, Enabled(sys, Started(sys, w, j, now), k), s)
  {
    PrepareElsewhere(sys, w, j, now, s);
  }

  lemma ParentElsewhere(sys: System, p: nat, j: nat, s: set<nat>)
    requires WellFormed(sys) && Island(sys, s) && p in Parents(sys, j) && j !in s
    ensures p < |sys.configs| && p !in s
  {
    assert IsParent(sys, p, j);
  }

  lemma LaunchedElsewhere(sys: System, w: World, u: World, y: World, z: World, j: nat, now: Timestamp, s: set<nat>)
    requires WellFormed(sys) && Fit(sys, z) && j < |z.rules| && j !in s
    requires SameOn(w, u, s) && SameOn(u, y, s) && SameOn(y, z, s)
    ensures SameOn(w, Marked(sys, z, j, now), s)
  {
  }

  lemma {:induction false} EvaluateElsewhere(sys: System, w: World, j: nat, now: Timestamp, s: set<nat>)
    requires Good(sys, w, now) && Island(sys, s) && j < |w.rules| && j !in s && ParentsDone(sys, w, j)
    ensures SameOn(w, Evaluate(sys, w, j, now), s)
    decreases TotalWork(sys, w, now), sys.order[j], 1, 0
  {
    var u := Logged(sys, w, j);
    LoggedStaysGood(sys, w, u, j, now);
    if Launches(sys, u, j, now) {
      var k := sys.configs[j].target.rule;
      Launch(sys, u, j, k, now);
      LaunchElsewhere(sys, u, j, k, now, s);
      var y := Enabled(sys, Started(sys, u, j, now), k);
      UpdateWithParentsElsewhere(sys, y, k, now, s);
      LaunchedElsewhere(sys, w, u, y, UpdateWithParents(sys, y, k, now), j, now, s);
    } else {
      PlainElsewhere(sys, u, j, now, s);
    }
  }

  lemma {:induction false} RunParentsElsewhere(sys: System, w: World, j: nat, now: Timestamp, k: nat, s: set<nat>)
    requires Good(sys, w, now) && Island(sys, s) && j < |w.rules| && j !in s
    requires k <= |Parents(sys, j)| && ParentsDoneTo(sys, w, j, k)
    ensures SameOn(w, RunParents(sys, w, j, now, k), s)
    decreases TotalWork(sys, w, now), sys.order[j], 2, |Parents(sys, j)| - k
  {
    if k < |Parents(sys, j)| {
      var p, m := Parents(sys, j)[k], k + 1;
      ParentComesFirst(sys, p, j);
      ParentElsewhere(sys, p, j, s);
      if !w.rules[p].hasRun {
        UpdateElsewhere(sys, w, p, now, s);
      }
      RunParentsOnward(sys, w, j, now, k, m);
      RunParentsElsewhere(sys, WithParent(sys, w, j, now, k), j, now, m, s);
    }
  }

  lemma {:induction false} UpdateWithParentsElsewhere(sys: System, w: World, j: nat, now: Timestamp, s: set<nat>)
    requires Good(sys, w, now) && Island(sys, s) && j < |w.rules| && j !in s
    ensures SameOn(w, UpdateWithParents(sys, w, j, now), s)
    decreases TotalWork(sys, w, now), sys.order[j], 3, 0
  {
    RunParentsElsewhere(sys, w, j, now, 0, s);
    EvaluateElsewhere(sys, RunParents(sys, w, j, now, 0), j, now, s);
  }

  /** Updating a rule outside the island changes no rule on it. */
  lemma {:induction false} UpdateElsewhere(sys: System, w: World, j: nat, now: Timestamp, s: set<nat>)
    requires Good(sys, w, now) && Island(sys, s) && j < |w.rules| && j !in s
    ensures SameOn(w, Update(sys, w, j, now), s)
    decreases TotalWork(sys, w, now), sys.order[j], 4, 0
  {
    if w.rules[j].enabled && !w.rules[j].hasRun {
      UpdateWithParentsElsewhere(sys, w, j, now, s);
    }
  }

  /** Neither does updating several, one after the other. */
  lemma {:induction false} SomeElsewhere(sys: System, c: World, indices: seq<nat>, k: nat, m: nat, now: Timestamp, s: set<nat>)
    requires Good(sys, c, now) && Island(sys, s) && InRange(indices, |c.rules|) && k <= m <= |indices|
    requires forall j :: k <= j < m ==> indices[j] !in s
    ensures SameOn(UpdateEach(sys, c, indices, k, now), UpdateEach(sys, c, indices, m, now), s)
    decreases m
  {
    if k < m {
      var l := Before(m);
      var v := UpdateEach(sys, c, indices, l, now);
      SomeElsewhere(sys, c, indices, k, l, now, s);
      OneElsewhere(sys, c, indices, l, m, now, s);
      SameOnTwice(UpdateEach(sys, c, indices, k, now), v, UpdateEach(sys, c, indices, m, now), s);
    }
  }

  lemma OneElsewhere(sys: System, c: World, indices: seq<nat>, l: nat, m: nat, now: Timestamp, s: set<nat>)
    requires Good(sys, c, now) && Island(sys, s) && InRange(indices, |c.rules|) && m <= |indices| && m == l + 1
    requires indices[l] !in s
    ensures SameOn(UpdateEach(sys, c, indices, l, now), UpdateEach(sys, c, indices, m, now), s)
  {
    OneUpdated(sys, c, indices, l, m, now);
    UpdateElsewhere(sys, UpdateEach(sys, c, indices, l, now), indices[l], now, s);
  }

  lemma SameOnTwice(w: World, v: World, u: World, s: set<nat>)
    requires SameOn(w, v, s) && SameOn(v, u, s)
    ensures SameOn(w, u, s)
  {
  }

  /** The worlds in which the two rules of an island come to be updated, at positions a and b. */
  lemma TwoOfIsland(sys: System, c: World, indices: seq<nat>, a: nat, b: nat, now: Timestamp, s: set<nat>)
      returns (u: World, v: World)
    requires Good(sys, c, now) && Island(sys, s) && InRange(indices, |c.rules|) && a < b < |indices|
    requires forall j :: 0 <= j < |indices| && j != a && j != b ==> indices[j] !in s
    ensures Good(sys, u, now) && SameOn(c, u, s)
    ensures Good(sys, v, now) && SameOn(Update(sys, u, indices[a], now), v, s)
    ensures SameOn(Update(sys, v, indices[b], now), UpdateEach(sys, c, indices, |indices|, now), s)
  {
    u, v := UpdateEach(sys, c, indices, a, now), UpdateEach(sys, c, indices, b, now);
    SomeElsewhere(sys, c, indices, 0, a, now, s);
    OneUpdated(sys, c, indices, a, a + 1, now);
    SomeElsewhere(sys, c, indices, a + 1, b, now, s);
    OneUpdated(sys, c, indices, b, b + 1, now);
    SomeElsewhere(sys, c, indices, b + 1, |indices|, now, s);
  }

  /** The world in which the one rule of an island comes to be updated, at position a. */
  lemma OneOfIsland(sys: System, c: World, indices: seq<nat>, a: nat, now: Timestamp, s: set<nat>) returns (u: World)
    requires Good(sys, c, now) && Island(sys, s) && InRange(indices, |c.rules|) && a < |indices|
    requires forall j :: 0 <= j < |indices| && j != a ==> indices[j] !in s
    ensures Good(sys, u, now) && SameOn(c, u, s)
    ensures SameOn(Update(sys, u, indices[a], now), UpdateEach(sys, c, indices, |indices|, now), s)
  {
    u := UpdateEach(sys, c, indices, a, now);
    SomeElsewhere(sys, c, indices, 0, a, now, s);
    OneUpdated(sys, c, indices, a, a + 1, now);
    SomeElsewhere(sys, c, indices, a + 1, |indices|, now, s);
  }

  lemma OneUpdated(sys: System, c: World, indices: seq<nat>, k: nat, m: nat, now: Timestamp)
    requires Good(sys, c, now) && InRange(indices, |c.rules|) && m <= |indices| && m == k + 1
    ensures var v := UpdateEach(sys, c, indices, k, now);
            Good(sys, v, now) && UpdateEach(sys, c, indices, m, now) == Update(sys, v, indices[k], now)
  {
  }
}
