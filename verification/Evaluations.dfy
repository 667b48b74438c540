/** The list of evaluations of a step leaves none out. */
module Evaluations {
  import opened Calendar
  import opened Network
  import opened RuleTime
  import opened Stepping
  import opened Steps

  predicate HasEntry(w: World, i: nat) {
    exists k :: 0 <= k < |w.log| && w.log[k].rule == i
  }

  /** Every rule marked as evaluated has an entry. */
  predicate Recorded(w: World) {
    forall i :: 0 <= i < |w.rules| && w.rules[i].hasRun ==> HasEntry(w, i)
  }

  /** Entries are only added, and none is missing in r if none was in w. */
  predicate Extends(w: World, r: World) {
    |w.log| <= |r.log| && r.log[..|w.log|] == w.log && (Recorded(w) ==> Recorded(r))
  }

  lemma ExtendsTwice(u: World, v: World, w: World)
    requires Extends(u, v) && Extends(v, w)
    ensures Extends(u, w)
  {
    assert w.log[..|u.log|] == w.log[..|v.log|][..|u.log|];
  }

  lemma EntryStays(w: World, r: World, i: nat)
    requires HasEntry(w, i) && |w.log| <= |r.log| && r.log[..|w.log|] == w.log
    ensures HasEntry(r, i)
  {
    var k :| 0 <= k < |w.log| && w.log[k].rule == i;
    assert r.log[..|w.log|][k] == w.log[k];
  }

  /** The same entries, and no new marks. */
  lemma SameLogExtends(w: World, r: World)
    requires r.log == w.log && |r.rules| == |w.rules|
    requires forall j :: 0 <= j < |w.rules| && r.rules[j].hasRun ==> w.rules[j].hasRun
    ensures Extends(w, r)
  {
    if Recorded(w) {
      forall j | 0 <= j < |r.rules| && r.rules[j].hasRun
        ensures HasEntry(r, j)
      {
        EntryStays(w, r, j);
      }
    }
  }

  lemma LoggedExtends(sys: System, w: World, i: nat)
    requires |w.rules| == |sys.configs|
    ensures Extends(w, Logged(sys, w, i)) && HasEntry(Logged(sys, w, i), i)
  {
    var r := Logged(sys, w, i);
    assert r.log[|w.log|].rule == i;
    if Recorded(w) {
      forall j | 0 <= j < |r.rules| && r.rules[j].hasRun
        ensures HasEntry(r, j)
      {
        EntryStays(w, r, j);
      }
    }
  }

  lemma MarkedExtends(sys: System, w: World, i: nat, now: Timestamp)
    requires WellFormed(sys) && Fit(sys, w) && i < |w.rules| && HasEntry(w, i)
    ensures Extends(w, Marked(sys, w, i, now))
  {
    var r := Marked(sys, w, i, now);
    if Recorded(w) {
      forall j | 0 <= j < |r.rules| && r.rules[j].hasRun
        ensures HasEntry(r, j)
      {
        EntryStays(w, r, if j == i then i else j);
      }
    }
  }

  lemma PlainExtends(sys: System, w: World, i: nat, now: Timestamp)
    requires Good(sys, w, now) && i < |w.rules| && !Launches(sys, w, i, now) && HasEntry(w, i)
    ensures Extends(w, EvaluatePlainly(sys, w, i, now))
  {
    var v := Prepare(sys, w, i, now);
    var act := ActiveNow(sys, v, i, now);
    var x := if act == v.rules[i].active then v
             else if !act then Stop(sys, v, i)
             else Switched(sys, Started(sys, w, i, now), i);
    SameLogExtends(w, x);
    EntryStays(w, x, i);
    MarkedExtends(sys, x, i, now);
    ExtendsTwice(w, x, Marked(sys, x, i, now));
  }

  predicate ActiveNow(sys: System, v: World, i: nat, now: Timestamp)
    requires i < |sys.configs| && i < |v.rules|
  {
    ActiveAt(sys.configs[i].schedule, v.rules[i].start, now)
  }

  lemma {:induction false} EvaluateExtends(sys: System, w: World, i: nat, now: Timestamp)
    requires Good(sys, w, now) && i < |w.rules| && ParentsDone(sys, w, i)
    ensures Extends(w, Evaluate(sys, w, i, now))
    decreases TotalWork(sys, w, now), sys.order[i], 1, 0
  {
    var u := Logged(sys, w, i);
    LoggedStaysGood(sys, w, u, i, now);
    LoggedExtends(sys, w, i);
    if Launches(sys, u, i, now) {
      var c := sys.configs[i].target.rule;
      Launch(sys, u, i, c, now);
      var y := Enabled(sys, Started(sys, u, i, now), c);
      UpdateWithParentsExtends(sys, y, c, now);
      SwitchingOnExtends(sys, u, i, c, now);
      LaunchedExtends(sys, w, u, y, UpdateWithParents(sys, y, c, now), i, now);
    } else {
      PlainExtends(sys, u, i, now);
      ExtendsTwice(w, u, EvaluatePlainly(sys, u, i, now));
    }
  }

  lemma SwitchingOnExtends(sys: System, u: World, i: nat, c: nat, now: Timestamp)
    requires Good(sys, u, now) && i < |u.rules| && c < |u.rules|
    ensures Extends(u, Enabled(sys, Started(sys, u, i, now), c))
  {
    var y := Enabled(sys, Started(sys, u, i, now), c);
    forall j | 0 <= j < |u.rules| && y.rules[j].hasRun
      ensures u.rules[j].hasRun
    {
    }
    SameLogExtends(u, y);
  }

  lemma LaunchedExtends(sys: System, w: World, u: World, y: World, z: World, i: nat, now: Timestamp)
    requires WellFormed(sys) && Fit(sys, z) && i < |z.rules| && HasEntry(u, i)
    requires Extends(w, u) && Extends(u, y) && Extends(y, z)
    ensures Extends(w, Marked(sys, z, i, now))
  {
    EntryStays(u, y, i);
    EntryStays(y, z, i);
    MarkedExtends(sys, z, i, now);
    ExtendsTwice(w, u, y);
    ExtendsTwice(w, y, z);
    ExtendsTwice(w, z, Marked(sys, z, i, now));
  }

  lemma {:induction false} RunParentsExtends(sys: System, w: World, i: nat, now: Timestamp, k: nat)
    requires Good(sys, w, now) && i < |w.rules| && k <= |Parents(sys, i)| && ParentsDoneTo(sys, w, i, k)
    ensures Extends(w, RunParents(sys, w, i, now, k))
    decreases TotalWork(sys, w, now), sys.order[i], 2, |Parents(sys, i)| - k
  {
    if k < |Parents(sys, i)| {
      var p, m := Parents(sys, i)[k], k + 1;
      ParentComesFirst(sys, p, i);
      var v := WithParent(sys, w, i, now, k);
      if !w.rules[p].hasRun {
        UpdateExtends(sys, w, p, now);
      }
      RunParentsOnward(sys, w, i, now, k, m);
      RunParentsExtends(sys, v, i, now, m);
      ExtendsTwice(w, v, RunParents(sys, v, i, now, m));
    }
  }

  lemma {:induction false} UpdateWithParentsExtends(sys: System, w: World, i: nat, now: Timestamp)
    requires Good(sys, w, now) && i < |w.rules|
    ensures Extends(w, UpdateWithParents(sys, w, i, now))
    decreases TotalWork(sys, w, now), sys.order[i], 3, 0
  {
    var v := RunParents(sys, w, i, now, 0);
    RunParentsExtends(sys, w, i, now, 0);
    EvaluateExtends(sys, v, i, now);
    ExtendsTwice(w, v, Evaluate(sys, v, i, now));
  }

  lemma {:induction false} UpdateExtends(sys: System, w: World, i: nat, now: Timestamp)
    requires Good(sys, w, now) && i < |w.rules|
    ensures Extends(w, Update(sys, w, i, now))
    decreases TotalWork(sys, w, now), sys.order[i], 4, 0
  {
    if w.rules[i].enabled && !w.rules[i].hasRun {
      UpdateWithParentsExtends(sys, w, i, now);
    }
  }

  lemma {:induction false} UpdateEachExtends(sys: System, w: World, indices: seq<nat>, k: nat, now: Timestamp)
    requires Good(sys, w, now) && InRange(indices, |w.rules|) && k <= |indices|
    ensures Extends(w, UpdateEach(sys, w, indices, k, now))
    decreases k
  {
    if k > 0 {
      var j := Before(k);
      var v := UpdateEach(sys, w, indices, j, now);
      UpdateEachExtends(sys, w, indices, j, now);
      UpdateExtends(sys, v, indices[j], now);
      ExtendsTwice(w, v, Update(sys, v, indices[j], now));
    }
  }

  /** In every step, every rule enabled at its end has been evaluated, and every evaluation was
      made when all enabled parents of the rule had been evaluated. */
  lemma EveryEnabledRuleIsEvaluated(sys: System, w: World, now: Timestamp, d: Direction)
    requires WellFormed(sys) && Fit(sys, w) && Timely(sys.win, now)
    ensures var r := Step(sys, w, now, d);
            && (forall i :: 0 <= i < |r.rules| && r.rules[i].enabled ==> HasEntry(r, i))
            && (forall k :: 0 <= k < |r.log| ==> r.log[k].parentsDone)
  {
    StepIsComplete(sys, w, now, d);
    StepIsRecorded(sys, w, now, d);
  }

  lemma StepIsRecorded(sys: System, w: World, now: Timestamp, d: Direction)
    requires WellFormed(sys) && Fit(sys, w) && Timely(sys.win, now)
    ensures Recorded(Step(sys, w, now, d))
  {
    UpdateEachExtends(sys, Cleared(w), Indices(|w.rules|, d), |w.rules|, now);
  }
}
