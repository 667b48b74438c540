/** Steps at times when no action has to change, and how the runner finds those times. */
module Quiet {
  import opened Calendar
  import opened Periods
  import opened RuleTime
  import opened NextChange
  import opened Network
  import opened Stepping
  import opened Steps
  import opened Agreement

  // ----- Nothing to do

  /** The action of rule i already is what its intervals say at `now`. */
  predicate RuleQuiet(sys: System, i: nat, d: Dyn, now: Timestamp)
    requires i < |sys.configs|
  {
    var s := sys.configs[i].schedule;
    d.enabled ==> d.start != EMPTY && In(sys.win, Tick(s, d.start, now))
                  && d.active == ActiveAt(s, Tick(s, d.start, now), now)
  }

  predicate AllQuiet(sys: System, w: World, now: Timestamp)
    requires |w.rules| == |sys.configs|
  {
    forall i :: 0 <= i < |w.rules| ==> RuleQuiet(sys, i, w.rules[i], now)
  }

  /** Rule i as an evaluation leaves it that has nothing to do. */
  function Touch(sys: System, i: nat, d: Dyn, now: Timestamp): (r: Dyn)
    requires WellFormed(sys) && i < |sys.configs| && DynOk(sys, i, d) && Timely(sys.win, now)
  {
    d.(start := NewStart(sys, i, d, now), lastUpdate := now, hasRun := true)
  }

  /** Nothing but the time keeping of some rules differs. */
  predicate Touched(sys: System, w: World, v: World, now: Timestamp)
    requires WellFormed(sys) && Fit(sys, w) && Timely(sys.win, now)
  {
    && |v.rules| == |w.rules| && v.channels == w.channels
    && forall i :: 0 <= i < |w.rules| ==>
         v.rules[i] == w.rules[i] || (w.rules[i].start != EMPTY && v.rules[i] == Touch(sys, i, w.rules[i], now))
  }

  /** A quiet world before the step, and what has become of it during the step. */
  predicate Undisturbed(sys: System, w: World, v: World, now: Timestamp) {
    && WellFormed(sys) && Fit(sys, w) && Timely(sys.win, now) && AllQuiet(sys, w, now)
    && (forall i :: 0 <= i < |w.rules| ==> !w.rules[i].hasRun)
    && Good(sys, v, now) && Touched(sys, w, v, now)
  }

  lemma QuietPrepares(sys: System, v: World, i: nat, now: Timestamp)
    requires Good(sys, v, now) && i < |v.rules| && v.rules[i].enabled && RuleQuiet(sys, i, v.rules[i], now)
    ensures Prepare(sys, v, i, now) == v.(rules := v.rules[i := v.rules[i].(start := NewStart(sys, i, v.rules[i], now))])
    ensures !Launches(sys, v, i, now)
    ensures v.rules[i].active == ActiveAt(sys.configs[i].schedule, NewStart(sys, i, v.rules[i], now), now)
  {
    var s, d := sys.configs[i].schedule, v.rules[i];
    if d.active && StopsFirst(s, d, now) {
      ActiveNotBefore(s, sys.win, Tick(s, d.start, now), now);
    }
    assert !(d.active && StopsFirst(s, d, now));
    assert StopsFirst(s, d, now) ==> Stop(sys, v, i) == v;
  }

  lemma QuietEvaluation(sys: System, v: World, i: nat, now: Timestamp)
    requires Good(sys, v, now) && i < |v.rules| && v.rules[i].enabled && RuleQuiet(sys, i, v.rules[i], now)
    requires ParentsDone(sys, v, i)
    ensures Evaluate(sys, v, i, now) == Logged(sys, v, i).(rules := v.rules[i := Touch(sys, i, v.rules[i], now)])
  {
    var u := Logged(sys, v, i);
    LoggedStaysGood(sys, v, u, i, now);
    QuietPrepares(sys, u, i, now);
  }

  lemma QuietEvaluates(sys: System, w: World, v: World, i: nat, now: Timestamp)
    requires Undisturbed(sys, w, v, now) && i < |v.rules| && v.rules[i].enabled && !v.rules[i].hasRun
    requires ParentsDone(sys, v, i)
    ensures Undisturbed(sys, w, Evaluate(sys, v, i, now), now)
    ensures OnlyBelow(sys, v, Evaluate(sys, v, i, now), sys.order[i] + 1)
  {
    assert v.rules[i] == w.rules[i] && RuleQuiet(sys, i, w.rules[i], now);
    QuietEvaluation(sys, v, i, now);
    TouchedOnce(sys, w, v, i, now);
  }

  lemma TouchedOnce(sys: System, w: World, v: World, i: nat, now: Timestamp)
    requires WellFormed(sys) && Fit(sys, w) && Timely(sys.win, now) && Touched(sys, w, v, now)
    requires i < |w.rules| && v.rules[i] == w.rules[i] && w.rules[i].start != EMPTY
    ensures Touched(sys, w, v.(rules := v.rules[i := Touch(sys, i, w.rules[i], now)]), now)
  {
  }

  /** No rule that comes at or after place h has changed. */
  predicate OnlyBelow(sys: System, v: World, r: World, h: nat)
    requires |v.rules| == |r.rules| == |sys.order|
  {
    forall j :: 0 <= j < |v.rules| && sys.order[j] >= h ==> r.rules[j] == v.rules[j]
  }

  lemma {:induction false} QuietRunsParents(sys: System, w: World, v: World, i: nat, now: Timestamp, k: nat)
    requires Undisturbed(sys, w, v, now) && i < |v.rules|
    requires k <= |Parents(sys, i)| && ParentsDoneTo(sys, v, i, k)
    ensures Undisturbed(sys, w, RunParents(sys, v, i, now, k), now)
    ensures OnlyBelow(sys, v, RunParents(sys, v, i, now, k), sys.order[i])
    decreases sys.order[i], 0, |Parents(sys, i)| - k
  {
    if k < |Parents(sys, i)| {
      var p, m := Parents(sys, i)[k], k + 1;
      ParentComesFirst(sys, p, i);
      if !v.rules[p].hasRun {
        QuietUpdates(sys, w, v, p, now);
      }
      RunParentsOnward(sys, v, i, now, k, m);
      QuietRunsParents(sys, w, WithParent(sys, v, i, now, k), i, now, m);
    }
  }

  lemma {:induction false} QuietUpdates(sys: System, w: World, v: World, i: nat, now: Timestamp)
    requires Undisturbed(sys, w, v, now) && i < |v.rules|
    ensures Undisturbed(sys, w, Update(sys, v, i, now), now)
    ensures OnlyBelow(sys, v, Update(sys, v, i, now), sys.order[i] + 1)
    decreases sys.order[i], 1
  {
    if v.rules[i].enabled && !v.rules[i].hasRun {
      QuietRunsParents(sys, w, v, i, now, 0);
      var u := RunParents(sys, v, i, now, 0);
      assert u.rules[i] == v.rules[i];
      QuietEvaluates(sys, w, u, i, now);
      OnlyBelowTwice(sys, v, u, Evaluate(sys, u, i, now), sys.order[i]);
      assert Update(sys, v, i, now) == Evaluate(sys, u, i, now);
    }
  }

  lemma OnlyBelowTwice(sys: System, v: World, u: World, r: World, h: nat)
    requires |v.rules| == |u.rules| == |r.rules| == |sys.order|
    requires OnlyBelow(sys, v, u, h) && OnlyBelow(sys, u, r, h + 1)
    ensures OnlyBelow(sys, v, r, h + 1)
  {
  }

  lemma {:induction false} QuietUpdatesEach(sys: System, w: World, indices: seq<nat>, k: nat, now: Timestamp)
    requires Undisturbed(sys, w, w, now) && InRange(indices, |w.rules|) && k <= |indices|
    ensures Undisturbed(sys, w, UpdateEach(sys, w, indices, k, now), now)
    decreases k
  {
    if k > 0 {
      var j := Before(k);
      QuietUpdatesEach(sys, w, indices, j, now);
      QuietUpdates(sys, w, UpdateEach(sys, w, indices, j, now), indices[j], now);
    }
  }

  /** A step at a quiet time changes no channel, no action and no enabling. */
  lemma QuietStep(sys: System, w: World, now: Timestamp, d: Direction)
    requires WellFormed(sys) && Fit(sys, w) && Timely(sys.win, now) && AllQuiet(sys, w, now)
    ensures Matching(sys, Step(sys, w, now, d), w, now)
  {
    var c := Cleared(w);
    forall i | 0 <= i < |w.rules|
      ensures RuleQuiet(sys, i, c.rules[i], now)
    {
      assert RuleQuiet(sys, i, w.rules[i], now);
    }
    QuietUpdatesEach(sys, c, Indices(|w.rules|, d), |w.rules|, now);
    TouchedIsMatching(sys, c, Step(sys, w, now, d), now);
    JoinedIsMatching(sys, Cleared(Step(sys, w, now, d)), c, now);
  }

  lemma TouchedIsMatching(sys: System, c: World, r: World, now: Timestamp)
    requires WellFormed(sys) && Fit(sys, c) && Fit(sys, r) && Timely(sys.win, now) && Touched(sys, c, r, now)
    requires forall i :: 0 <= i < |c.rules| ==> !c.rules[i].hasRun
    ensures Joined(sys, Cleared(r), c, now)
  {
    forall i | 0 <= i < |c.rules|
      ensures Alike(sys, i, Cleared(r).rules[i], c.rules[i], now)
    {
      if c.rules[i].start != EMPTY {
        TickTwice(sys.configs[i].schedule, sys.win, c.rules[i].start, now, now);
      }
    }
  }

  // ----- The next update

  function NextOf(sys: System, w: World, i: nat): Timestamp
    requires |w.rules| == |sys.configs| && i < |w.rules|
  {
    NextStateChange(sys.configs[i].schedule, w.rules[i].start, w.rules[i].lastUpdate)
  }

  /** The earliest change that any enabled rule among the first n expects. */
  function NextAmong(sys: System, w: World, n: nat): (r: Timestamp)
    requires |w.rules| == |sys.configs| && n <= |w.rules|
    ensures forall i :: 0 <= i < n && w.rules[i].enabled ==> r <= NextOf(sys, w, i)
    ensures r == EMPTY || exists i :: 0 <= i < n && w.rules[i].enabled && r == NextOf(sys, w, i)
  {
    if n == 0 then EMPTY
    else
      var r := NextAmong(sys, w, n - 1);
      if w.rules[n - 1].enabled && NextOf(sys, w, n - 1) < r then NextOf(sys, w, n - 1) else r
  }

  lemma NextAmongMore(sys: System, w: World, n: nat, m: nat)
    requires |w.rules| == |sys.configs| && n < |w.rules| && m == n + 1
    ensures NextAmong(sys, w, m) ==
            if w.rules[n].enabled && NextOf(sys, w, n) < NextAmong(sys, w, n) then NextOf(sys, w, n) else NextAmong(sys, w, n)
  {
  }

  function NextUpdate(sys: System, w: World): Timestamp
    requires |w.rules| == |sys.configs|
  {
    NextAmong(sys, w, |w.rules|)
  }

  /** A world just after a step at `t`, with no enabled rule in a period that is over. */
  predicate Settling(sys: System, w: World, t: Timestamp) {
    WellFormed(sys) && Fit(sys, w) && Timely(sys.win, t) && Complete(sys, w, t) && Current(sys, w, t)
  }

  /** The next update lies in the future, and until then every second is quiet. */
  lemma QuietUntilNext(sys: System, w: World, t: Timestamp)
    requires Settling(sys, w, t)
    ensures t < NextUpdate(sys, w)
    ensures forall u: Timestamp :: t <= u < NextUpdate(sys, w) && Timely(sys.win, u) ==> AllQuiet(sys, w, u)
  {
    forall i | 0 <= i < |w.rules| && w.rules[i].enabled
      ensures t < NextOf(sys, w, i)
    {
      var s := sys.configs[i].schedule;
      assert !Late(sys, i, w.rules[i], t);
      if s.intervals != [] {
        NextIsInFutureIff(s, sys.win, w.rules[i].start, t);
      }
    }
    forall u: Timestamp | t <= u < NextUpdate(sys, w) && Timely(sys.win, u)
      ensures AllQuiet(sys, w, u)
    {
      forall i | 0 <= i < |w.rules|
        ensures RuleQuiet(sys, i, w.rules[i], u)
      {
        if w.rules[i].enabled {
          RuleQuietUntil(sys, w, i, t, u);
        }
      }
    }
  }

  /** Whatever the rules, the next update lies in the future exactly when no enabled rule that has
      intervals is in a period that is over. */
  lemma NextUpdateInFutureIff(sys: System, w: World, t: Timestamp)
    requires WellFormed(sys) && Fit(sys, w) && Timely(sys.win, t) && Complete(sys, w, t)
    ensures t < NextUpdate(sys, w)
       <==> forall i :: 0 <= i < |w.rules| && sys.configs[i].schedule.intervals != [] ==> !Late(sys, i, w.rules[i], t)
  {
    forall i | 0 <= i < |w.rules| && w.rules[i].enabled
      ensures t < NextOf(sys, w, i)
         <==> (sys.configs[i].schedule.intervals != [] ==> !Late(sys, i, w.rules[i], t))
    {
      var s := sys.configs[i].schedule;
      if s.intervals != [] {
        NextIsInFutureIff(s, sys.win, w.rules[i].start, t);
      }
    }
  }

  /** Rule i is enabled, has intervals, and next changes at n. */
  ghost predicate ChangesNext(sys: System, w: World, i: nat, t: Timestamp, n: int)
    requires |w.rules| == |sys.configs|
  {
    && i < |w.rules| && w.rules[i].enabled && sys.configs[i].schedule.intervals != []
    && IsNextChange(sys.configs[i].schedule, w.rules[i].start, t, n)
  }

  lemma NextOfIsExact(sys: System, w: World, i: nat, t: Timestamp)
    requires WellFormed(sys) && Fit(sys, w) && Timely(sys.win, t) && Complete(sys, w, t) && i < |w.rules|
    ensures w.rules[i].enabled && sys.configs[i].schedule.intervals != [] ==> ChangesNext(sys, w, i, t, NextOf(sys, w, i))
    ensures w.rules[i].enabled && sys.configs[i].schedule.intervals == [] ==> NextOf(sys, w, i) == EMPTY
  {
    if w.rules[i].enabled && sys.configs[i].schedule.intervals != [] {
      NextChangeIsExact(sys.configs[i].schedule, sys.win, w.rules[i].start, t);
    }
  }

  /** After a step the next update is the soonest second at which an enabled rule changes, or its
      period is over; empty exactly if there is none. */
  lemma NextUpdateIsExact(sys: System, w: World, t: Timestamp)
    requires WellFormed(sys) && Fit(sys, w) && Timely(sys.win, t) && Complete(sys, w, t)
    ensures NextUpdate(sys, w) != EMPTY ==> exists i: nat :: ChangesNext(sys, w, i, t, NextUpdate(sys, w))
    ensures forall i: nat, n: int :: ChangesNext(sys, w, i, t, n) ==> NextUpdate(sys, w) <= n
  {
    if NextUpdate(sys, w) != EMPTY {
      var i :| 0 <= i < |w.rules| && w.rules[i].enabled && NextUpdate(sys, w) == NextOf(sys, w, i);
      NextOfIsExact(sys, w, i, t);
    }
    forall i: nat, n: int | ChangesNext(sys, w, i, t, n)
      ensures NextUpdate(sys, w) <= n
    {
      NextOfIsExact(sys, w, i, t);
      NextChangeIsUnique(sys.configs[i].schedule, w.rules[i].start, t, n, NextOf(sys, w, i));
    }
  }

  lemma RuleQuietUntil(sys: System, w: World, i: nat, t: Timestamp, u: Timestamp)
    requires Settling(sys, w, t) && i < |w.rules| && w.rules[i].enabled
    requires Timely(sys.win, u) && t <= u < NextOf(sys, w, i)
    ensures RuleQuiet(sys, i, w.rules[i], u)
  {
    var s, start := sys.configs[i].schedule, w.rules[i].start;
    assert !Late(sys, i, w.rules[i], t);
    TickInWindow(s, sys.win, start, u);
    NothingChangesBefore(s, sys.win, start, t, u);
  }
}
