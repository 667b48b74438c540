/** Evaluating rules, parents first, children as they are switched on: why it ends, and what
    every part of it keeps. */
module Stepping {
  import opened Calendar
  import opened Periods
  import opened RuleTime
  import opened NextChange
  import opened Network

  // ----- What is said of one rule

  predicate HasParent(sys: System, i: nat) {
    Parents(sys, i) != []
  }

  /** Enabled but not evaluated in this step so far. */
  predicate NotYetRun(d: Dyn) {
    d.enabled && !d.hasRun
  }

  /** Enabled, but its action does not fit its current intervals. */
  predicate Inconsistent(sys: System, i: nat, d: Dyn, now: Timestamp)
    requires i < |sys.configs|
  {
    d.enabled && (d.start == EMPTY || d.active != ActiveAt(sys.configs[i].schedule, d.start, now))
  }

  /** Enabled in a period that is over. */
  predicate Late(sys: System, i: nat, d: Dyn, now: Timestamp)
    requires i < |sys.configs|
  {
    d.enabled && d.start != EMPTY && !PeriodCurrent(sys.configs[i].schedule, d.start, now)
  }

  /** A rule that may be looked at for the first time, when its first period is already over. */
  predicate Excused(sys: System, i: nat, d: Dyn, now: Timestamp)
    requires i < |sys.configs|
  {
    (d.start == EMPTY || HasParent(sys, i)) && !FreshStart(sys.configs[i].schedule, now)
  }

  /** What every part of a step keeps of every rule: it never makes an evaluated rule count as
      unevaluated, and what it evaluates it leaves consistent. */
  predicate Kept(sys: System, i: nat, d: Dyn, e: Dyn, now: Timestamp)
    requires i < |sys.configs|
  {
    && (d.hasRun ==> e.hasRun)
    && (!HasParent(sys, i) ==> (e.enabled ==> d.enabled) && (d.start != EMPTY ==> e.start != EMPTY))
    && (NotYetRun(e) ==> NotYetRun(d))
    && (Inconsistent(sys, i, e, now) ==> Inconsistent(sys, i, d, now) && (e.hasRun ==> d.hasRun))
    && (Late(sys, i, e, now) ==> Excused(sys, i, d, now) || (Late(sys, i, d, now) && (e.hasRun ==> d.hasRun)))
  }

  /** What an evaluation makes of the rule evaluated. */
  predicate Settled(sys: System, i: nat, d: Dyn, e: Dyn, now: Timestamp)
    requires i < |sys.configs|
  {
    && e.hasRun && !Inconsistent(sys, i, e, now)
    && (!HasParent(sys, i) ==> (e.enabled ==> d.enabled) && e.start != EMPTY)
    && (Late(sys, i, e, now) ==> Excused(sys, i, d, now))
  }

  lemma KeptTwice(sys: System, i: nat, d: Dyn, e: Dyn, f: Dyn, now: Timestamp)
    requires i < |sys.configs| && Kept(sys, i, d, e, now) && Kept(sys, i, e, f, now)
    ensures Kept(sys, i, d, f, now)
  {
  }

  lemma KeptThenSettled(sys: System, i: nat, d: Dyn, e: Dyn, f: Dyn, now: Timestamp)
    requires i < |sys.configs| && Kept(sys, i, d, e, now) && Settled(sys, i, e, f, now)
    ensures Settled(sys, i, d, f, now)
  {
  }

  lemma SettledIsKept(sys: System, i: nat, d: Dyn, e: Dyn, now: Timestamp)
    requires i < |sys.configs| && Settled(sys, i, d, e, now)
    ensures Kept(sys, i, d, e, now)
  {
  }

  /** Being disabled keeps everything, and so does being left alone. */
  lemma DisabledIsKept(sys: System, i: nat, d: Dyn, e: Dyn, now: Timestamp)
    requires i < |sys.configs| && (e == d || e == d.(enabled := false, active := false))
    ensures Kept(sys, i, d, e, now)
  {
  }

  /** A rule that is switched on starts from nothing, and so may be excused. */
  lemma EnabledThenSettled(sys: System, i: nat, d: Dyn, e: Dyn, now: Timestamp)
    requires i < |sys.configs| && HasParent(sys, i)
    requires Settled(sys, i, d.(enabled := true, start := EMPTY), e, now)
    ensures Settled(sys, i, d, e, now)
  {
  }

  // ----- Finding the current period

  /** The time-keeping part of an evaluation. */
  function Prepare(sys: System, w: World, i: nat, now: Timestamp): (r: World)
    requires WellFormed(sys) && Fit(sys, w) && Timely(sys.win, now) && i < |w.rules|
    ensures Fit(sys, r) && r.log == w.log
    ensures r.rules[i] == Prepared(sys, i, w.rules[i], now)
    ensures forall j :: 0 <= j < |w.rules| && j != i ==>
              r.rules[j] == w.rules[j] || r.rules[j] == w.rules[j].(enabled := false, active := false)
  {
    var start := NewStart(sys, i, w.rules[i], now);
    var v := if StopsFirst(sys.configs[i].schedule, w.rules[i], now) then Stop(sys, w, i) else w;
    v.(rules := v.rules[i := v.rules[i].(start := start)])
  }

  lemma PrepareWork(sys: System, w: World, i: nat, now: Timestamp)
    requires WellFormed(sys) && Fit(sys, w) && Timely(sys.win, now) && i < |w.rules|
    ensures var d, e := w.rules[i], Prepared(sys, i, w.rules[i], now);
            var extra := if d.active && !e.active then WeightOf(sys, i) - 1 else 0;
            TotalWork(sys, Prepare(sys, w, i, now), now)
            <= TotalWork(sys, w, now) + Share(sys, i, e, now) - Share(sys, i, d, now) + extra
  {
    var d, e := w.rules[i], Prepared(sys, i, w.rules[i], now);
    var v := if StopsFirst(sys.configs[i].schedule, d, now) then Stop(sys, w, i) else w;
    TotalAfterUpdate(sys, v, i, e, now);
    if d.active && !e.active {
      StopWork(sys, w, i, now);
    } else {
      assert v == w;
    }
    assert Prepare(sys, w, i, now).rules == v.rules[i := e];
  }

  // ----- Work used up by an evaluation

  lemma ShareParts(sys: System, i: nat, d: Dyn, now: Timestamp)
    requires WellFormed(sys) && i < |sys.configs| && DynOk(sys, i, d) && Timely(sys.win, now)
    ensures var e := Prepared(sys, i, d, now);
            var act := ActiveAt(sys.configs[i].schedule, e.start, now);
            Share(sys, i, d, now) == Share(sys, i, e.(active := act), now)
              + (if d.active && !e.active then WeightOf(sys, i) else 0)
              + (if e.active != act then WeightOf(sys, i) else 0)
  {
    var e := Prepared(sys, i, d, now);
    var act := ActiveAt(sys.configs[i].schedule, e.start, now);
    PendingParts(sys, i, d, now);
    SplitShare(Pending(sys, i, d, now), d.active && !e.active, e.active != act,
               Pending(sys, i, e.(active := act), now), WeightOf(sys, i));
  }

  lemma SplitShare(p: nat, a: bool, b: bool, c: nat, x: nat)
    requires p == Bit(a) + Bit(b) + c
    ensures Times(p, x) == Times(c, x) + (if a then x else 0) + (if b then x else 0)
  {
  }

  /** The action already is as it should be. */
  lemma UnchangedWork(sys: System, w: World, i: nat, now: Timestamp)
    requires WellFormed(sys) && Fit(sys, w) && Timely(sys.win, now) && i < |w.rules|
    requires var e := Prepared(sys, i, w.rules[i], now);
             e.active == ActiveAt(sys.configs[i].schedule, e.start, now)
    ensures TotalWork(sys, Prepare(sys, w, i, now), now) <= TotalWork(sys, w, now)
  {
    PrepareWork(sys, w, i, now);
    ShareParts(sys, i, w.rules[i], now);
  }

  lemma StoppedWork(sys: System, w: World, i: nat, now: Timestamp)
    requires WellFormed(sys) && Fit(sys, w) && Timely(sys.win, now) && i < |w.rules|
    requires var e := Prepared(sys, i, w.rules[i], now);
             e.active && !ActiveAt(sys.configs[i].schedule, e.start, now)
    ensures TotalWork(sys, Stop(sys, Prepare(sys, w, i, now), i), now) < TotalWork(sys, w, now)
  {
    PrepareWork(sys, w, i, now);
    ShareParts(sys, i, w.rules[i], now);
    StopWork(sys, Prepare(sys, w, i, now), i, now);
  }

  /** The world in which the action of rule i has just been started. */
  function Started(sys: System, w: World, i: nat, now: Timestamp): (r: World)
    requires WellFormed(sys) && Fit(sys, w) && Timely(sys.win, now) && i < |w.rules|
    ensures Fit(sys, r)
  {
    var v := Prepare(sys, w, i, now);
    v.(rules := v.rules[i := v.rules[i].(active := true)])
  }

  lemma StartedWork(sys: System, w: World, i: nat, now: Timestamp)
    requires WellFormed(sys) && Fit(sys, w) && Timely(sys.win, now) && i < |w.rules|
    requires var e := Prepared(sys, i, w.rules[i], now);
             !e.active && ActiveAt(sys.configs[i].schedule, e.start, now)
    ensures TotalWork(sys, Started(sys, w, i, now), now) <= TotalWork(sys, w, now) - WeightOf(sys, i)
  {
    var v := Prepare(sys, w, i, now);
    PrepareWork(sys, w, i, now);
    ShareParts(sys, i, w.rules[i], now);
    TotalAfterUpdate(sys, v, i, v.rules[i].(active := true), now);
  }

  /** Rule c switched on: it forgets its current period. */
  function Enabled(sys: System, w: World, c: nat): (r: World)
    requires WellFormed(sys) && Fit(sys, w) && c < |w.rules|
    ensures Fit(sys, r)
  {
    w.(rules := w.rules[c := w.rules[c].(enabled := true, start := EMPTY)])
  }

  /** Switching on the target makes less work than the start used up. */
  lemma EnabledWork(sys: System, w: World, i: nat, c: nat, now: Timestamp)
    requires WellFormed(sys) && Fit(sys, w) && Timely(sys.win, now) && IsParent(sys, i, c) && c < |w.rules|
    ensures TotalWork(sys, Enabled(sys, w, c), now) < TotalWork(sys, w, now) + WeightOf(sys, i)
  {
    assert TargetOk(sys, i);
    WeightGrows(Height(sys, c), Height(sys, i));
    TotalAfterUpdate(sys, w, c, w.rules[c].(enabled := true, start := EMPTY), now);
    ShareAtMost(sys, c, w.rules[c].(enabled := true, start := EMPTY), now);
  }

  /** Marking a rule as evaluated is no work. */
  function Marked(sys: System, w: World, i: nat, now: Timestamp): (r: World)
    requires WellFormed(sys) && Fit(sys, w) && i < |w.rules|
    ensures Fit(sys, r)
  {
    w.(rules := w.rules[i := w.rules[i].(lastUpdate := now, hasRun := true)])
  }

  lemma MarkedWork(sys: System, w: World, i: nat, now: Timestamp)
    requires WellFormed(sys) && Fit(sys, w) && Timely(sys.win, now) && i < |w.rules|
    ensures TotalWork(sys, Marked(sys, w, i, now), now) == TotalWork(sys, w, now)
  {
    var d := w.rules[i];
    TotalAfterUpdate(sys, w, i, d.(lastUpdate := now, hasRun := true), now);
    PendingIgnoresMarks(sys, i, d, now);
  }

  lemma PendingIgnoresMarks(sys: System, i: nat, d: Dyn, now: Timestamp)
    requires WellFormed(sys) && i < |sys.configs| && DynOk(sys, i, d) && Timely(sys.win, now)
    ensures Pending(sys, i, d.(lastUpdate := now, hasRun := true), now) == Pending(sys, i, d, now)
  {
  }

  // ----- What an evaluation leaves behind

  predicate LogOk(w: World) {
    forall e :: e in w.log ==> e.parentsDone
  }

  /** All parents of rule i that are enabled have been evaluated in this step. */
  predicate ParentsDone(sys: System, w: World, i: nat)
    requires |w.rules| == |sys.configs|
  {
    forall p :: p in Parents(sys, i) ==> !NotYetRun(w.rules[p])
  }

  predicate AllKept(sys: System, w: World, r: World, now: Timestamp)
    requires |w.rules| == |r.rules| == |sys.configs|
  {
    forall j :: 0 <= j < |w.rules| ==> Kept(sys, j, w.rules[j], r.rules[j], now)
  }

  predicate AllKeptBut(sys: System, w: World, r: World, i: nat, now: Timestamp)
    requires |w.rules| == |r.rules| == |sys.configs|
  {
    forall j :: 0 <= j < |w.rules| && j != i ==> Kept(sys, j, w.rules[j], r.rules[j], now)
  }

  /** The state stays good, and no work is added. */
  predicate Progress(sys: System, w: World, r: World, now: Timestamp)
    requires Good(sys, w, now)
  {
    Good(sys, r, now) && TotalWork(sys, r, now) <= TotalWork(sys, w, now) && (LogOk(w) ==> LogOk(r))
  }

  predicate Evaluated(sys: System, w: World, r: World, i: nat, now: Timestamp)
    requires Good(sys, w, now) && i < |w.rules|
  {
    && Progress(sys, w, r, now)
    && AllKeptBut(sys, w, r, i, now)
    && Settled(sys, i, w.rules[i], r.rules[i], now)
  }

  lemma AllKeptTwice(sys: System, u: World, v: World, w: World, now: Timestamp)
    requires |u.rules| == |v.rules| == |w.rules| == |sys.configs|
    requires AllKept(sys, u, v, now) && AllKept(sys, v, w, now)
    ensures AllKept(sys, u, w, now)
  {
    forall j | 0 <= j < |u.rules|
      ensures Kept(sys, j, u.rules[j], w.rules[j], now)
    {
      KeptTwice(sys, j, u.rules[j], v.rules[j], w.rules[j], now);
    }
  }

  lemma NothingChanged(sys: System, w: World, now: Timestamp)
    requires |w.rules| == |sys.configs|
    ensures AllKept(sys, w, w, now)
  {
  }

  lemma EvaluatedIsKept(sys: System, w: World, r: World, i: nat, now: Timestamp)
    requires Good(sys, w, now) && i < |w.rules| && Evaluated(sys, w, r, i, now)
    ensures AllKept(sys, w, r, now) && !NotYetRun(r.rules[i])
  {
    SettledIsKept(sys, i, w.rules[i], r.rules[i], now);
  }

  lemma KeptThenEvaluated(sys: System, u: World, v: World, w: World, i: nat, now: Timestamp)
    requires Good(sys, u, now) && i < |u.rules| && Progress(sys, u, v, now) && AllKept(sys, u, v, now)
    requires Evaluated(sys, v, w, i, now)
    ensures Evaluated(sys, u, w, i, now)
  {
    forall j | 0 <= j < |u.rules| && j != i
      ensures Kept(sys, j, u.rules[j], w.rules[j], now)
    {
      KeptTwice(sys, j, u.rules[j], v.rules[j], w.rules[j], now);
    }
    KeptThenSettled(sys, i, u.rules[i], v.rules[i], w.rules[i], now);
  }

  /** A rule in the state an evaluation leaves it in. */
  lemma PreparedSettles(sys: System, i: nat, d: Dyn, e: Dyn, now: Timestamp)
    requires WellFormed(sys) && i < |sys.configs| && DynOk(sys, i, d) && Timely(sys.win, now)
    requires e.start == NewStart(sys, i, d, now) && e.hasRun && (e.enabled ==> d.enabled)
    requires e.active == ActiveAt(sys.configs[i].schedule, e.start, now)
    ensures Settled(sys, i, d, e, now)
  {
    if d.start != EMPTY {
      TickMakesCurrent(sys.configs[i].schedule, sys.win, d.start, now);
    }
  }

  lemma OthersKept(sys: System, w: World, r: World, i: nat, now: Timestamp)
    requires |w.rules| == |r.rules| == |sys.configs|
    requires forall j :: 0 <= j < |w.rules| && j != i ==>
               r.rules[j] == w.rules[j] || r.rules[j] == w.rules[j].(enabled := false, active := false)
    ensures AllKeptBut(sys, w, r, i, now)
  {
    forall j | 0 <= j < |w.rules| && j != i
      ensures Kept(sys, j, w.rules[j], r.rules[j], now)
    {
      DisabledIsKept(sys, j, w.rules[j], r.rules[j], now);
    }
  }

  /** The cases of an evaluation that switch on no other rule. */
  lemma PlainEvaluation(sys: System, w: World, v: World, i: nat, now: Timestamp)
    requires Good(sys, w, now) && i < |w.rules|
    requires Acting(sys, w, v, i, now) && TotalWork(sys, v, now) <= TotalWork(sys, w, now)
    ensures Evaluated(sys, w, Marked(sys, v, i, now), i, now)
  {
    var r := Marked(sys, v, i, now);
    MarkedWork(sys, v, i, now);
    PreparedSettles(sys, i, w.rules[i], r.rules[i], now);
    OthersKept(sys, w, r, i, now);
  }

  /** Before the target is switched on, there is less work. */
  lemma Launch(sys: System, w: World, i: nat, c: nat, now: Timestamp)
    requires Good(sys, w, now) && i < |w.rules| && IsParent(sys, i, c)
    requires var e := Prepared(sys, i, w.rules[i], now);
             !e.active && ActiveAt(sys.configs[i].schedule, e.start, now)
    ensures c < |w.rules| && c != i && HasParent(sys, c)
    ensures var y := Enabled(sys, Started(sys, w, i, now), c);
            && Good(sys, y, now) && y.log == w.log
            && TotalWork(sys, y, now) < TotalWork(sys, w, now)
  {
    LaunchTarget(sys, i, c);
    StartedStaysGood(sys, w, i, now);
    EnabledStaysGood(sys, Started(sys, w, i, now), c, now);
    StartedWork(sys, w, i, now);
    EnabledWork(sys, Started(sys, w, i, now), i, c, now);
  }

  lemma LaunchTarget(sys: System, i: nat, c: nat)
    requires WellFormed(sys) && IsParent(sys, i, c)
    ensures c < |sys.configs| && c != i && HasParent(sys, c)
  {
    assert TargetOk(sys, i);
    assert i in Parents(sys, c);
  }

  lemma EnabledStaysGood(sys: System, w: World, c: nat, now: Timestamp)
    requires Good(sys, w, now) && c < |w.rules|
    ensures Good(sys, Enabled(sys, w, c), now) && Enabled(sys, w, c).log == w.log
  {
  }

  lemma StartedStaysGood(sys: System, w: World, i: nat, now: Timestamp)
    requires Good(sys, w, now) && i < |w.rules|
    ensures Good(sys, Started(sys, w, i, now), now) && Started(sys, w, i, now).log == w.log
  {
  }

  /** What has become of a world in which rule i has got as far as its action. */
  predicate Acting(sys: System, w: World, x: World, i: nat, now: Timestamp)
    requires Good(sys, w, now) && i < |w.rules|
  {
    && Fit(sys, x) && x.log == w.log
    && x.rules[i].start == NewStart(sys, i, w.rules[i], now) && x.rules[i].enabled == w.rules[i].enabled
    && x.rules[i].active == ActiveAt(sys.configs[i].schedule, x.rules[i].start, now)
    && (forall j :: 0 <= j < |w.rules| && j != i ==>
          x.rules[j] == w.rules[j] || x.rules[j] == w.rules[j].(enabled := false, active := false))
  }

  lemma StartedIsActing(sys: System, w: World, i: nat, now: Timestamp)
    requires Good(sys, w, now) && i < |w.rules|
    requires ActiveAt(sys.configs[i].schedule, Prepared(sys, i, w.rules[i], now).start, now)
    ensures Acting(sys, w, Started(sys, w, i, now), i, now)
  {
  }

  /** After the target has been evaluated, rule i is settled as well. */
  lemma Landed(sys: System, w: World, x: World, y: World, z: World, i: nat, c: nat, now: Timestamp)
    requires Good(sys, w, now) && i < |w.rules| && c < |w.rules| && c != i && HasParent(sys, c)
    requires Acting(sys, w, x, i, now) && y == Enabled(sys, x, c)
    requires Good(sys, y, now) && TotalWork(sys, y, now) <= TotalWork(sys, w, now) && Evaluated(sys, y, z, c, now)
    ensures Evaluated(sys, w, Marked(sys, z, i, now), i, now)
  {
    LandedOthers(sys, w, x, z, i, c, now);
    LandedStarter(sys, w, x, y, z, i, c, now);
    LandedProgress(sys, w, y, z, i, now);
    MarkedKeepsOthers(sys, w, z, i, now);
  }

  lemma LandedStarter(sys: System, w: World, x: World, y: World, z: World, i: nat, c: nat, now: Timestamp)
    requires Good(sys, w, now) && i < |w.rules| && c < |w.rules| && c != i
    requires Acting(sys, w, x, i, now) && y == Enabled(sys, x, c)
    requires |z.rules| == |y.rules| && AllKeptBut(sys, y, z, c, now)
    ensures Settled(sys, i, w.rules[i], z.rules[i].(lastUpdate := now, hasRun := true), now)
  {
    assert y.rules[i] == x.rules[i];
    StarterSettles(sys, i, w.rules[i], x.rules[i], z.rules[i], now);
  }

  lemma MarkedKeepsOthers(sys: System, w: World, z: World, i: nat, now: Timestamp)
    requires WellFormed(sys) && Fit(sys, z) && |w.rules| == |sys.configs| && i < |w.rules|
    requires AllKeptBut(sys, w, z, i, now)
    ensures AllKeptBut(sys, w, Marked(sys, z, i, now), i, now)
  {
  }

  lemma LandedProgress(sys: System, w: World, y: World, z: World, i: nat, now: Timestamp)
    requires Good(sys, w, now) && Good(sys, y, now) && i < |w.rules| && y.log == w.log
    requires TotalWork(sys, y, now) <= TotalWork(sys, w, now) && Progress(sys, y, z, now)
    ensures Progress(sys, w, Marked(sys, z, i, now), now)
  {
    MarkedWork(sys, z, i, now);
  }

  lemma LandedOthers(sys: System, w: World, x: World, z: World, i: nat, c: nat, now: Timestamp)
    requires |w.rules| == |x.rules| == |z.rules| == |sys.configs|
    requires i < |w.rules| && c < |w.rules| && c != i && HasParent(sys, c)
    requires forall j :: 0 <= j < |w.rules| && j != i ==>
               x.rules[j] == w.rules[j] || x.rules[j] == w.rules[j].(enabled := false, active := false)
    requires var y := x.rules[c := x.rules[c].(enabled := true, start := EMPTY)];
             && (forall j :: 0 <= j < |w.rules| && j != c ==> Kept(sys, j, y[j], z.rules[j], now))
             && Settled(sys, c, y[c], z.rules[c], now)
    ensures AllKeptBut(sys, w, z, i, now)
  {
    forall j | 0 <= j < |w.rules| && j != i
      ensures Kept(sys, j, w.rules[j], z.rules[j], now)
    {
      DisabledIsKept(sys, j, w.rules[j], x.rules[j], now);
      if j == c {
        EnabledThenSettled(sys, c, x.rules[c], z.rules[c], now);
        SettledIsKept(sys, c, x.rules[c], z.rules[c], now);
      }
      KeptTwice(sys, j, w.rules[j], x.rules[j], z.rules[j], now);
    }
  }

  lemma StarterSettles(sys: System, i: nat, d: Dyn, e: Dyn, f: Dyn, now: Timestamp)
    requires WellFormed(sys) && i < |sys.configs| && DynOk(sys, i, d) && Timely(sys.win, now)
    requires e.start == NewStart(sys, i, d, now) && (e.enabled ==> d.enabled)
    requires e.active == ActiveAt(sys.configs[i].schedule, e.start, now)
    requires Kept(sys, i, e, f, now)
    ensures Settled(sys, i, d, f.(lastUpdate := now, hasRun := true), now)
  {
    PreparedSettles(sys, i, d, e.(hasRun := true), now);
  }

  /** The state stays good, no work is added, and every rule is kept. */
  predicate Advanced(sys: System, w: World, r: World, now: Timestamp)
    requires Good(sys, w, now)
  {
    Progress(sys, w, r, now) && AllKept(sys, w, r, now)
  }

  lemma AdvancedTwice(sys: System, u: World, v: World, w: World, now: Timestamp)
    requires Good(sys, u, now) && Advanced(sys, u, v, now) && Advanced(sys, v, w, now)
    ensures Advanced(sys, u, w, now)
  {
    AllKeptTwice(sys, u, v, w, now);
  }

  lemma StandingStill(sys: System, w: World, now: Timestamp)
    requires Good(sys, w, now)
    ensures Advanced(sys, w, w, now)
  {
    NothingChanged(sys, w, now);
  }

  /** The first k parents of rule i are done. */
  predicate ParentsDoneTo(sys: System, w: World, i: nat, k: nat)
    requires |w.rules| == |sys.configs| && k <= |Parents(sys, i)|
  {
    forall m :: 0 <= m < k ==> !NotYetRun(w.rules[Parents(sys, i)[m]])
  }

  lemma ParentsStayDone(sys: System, w: World, v: World, i: nat, k: nat, now: Timestamp)
    requires |w.rules| == |v.rules| == |sys.configs| && k < |Parents(sys, i)|
    requires AllKept(sys, w, v, now) && ParentsDoneTo(sys, w, i, k)
    requires Parents(sys, i)[k] < |v.rules| && !NotYetRun(v.rules[Parents(sys, i)[k]])
    ensures ParentsDoneTo(sys, v, i, k + 1)
  {
    forall m | 0 <= m < k
      ensures !NotYetRun(v.rules[Parents(sys, i)[m]])
    {
      var p := Parents(sys, i)[m];
      assert p in Parents(sys, i);
      assert Kept(sys, p, w.rules[p], v.rules[p], now);
    }
  }

  lemma AllParentsDone(sys: System, w: World, i: nat)
    requires |w.rules| == |sys.configs| && ParentsDoneTo(sys, w, i, |Parents(sys, i)|)
    ensures ParentsDone(sys, w, i)
  {
  }

  lemma ParentComesFirst(sys: System, p: nat, i: nat)
    requires WellFormed(sys) && p in Parents(sys, i)
    ensures p < |sys.configs| && i < |sys.configs| && sys.order[p] < sys.order[i]
  {
    assert IsParent(sys, p, i);
    assert TargetOk(sys, p);
  }

  /** The action of rule i has to be started, and its target is another rule. */
  predicate Launches(sys: System, w: World, i: nat, now: Timestamp)
    requires Good(sys, w, now) && i < |w.rules|
  {
    var e := Prepared(sys, i, w.rules[i], now);
    sys.configs[i].target.ActivatesRule? && !e.active && ActiveAt(sys.configs[i].schedule, e.start, now)
  }

  /** An evaluation that switches on no other rule. */
  function EvaluatePlainly(sys: System, w: World, i: nat, now: Timestamp): (r: World)
    requires Good(sys, w, now) && i < |w.rules| && !Launches(sys, w, i, now)
    ensures Evaluated(sys, w, r, i, now)
  {
    var v := Prepare(sys, w, i, now);
    var act := ActiveAt(sys.configs[i].schedule, v.rules[i].start, now);
    if act == v.rules[i].active then
      UnchangedWork(sys, w, i, now);
      PlainEvaluation(sys, w, v, i, now);
      Marked(sys, v, i, now)
    else if !act then
      StoppedWork(sys, w, i, now);
      PlainEvaluation(sys, w, Stop(sys, v, i), i, now);
      Marked(sys, Stop(sys, v, i), i, now)
    else
      var x := Switched(sys, Started(sys, w, i, now), i);
      StartedWork(sys, w, i, now);
      StartedIsActing(sys, w, i, now);
      PlainEvaluation(sys, w, x, i, now);
      Marked(sys, x, i, now)
  }

  /** The target channel of rule i, if it has one, as it is while the action runs. */
  function Switched(sys: System, w: World, i: nat): (r: World)
    requires WellFormed(sys) && Fit(sys, w) && i < |w.rules|
    ensures Fit(sys, r) && r == w.(channels := r.channels)
  {
    match sys.configs[i].target
    case Channel(c) => assert TargetOk(sys, i); w.(channels := w.channels[c := sys.configs[i].whenRunning])
    case _ => w
  }

  function Logged(sys: System, w: World, i: nat): World
    requires |w.rules| == |sys.configs|
  {
    w.(log := w.log + [Evaluation(i, ParentsDone(sys, w, i))])
  }

  lemma LoggedStaysGood(sys: System, w: World, r: World, i: nat, now: Timestamp)
    requires Good(sys, w, now) && i < |w.rules| && ParentsDone(sys, w, i)
    ensures Good(sys, Logged(sys, w, i), now)
    ensures TotalWork(sys, Logged(sys, w, i), now) == TotalWork(sys, w, now)
    ensures Evaluated(sys, Logged(sys, w, i), r, i, now) ==> Evaluated(sys, w, r, i, now)
  {
  }

  // ----- The mutual recursion

  /** Evaluates rule i itself. Switching on another rule evaluates that one, with its parents,
      before this evaluation counts as done. */
  function Evaluate(sys: System, w: World, i: nat, now: Timestamp): (r: World)
    requires Good(sys, w, now) && i < |w.rules| && ParentsDone(sys, w, i)
    ensures Evaluated(sys, w, r, i, now)
    decreases TotalWork(sys, w, now), sys.order[i], 1, 0
  {
    var u := Logged(sys, w, i);
    LoggedStaysGood(sys, w, u, i, now);
    var r :=
      if Launches(sys, u, i, now) then
        var x, c := Started(sys, u, i, now), sys.configs[i].target.rule;
        Launch(sys, u, i, c, now);
        StartedIsActing(sys, u, i, now);
        var z := UpdateWithParents(sys, Enabled(sys, x, c), c, now);
        Landed(sys, u, x, Enabled(sys, x, c), z, i, c, now);
        Marked(sys, z, i, now)
      else
        EvaluatePlainly(sys, u, i, now);
    LoggedStaysGood(sys, w, r, i, now);
    r
  }

  /** Evaluates the parents of rule i that have not been, from the k-th on. */
  function RunParents(sys: System, w: World, i: nat, now: Timestamp, k: nat): (r: World)
    requires Good(sys, w, now) && i < |w.rules| && k <= |Parents(sys, i)| && ParentsDoneTo(sys, w, i, k)
    ensures Advanced(sys, w, r, now) && ParentsDone(sys, r, i)
    decreases TotalWork(sys, w, now), sys.order[i], 2, |Parents(sys, i)| - k
  {
    if k == |Parents(sys, i)| then
      StandingStill(sys, w, now);
      AllParentsDone(sys, w, i);
      w
    else
      var p := Parents(sys, i)[k];
      ParentComesFirst(sys, p, i);
      if w.rules[p].hasRun then
        RunParents(sys, w, i, now, k + 1)
      else
        var v := Update(sys, w, p, now);
        ParentsStayDone(sys, w, v, i, k, now);
        var r := RunParents(sys, v, i, now, k + 1);
        AdvancedTwice(sys, w, v, r, now);
        r
  }

  /** Rule w after its k-th parent has been seen to. */
  function WithParent(sys: System, w: World, i: nat, now: Timestamp, k: nat): (r: World)
    requires Good(sys, w, now) && i < |w.rules| && k < |Parents(sys, i)|
    ensures Good(sys, r, now)
  {
    var p := Parents(sys, i)[k];
    ParentComesFirst(sys, p, i);
    if w.rules[p].hasRun then w else Update(sys, w, p, now)
  }

  /** Running the parents of rule i, begun in world u, has reached the k-th in world w. */
  predicate Underway(sys: System, u: World, w: World, i: nat, now: Timestamp, k: nat) {
    && Good(sys, u, now) && Good(sys, w, now) && i < |u.rules| && k <= |Parents(sys, i)|
    && ParentsDoneTo(sys, w, i, k) && TotalWork(sys, w, now) <= TotalWork(sys, u, now)
    && RunParents(sys, w, i, now, k) == RunParents(sys, u, i, now, 0)
  }

  lemma RunParentsOnward(sys: System, w: World, i: nat, now: Timestamp, k: nat, m: nat)
    requires Good(sys, w, now) && i < |w.rules| && k < |Parents(sys, i)| && ParentsDoneTo(sys, w, i, k) && m == k + 1
    ensures var v := WithParent(sys, w, i, now, k);
            && ParentsDoneTo(sys, v, i, m) && TotalWork(sys, v, now) <= TotalWork(sys, w, now)
            && RunParents(sys, v, i, now, m) == RunParents(sys, w, i, now, k)
  {
    var p := Parents(sys, i)[k];
    ParentComesFirst(sys, p, i);
    if !w.rules[p].hasRun {
      ParentsStayDone(sys, w, WithParent(sys, w, i, now, k), i, k, now);
    }
  }

  lemma UnderwayOnward(sys: System, u: World, w: World, i: nat, now: Timestamp, k: nat, m: nat)
    requires Underway(sys, u, w, i, now, k) && k < |Parents(sys, i)| && m == k + 1
    ensures Underway(sys, u, WithParent(sys, w, i, now, k), i, now, m)
  {
    RunParentsOnward(sys, w, i, now, k, m);
  }

  function UpdateWithParents(sys: System, w: World, i: nat, now: Timestamp): (r: World)
    requires Good(sys, w, now) && i < |w.rules|
    ensures Evaluated(sys, w, r, i, now)
    decreases TotalWork(sys, w, now), sys.order[i], 3, 0
  {
    var v := RunParents(sys, w, i, now, 0);
    var r := Evaluate(sys, v, i, now);
    KeptThenEvaluated(sys, w, v, r, i, now);
    r
  }

  /** Evaluates rule i, parents first, unless it is disabled or has been evaluated already. */
  function Update(sys: System, w: World, i: nat, now: Timestamp): (r: World)
    requires Good(sys, w, now) && i < |w.rules|
    ensures Advanced(sys, w, r, now) && !NotYetRun(r.rules[i])
    decreases TotalWork(sys, w, now), sys.order[i], 4, 0
  {
    if w.rules[i].enabled && !w.rules[i].hasRun then
      var r := UpdateWithParents(sys, w, i, now);
      EvaluatedIsKept(sys, w, r, i, now);
      r
    else
      StandingStill(sys, w, now);
      w
  }
}
