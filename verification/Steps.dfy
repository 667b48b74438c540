/** Whole steps of the runner: every rule is looked at once, in one order or the other. */
module Steps {
  import opened Calendar
  import opened Periods
  import opened RuleTime
  import opened NextChange
  import opened Network
  import opened Stepping

  // ----- One step

  /** No rule has been evaluated in this step yet. */
  function Cleared(w: World): (r: World)
    ensures |r.rules| == |w.rules| && r.channels == w.channels && r.log == []
    ensures forall i :: 0 <= i < |r.rules| ==> r.rules[i] == w.rules[i].(hasRun := false)
  {
    World(seq(|w.rules|, i requires 0 <= i < |w.rules| => w.rules[i].(hasRun := false)), w.channels, [])
  }

  predicate InRange(indices: seq<nat>, n: nat) {
    forall k :: 0 <= k < |indices| ==> indices[k] < n
  }

  predicate AllDone(w: World, indices: seq<nat>, k: nat)
    requires InRange(indices, |w.rules|) && k <= |indices|
  {
    forall j :: 0 <= j < k ==> !NotYetRun(w.rules[indices[j]])
  }

  function Before(k: nat): nat
    requires k > 0
  {
    k - 1
  }

  /** Updates the first k of the rules listed. */
  function UpdateEach(sys: System, w: World, indices: seq<nat>, k: nat, now: Timestamp): (r: World)
    requires Good(sys, w, now) && InRange(indices, |w.rules|) && k <= |indices|
    ensures Advanced(sys, w, r, now) && AllDone(r, indices, k)
    decreases k
  {
    if k == 0 then
      StandingStill(sys, w, now);
      w
    else
      var j := Before(k);
      var v := UpdateEach(sys, w, indices, j, now);
      var r := Update(sys, v, indices[j], now);
      AdvancedTwice(sys, w, v, r, now);
      StaysDone(sys, v, r, indices, j, now);
      r
  }

  lemma StaysDone(sys: System, v: World, r: World, indices: seq<nat>, k: nat, now: Timestamp)
    requires |v.rules| == |r.rules| == |sys.configs| && AllKept(sys, v, r, now)
    requires InRange(indices, |v.rules|) && k < |indices| && AllDone(v, indices, k) && !NotYetRun(r.rules[indices[k]])
    ensures AllDone(r, indices, k + 1)
  {
    forall j | 0 <= j < k
      ensures !NotYetRun(r.rules[indices[j]])
    {
      assert Kept(sys, indices[j], v.rules[indices[j]], r.rules[indices[j]], now);
    }
  }

  /** Of the rules to be updated, begun in world c, the first k have been in world w. */
  predicate UpdatedTo(sys: System, c: World, w: World, indices: seq<nat>, k: nat, now: Timestamp) {
    && Good(sys, c, now) && InRange(indices, |c.rules|) && k <= |indices|
    && w == UpdateEach(sys, c, indices, k, now)
  }

  lemma OneMoreUpdated(sys: System, c: World, w: World, indices: seq<nat>, k: nat, m: nat, now: Timestamp)
    requires UpdatedTo(sys, c, w, indices, k, now) && k < |indices| && m > 0 && k == Before(m)
    ensures Good(sys, w, now) && UpdatedTo(sys, c, Update(sys, w, indices[k], now), indices, m, now)
  {
  }

  /** First to last, as when stepping to a time, or last to first, as when woken by the clock. */
  datatype Direction = Up | Down

  function Indices(n: nat, d: Direction): (r: seq<nat>)
    ensures |r| == n && InRange(r, n)
    ensures forall i :: 0 <= i < n ==> r[i] == if d.Up? then i else n - 1 - i
  {
    if d.Up? then seq(n, k requires 0 <= k < n => k) else seq(n, k requires 0 <= k < n => n - 1 - k)
  }

  lemma LastFirst(n: nat, k: nat, i: nat)
    requires i + k + 1 == n
    ensures Indices(n, Down)[k] == i
  {
  }

  function Step(sys: System, w: World, now: Timestamp, d: Direction): (r: World)
    requires WellFormed(sys) && Fit(sys, w) && Timely(sys.win, now)
    ensures Fit(sys, r)
  {
    UpdateEach(sys, Cleared(w), Indices(|w.rules|, d), |w.rules|, now)
  }

  lemma DoneAt(r: World, d: Direction, i: nat)
    requires AllDone(r, Indices(|r.rules|, d), |r.rules|) && i < |r.rules|
    ensures !NotYetRun(r.rules[i])
  {
    assert Indices(|r.rules|, d)[if d.Up? then i else |r.rules| - 1 - i] == i;
  }

  /** Every enabled rule has been evaluated, and its action is what its intervals say. */
  predicate Complete(sys: System, w: World, now: Timestamp)
    requires |w.rules| == |sys.configs|
  {
    forall i :: 0 <= i < |w.rules| && w.rules[i].enabled ==>
      && w.rules[i].hasRun && w.rules[i].lastUpdate == now
      && w.rules[i].start != EMPTY
      && w.rules[i].active == ActiveAt(sys.configs[i].schedule, w.rules[i].start, now)
  }

  /** A step ends. Every rule enabled at its end has been evaluated in it and is as its intervals
      say, and every evaluation came after those of all enabled parents. */
  lemma StepIsComplete(sys: System, w: World, now: Timestamp, d: Direction)
    requires WellFormed(sys) && Fit(sys, w) && Timely(sys.win, now)
    ensures Complete(sys, Step(sys, w, now, d), now)
    ensures LogOk(Step(sys, w, now, d))
  {
    var c, r := Cleared(w), Step(sys, w, now, d);
    forall i | 0 <= i < |r.rules| && r.rules[i].enabled
      ensures r.rules[i].hasRun && !Inconsistent(sys, i, r.rules[i], now)
    {
      DoneAt(r, d, i);
      assert Kept(sys, i, c.rules[i], r.rules[i], now);
    }
  }

  // ----- From one step to the next

  /** Enabled rules are in a period, except that those with parents may have to find theirs. */
  predicate Begun(sys: System, w: World)
    requires |w.rules| == |sys.configs|
  {
    forall i :: 0 <= i < |w.rules| && w.rules[i].enabled && !HasParent(sys, i) ==> w.rules[i].start != EMPTY
  }

  /** No enabled rule is in a period that is over. */
  predicate Current(sys: System, w: World, now: Timestamp)
    requires |w.rules| == |sys.configs|
  {
    forall i :: 0 <= i < |w.rules| ==> !Late(sys, i, w.rules[i], now)
  }

  /** Rules that others switch on, if they are from `from` to `upTo`, find themselves in a period
      that is not over. */
  predicate ChildrenFresh(sys: System, from: Timestamp, upTo: Timestamp) {
    forall i, t: Timestamp :: 0 <= i < |sys.configs| && HasParent(sys, i) && from <= t <= upTo ==>
      FreshStart(sys.configs[i].schedule, t)
  }

  lemma CompleteIsBegun(sys: System, w: World, now: Timestamp)
    requires |w.rules| == |sys.configs| && Complete(sys, w, now)
    ensures Begun(sys, w)
  {
  }

  /** After a step no enabled rule is in a period that is over, unless it was looked at for the
      first time when its first period had already ended. */
  lemma StepIsCurrent(sys: System, w: World, now: Timestamp, d: Direction)
    requires WellFormed(sys) && Fit(sys, w) && Timely(sys.win, now)
    ensures forall i :: 0 <= i < |w.rules| && Late(sys, i, Step(sys, w, now, d).rules[i], now) ==>
              && Excused(sys, i, w.rules[i], now)
              && (!HasParent(sys, i) ==> w.rules[i].enabled && w.rules[i].start == EMPTY)
  {
    var c, r := Cleared(w), Step(sys, w, now, d);
    forall i | 0 <= i < |r.rules| && Late(sys, i, r.rules[i], now)
      ensures Excused(sys, i, w.rules[i], now)
      ensures !HasParent(sys, i) ==> w.rules[i].enabled && w.rules[i].start == EMPTY
    {
      DoneAt(r, d, i);
      assert Kept(sys, i, c.rules[i], r.rules[i], now);
    }
  }

  lemma StepStaysCurrent(sys: System, w: World, now: Timestamp, d: Direction)
    requires WellFormed(sys) && Fit(sys, w) && Timely(sys.win, now) && Begun(sys, w) && ChildrenFresh(sys, now, now)
    ensures Current(sys, Step(sys, w, now, d), now)
  {
    StepIsCurrent(sys, w, now, d);
  }
}
