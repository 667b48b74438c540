/** When a rule will next change: the computation of the firmware, and why it is exact. */
module NextChange {
  import opened Calendar
  import opened TimeLibrary
  import opened Periods
  import opened RuleTime

  /** The signed 32-bit difference of two time stamps. */
  function Difference(a: Timestamp, b: Timestamp): int {
    var d := U32(a - b);
    if d >= 0x8000_0000 then d - TWO_32 else d
  }

  /** The first interval in the list that contains `t`. */
  function CurrentInterval(ivs: seq<Interval>, t: Timestamp): Interval
    decreases ivs
  {
    if ivs == [] then NO_INTERVAL
    else if Contains(ivs[0], t) then ivs[0]
    else CurrentInterval(ivs[1..], t)
  }

  /** Among the first `n`, the interval that starts soonest after `t`, and how soon. */
  function Closest(ivs: seq<Interval>, t: Timestamp, n: nat): (Interval, int)
    requires n <= |ivs|
  {
    if n == 0 then (NO_INTERVAL, INT32_MAX)
    else
      var (best, distance) := Closest(ivs, t, n - 1);
      var d := Difference(ivs[n - 1].start, t);
      if d < distance && d > 0 then (ivs[n - 1], d) else (best, distance)
  }

  function NextInterval(ivs: seq<Interval>, t: Timestamp): Interval {
    Closest(ivs, t, |ivs|).0
  }

  function Earlier(t: Timestamp, limit: Timestamp): Timestamp {
    if t > limit then limit else t
  }

  /** The time at which the rule last looked at at `t` says it will change; empty for never. */
  function NextStateChange(s: Schedule, start: Timestamp, t: Timestamp): Timestamp {
    if s.intervals == [] then EMPTY
    else
      var ivs := if start == EMPTY then [] else Instantiate(s, start);
      var end := EndOfPeriod(s, start);
      var current := CurrentInterval(ivs, t);
      var next := NextInterval(ivs, t);
      if current != NO_INTERVAL then Earlier(current.end, end)
      else if next != NO_INTERVAL then Earlier(next.start, end)
      else end
  }

  // ----- The searches

  lemma {:induction false} CurrentIntervalFound(ivs: seq<Interval>, t: Timestamp)
    requires forall i :: 0 <= i < |ivs| ==> ivs[i] != NO_INTERVAL
    ensures var c := CurrentInterval(ivs, t);
            && (c != NO_INTERVAL <==> exists i :: 0 <= i < |ivs| && Contains(ivs[i], t))
            && (c != NO_INTERVAL ==> c in ivs && Contains(c, t))
    decreases ivs
  {
    if ivs != [] && !Contains(ivs[0], t) {
      CurrentIntervalFound(ivs[1..], t);
      forall i | 0 <= i < |ivs| && Contains(ivs[i], t)
        ensures Contains(ivs[1..][i - 1], t)
      {
      }
    }
  }

  /** Within the window the signed difference is the true one, and the search finds the smallest
      start after `t`. */
  lemma {:induction false} ClosestIsMinimal(ivs: seq<Interval>, t: Timestamp, win: Window, n: nat)
    requires n <= |ivs| && In(win, t)
    requires forall i :: 0 <= i < |ivs| ==> ivs[i] != NO_INTERVAL && win.base <= ivs[i].start < win.base + INT32_MAX
    requires win.last < win.base + INT32_MAX
    ensures var (best, distance) := Closest(ivs, t, n);
            && (best == NO_INTERVAL ==> distance == INT32_MAX && forall i :: 0 <= i < n ==> ivs[i].start <= t)
            && (best != NO_INTERVAL ==> best in ivs && distance == best.start - t > 0)
            && forall i :: 0 <= i < n && ivs[i].start > t ==> best != NO_INTERVAL && best.start <= ivs[i].start
  {
    if n > 0 {
      ClosestIsMinimal(ivs, t, win, n - 1);
      DifferenceInWindow(ivs[n - 1].start, t, win);
    }
  }

  lemma DifferenceInWindow(a: Timestamp, b: Timestamp, win: Window)
    requires win.base <= a < win.base + INT32_MAX && win.base <= b < win.base + INT32_MAX
    ensures Difference(a, b) == a - b
  {
    if a < b {
      MultipleDropped(a - b, 1);
      U32Small(a - b + TWO_32);
    } else {
      U32Small(a - b);
    }
  }

  // ----- The next change is exact

  lemma InstantiatedInWindow(s: Schedule, win: Window, start: Timestamp)
    requires Fits(s, win) && In(win, start)
    ensures forall i :: 0 <= i < |s.intervals| ==>
              var iv, o := Instantiate(s, start)[i], s.intervals[i];
              && iv.start == start + o.start < EMPTY && iv.end == start + o.end < EMPTY
              && start <= iv.start < win.base + INT32_MAX
  {
    forall i | 0 <= i < |s.intervals|
      ensures var iv, o := Instantiate(s, start)[i], s.intervals[i];
              && iv.start == start + o.start < EMPTY && iv.end == start + o.end < EMPTY
              && start <= iv.start < win.base + INT32_MAX
    {
      var o := s.intervals[i];
      assert o in s.intervals;
      U32Small(start + o.start);
      U32Small(start + o.end);
    }
  }

  lemma EndInWindow(s: Schedule, win: Window, start: Timestamp)
    requires Fits(s, win) && In(win, start)
    ensures s.period.Fixed? ==> EndOfPeriod(s, start) == start + s.period.seconds < EMPTY
    ensures s.period.Infinite? ==> EndOfPeriod(s, start) == EMPTY
  {
    if s.period.Fixed? {
      U32Small(start + s.period.seconds);
    }
  }

  /** The next change lies in the future exactly when the period has not run out. When it has,
      the computed time is the end of that period, already past. */
  lemma NextIsInFutureIff(s: Schedule, win: Window, start: Timestamp, t: Timestamp)
    requires Fits(s, win) && In(win, start) && In(win, t) && s.intervals != []
    ensures t < NextStateChange(s, start, t) <==> PeriodCurrent(s, start, t)
    ensures NextStateChange(s, start, t) <= EndOfPeriod(s, start)
  {
    var ivs := Instantiate(s, start);
    InstantiatedInWindow(s, win, start);
    EndInWindow(s, win, start);
    CurrentIntervalFound(ivs, t);
    ClosestIsMinimal(ivs, t, win, |ivs|);
  }

  // ----- Which second it is

  /** The k-th interval of the period that began at `start` contains t. */
  predicate RunsAt(s: Schedule, start: int, t: int, k: nat) {
    k < |s.intervals| && start + s.intervals[k].start <= t < start + s.intervals[k].end
  }

  /** It is the first in the list that does. */
  predicate FirstAt(s: Schedule, start: int, t: int, k: nat) {
    RunsAt(s, start, t, k) && forall j: nat :: j < k ==> !RunsAt(s, start, t, j)
  }

  /** The second at which the period that began at `start` is over; empty if it never is. */
  function PeriodOver(s: Schedule, start: int): int {
    match s.period
    case Infinite => EMPTY
    case Fixed(p) => start + p
  }

  function Sooner(a: int, b: int): int {
    if a <= b then a else b
  }

  /** Seen from t: while intervals contain t, the end of the first of them; while none does, the
      soonest start after t; at the latest the end of the period. */
  ghost predicate IsNextChange(s: Schedule, start: int, t: int, n: int) {
    var over := PeriodOver(s, start);
    && (forall k: nat :: FirstAt(s, start, t, k) ==> n == Sooner(start + s.intervals[k].end, over))
    && ((forall k: nat :: !RunsAt(s, start, t, k)) ==>
          && n <= over && (n == over || exists o :: o in s.intervals && n == start + o.start > t)
          && forall o :: o in s.intervals && start + o.start > t ==> n <= start + o.start)
  }

  lemma {:induction false} SomeFirstAt(s: Schedule, start: int, t: int, k: nat) returns (j: nat)
    requires RunsAt(s, start, t, k)
    ensures j <= k && FirstAt(s, start, t, j)
    decreases k
  {
    if i: nat :| i < k && RunsAt(s, start, t, i) {
      j := SomeFirstAt(s, start, t, i);
    } else {
      j := k;
    }
  }

  lemma NextChangeIsUnique(s: Schedule, start: int, t: int, n: int, m: int)
    requires IsNextChange(s, start, t, n) && IsNextChange(s, start, t, m)
    ensures n == m
  {
    if k: nat :| RunsAt(s, start, t, k) {
      var j := SomeFirstAt(s, start, t, k);
    }
  }

  /** The search for the interval that contains t stops at the first one. */
  lemma {:induction false} FoundIsFirst(ivs: seq<Interval>, t: Timestamp, k: nat)
    requires k < |ivs| && Contains(ivs[k], t) && forall j :: 0 <= j < k ==> !Contains(ivs[j], t)
    ensures CurrentInterval(ivs, t) == ivs[k]
    decreases ivs
  {
    if k > 0 {
      assert forall j :: 0 <= j < k - 1 ==> ivs[1..][j] == ivs[j + 1];
      FoundIsFirst(ivs[1..], t, k - 1);
    }
  }

  /** The computed next change is that second, neither later nor earlier. */
  lemma NextChangeIsExact(s: Schedule, win: Window, start: Timestamp, t: Timestamp)
    requires Fits(s, win) && In(win, start) && In(win, t) && s.intervals != []
    ensures IsNextChange(s, start, t, NextStateChange(s, start, t))
  {
    var ivs := Instantiate(s, start);
    InstantiatedInWindow(s, win, start);
    EndInWindow(s, win, start);
    forall k: nat | FirstAt(s, start, t, k)
      ensures CurrentInterval(ivs, t) == ivs[k]
    {
      RunsInstantiated(s, win, start, t);
      FoundIsFirst(ivs, t, k);
    }
    if forall k: nat :: !RunsAt(s, start, t, k) {
      NextStartIsExact(s, win, start, t);
    }
  }

  lemma RunsInstantiated(s: Schedule, win: Window, start: Timestamp, t: Timestamp)
    requires Fits(s, win) && In(win, start)
    ensures forall k: nat :: k < |s.intervals| ==> (RunsAt(s, start, t, k) <==> Contains(Instantiate(s, start)[k], t))
  {
    InstantiatedInWindow(s, win, start);
  }

  lemma NextStartIsExact(s: Schedule, win: Window, start: Timestamp, t: Timestamp)
    requires Fits(s, win) && In(win, start) && In(win, t) && s.intervals != []
    requires forall k: nat :: !RunsAt(s, start, t, k)
    ensures var n, over := NextStateChange(s, start, t), PeriodOver(s, start);
            && n <= over && (n == over || exists o :: o in s.intervals && n == start + o.start > t)
            && forall o :: o in s.intervals && start + o.start > t ==> n <= start + o.start
  {
    EndInWindow(s, win, start);
    NoneRuns(s, win, start, t);
    SoonestStart(s, win, start, t);
  }

  lemma NoneRuns(s: Schedule, win: Window, start: Timestamp, t: Timestamp)
    requires Fits(s, win) && In(win, start) && forall k: nat :: !RunsAt(s, start, t, k)
    ensures CurrentInterval(Instantiate(s, start), t) == NO_INTERVAL
  {
    InstantiatedInWindow(s, win, start);
    RunsInstantiated(s, win, start, t);
    CurrentIntervalFound(Instantiate(s, start), t);
  }

  lemma SoonestStart(s: Schedule, win: Window, start: Timestamp, t: Timestamp)
    requires Fits(s, win) && In(win, start) && In(win, t)
    ensures var next := NextInterval(Instantiate(s, start), t);
            && (next != NO_INTERVAL ==> exists o :: o in s.intervals && next.start == start + o.start > t)
            && forall o :: o in s.intervals && start + o.start > t ==> next != NO_INTERVAL && next.start <= start + o.start
  {
    var ivs := Instantiate(s, start);
    InstantiatedInWindow(s, win, start);
    ClosestIsMinimal(ivs, t, win, |ivs|);
    var next := NextInterval(ivs, t);
    if next != NO_INTERVAL {
      var k :| 0 <= k < |ivs| && ivs[k] == next;
      assert s.intervals[k] in s.intervals && next.start == start + s.intervals[k].start;
    }
    forall o | o in s.intervals && start + o.start > t
      ensures next != NO_INTERVAL && next.start <= start + o.start
    {
      var k :| 0 <= k < |s.intervals| && s.intervals[k] == o;
      assert ivs[k].start == start + o.start;
    }
  }

  /** Without intervals, or before it has begun, a rule says that it will never change. */
  lemma NothingToCome(s: Schedule, start: Timestamp, t: Timestamp)
    requires s.intervals == [] || start == EMPTY
    ensures NextStateChange(s, start, t) == EMPTY
  {
  }

  /** From a look at `t` in a current period until the computed next change, nothing changes:
      the rule is as active as it was at `t`, whatever second one looks at. */
  lemma NothingChangesBefore(s: Schedule, win: Window, start: Timestamp, t: Timestamp, u: Timestamp)
    requires Fits(s, win) && In(win, start) && In(win, t) && PeriodCurrent(s, start, t)
    requires t <= u && (s.intervals == [] || u < NextStateChange(s, start, t))
    ensures s.intervals != [] ==> Tick(s, start, u) == start
    ensures ActiveAt(s, start, u) <==> ActiveAt(s, start, t)
  {
    if s.intervals != [] {
      NextIsInFutureIff(s, win, start, t);
      EndInWindow(s, win, start);
      TickWhileCurrent(s, start, u);
      SameIntervals(s, win, start, t, u);
    }
  }

  lemma SameIntervals(s: Schedule, win: Window, start: Timestamp, t: Timestamp, u: Timestamp)
    requires Fits(s, win) && In(win, start) && In(win, t)
    requires t <= u < NextStateChange(s, start, t) && s.intervals != []
    ensures ActiveAt(s, start, u) <==> ActiveAt(s, start, t)
  {
    var ivs := Instantiate(s, start);
    InstantiatedInWindow(s, win, start);
    if CurrentInterval(ivs, t) != NO_INTERVAL {
      StillRunning(ivs, t, u);
    } else {
      NoneBegun(ivs, win, t, u);
    }
  }

  lemma StillRunning(ivs: seq<Interval>, t: Timestamp, u: Timestamp)
    requires forall i :: 0 <= i < |ivs| ==> ivs[i] != NO_INTERVAL
    requires CurrentInterval(ivs, t) != NO_INTERVAL && t <= u < CurrentInterval(ivs, t).end
    ensures exists i :: 0 <= i < |ivs| && Contains(ivs[i], t)
    ensures exists i :: 0 <= i < |ivs| && Contains(ivs[i], u)
  {
    CurrentIntervalFound(ivs, t);
    var i :| 0 <= i < |ivs| && ivs[i] == CurrentInterval(ivs, t);
    assert Contains(ivs[i], u) && Contains(ivs[i], t);
  }

  lemma NoneBegun(ivs: seq<Interval>, win: Window, t: Timestamp, u: Timestamp)
    requires forall i :: 0 <= i < |ivs| ==> ivs[i] != NO_INTERVAL && win.base <= ivs[i].start < win.base + INT32_MAX
    requires In(win, t) && win.last < win.base + INT32_MAX && CurrentInterval(ivs, t) == NO_INTERVAL
    requires t <= u && (NextInterval(ivs, t) != NO_INTERVAL ==> u < NextInterval(ivs, t).start)
    ensures forall i :: 0 <= i < |ivs| ==> !Contains(ivs[i], t) && !Contains(ivs[i], u)
  {
    CurrentIntervalFound(ivs, t);
    ClosestIsMinimal(ivs, t, win, |ivs|);
  }

  /** A rule that has just been looked at for the first time has a current period when its first
      period is not yet over. For periods without a given start it is enough that the period is
      at least as long as the unit it is aligned to. */
  predicate FreshStart(s: Schedule, now: Timestamp) {
    PeriodCurrent(s, InitialStart(s, now), now)
  }

  lemma AlignedStartIsFresh(s: Schedule, win: Window, now: Timestamp)
    requires Fits(s, win) && Timely(win, now) && s.first == EMPTY
    requires s.period.Fixed? ==> s.period.seconds >= UnitSeconds(s.kind)
    ensures FreshStart(s, now)
  {
    if s.period.Fixed? {
      AlignedBounds(s.kind, now);
      if UnitSeconds(s.kind) == 0 {
        AlignedValue(s.kind, now);
      }
    }
  }
}
