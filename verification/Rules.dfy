/** A rule as the firmware keeps it: its settings, and the time keeping that it updates in place. */
module Rules {
  import opened Calendar
  import opened TimeLibrary
  import opened Periods
  import opened RuleTime
  import opened NextChange
  import opened Network

  datatype PeriodInterval = PeriodInterval(start: Period, end: Period)

  function OffsetsOf(intervals: seq<PeriodInterval>): (r: seq<Offsets>)
    ensures |r| == |intervals|
    ensures forall i :: 0 <= i < |r| ==> r[i] == Offsets(Length(intervals[i].start), Length(intervals[i].end))
  {
    seq(|intervals|, i requires 0 <= i < |intervals| => Offsets(Length(intervals[i].start), Length(intervals[i].end)))
  }

  method ToInterval(i: PeriodInterval, start: Timestamp) returns (r: Interval)
    ensures r == Interval(Added(start, i.start), Added(start, i.end))
    ensures FixedLength(i.start) && FixedLength(i.end) ==>
              r == Interval(U32(start + Length(i.start)), U32(start + Length(i.end)))
  {
    var from := Plus(start, i.start);
    var until := Plus(start, i.end);
    r := Interval(from, until);
  }

  function SpanOf(p: Period): Span {
    if IsInfinite(p) then Infinite else Fixed(Length(p))
  }

  /** The longest field of a period that never ends is its years, but its start is not aligned to them. */
  lemma InfiniteBeginsAtOnce(p: Period, intervals: seq<Offsets>, first: Timestamp, now: Timestamp)
    requires IsInfinite(p)
    ensures SpanOf(p) == Infinite && LongestField(p) == Years
    ensures InitialStart(Schedule(SpanOf(p), LongestField(p), intervals, first), now) == if first == EMPTY then now else first
  {
  }

  /** Such as the period made to be infinite, of a million years. */
  lemma MillionYears()
    ensures IsInfinite([PeriodField(Years, INFINITE_PERIOD_YEARS)])
  {
    assert [PeriodField(Years, INFINITE_PERIOD_YEARS)][0] == PeriodField(Years, INFINITE_PERIOD_YEARS);
  }

  /** Counting on from the next period ends in the same one. */
  lemma OnePeriodOn(s: Schedule, win: Window, start: Timestamp, now: Timestamp)
    requires Fits(s, win) && s.period.Fixed? && Timely(win, now) && In(win, start) && start + s.period.seconds <= now
    requires s.first == EMPTY || s.first <= start
    ensures In(win, start + s.period.seconds)
    ensures U32(start + s.period.seconds + s.period.seconds) == start + s.period.seconds + s.period.seconds
    ensures Tick(s, start + s.period.seconds, now) == Tick(s, start, now)
  {
    RolledOnward(start, s.period.seconds, now);
    U32Small(start + s.period.seconds + s.period.seconds);
  }

  lemma RolledOnward(start: int, p: int, now: int)
    requires p > 0
    ensures start + p + (now - (start + p)) / p * p == start + (now - start) / p * p
  {
    var d := now - (start + p);
    QuotientIsUnique(now - start, p, d / p + 1, d % p);
    DistributeOne(d / p, p);
  }

  lemma DistributeOne(q: int, p: int)
    ensures (q + 1) * p == q * p + p
  {
  }

  lemma EndAt(s: Schedule, start: Timestamp, length: int)
    requires start != EMPTY && s.period == Fixed(length)
    ensures EndOfPeriod(s, start) == U32(start + length)
  {
  }

  class TdlRule {
    const id: nat
    const period: Period
    const intervals: seq<PeriodInterval>
    const startOfFirstPeriod: Timestamp
    const enabledOnStart: bool
    const whenRunning: bool
    const target: Target

    var enabled: bool
    var active: bool
    var hasBeenRunThisStep: bool
    var currentIntervals: seq<Interval>
    var startOfCurrentPeriod: Timestamp
    var lastUpdateTime: Timestamp

    ghost const schedule := Schedule(SpanOf(period), LongestField(period), OffsetsOf(intervals), startOfFirstPeriod)
    ghost const config := Config(schedule, enabledOnStart, whenRunning, target)

    /** The periods are ones whose length does not depend on the date, and the current intervals
        are those of the current period. */
    ghost predicate Valid()
      reads this
    {
      && (IsInfinite(period) || FixedLength(period))
      && (forall i :: i in intervals ==> FixedLength(i.start) && FixedLength(i.end))
      && currentIntervals == if startOfCurrentPeriod == EMPTY then [] else Instantiate(schedule, startOfCurrentPeriod)
    }

    ghost function Value(): Dyn
      reads this
    {
      Dyn(enabled, startOfCurrentPeriod, lastUpdateTime, active, hasBeenRunThisStep)
    }

    /** A rule decoded into memory that says whether its action runs and whether it has been evaluated:
        decoding sets neither. */
    constructor (id: nat, period: Period, intervals: seq<PeriodInterval>, first: Timestamp,
                 enabledOnStart: bool, whenRunning: bool, target: Target, active: bool, hasBeenRunThisStep: bool)
      requires IsInfinite(period) || FixedLength(period)
      requires forall i :: i in intervals ==> FixedLength(i.start) && FixedLength(i.end)
      ensures Valid() && this.id == id
      ensures config == Config(Schedule(SpanOf(period), LongestField(period), OffsetsOf(intervals), first),
                               enabledOnStart, whenRunning, target)
      ensures Value() == Dyn(enabledOnStart, EMPTY, EMPTY, active, hasBeenRunThisStep)
    {
      this.id := id;
      this.period := period;
      this.intervals := intervals;
      startOfFirstPeriod := first;
      this.enabledOnStart := enabledOnStart;
      this.whenRunning := whenRunning;
      this.target := target;
      enabled := enabledOnStart;
      this.active := active;
      this.hasBeenRunThisStep := hasBeenRunThisStep;
      currentIntervals := [];
      startOfCurrentPeriod := EMPTY;
      lastUpdateTime := EMPTY;
    }

    method UpdateCurrentPeriodIntervals()
      requires IsInfinite(period) || FixedLength(period)
      requires forall i :: i in intervals ==> FixedLength(i.start) && FixedLength(i.end)
      requires startOfCurrentPeriod != EMPTY
      modifies this`currentIntervals
      ensures Valid()
    {
      ghost var all := Instantiate(schedule, startOfCurrentPeriod);
      currentIntervals := [];
      for i := 0 to |intervals|
        invariant currentIntervals == all[..i]
      {
        var interval := IntervalNow(i);
        currentIntervals := currentIntervals + [interval];
      }
    }

    method IntervalNow(i: nat) returns (r: Interval)
      requires i < |intervals| && FixedLength(intervals[i].start) && FixedLength(intervals[i].end)
      ensures r == Instantiate(schedule, startOfCurrentPeriod)[i]
    {
      r := ToInterval(intervals[i], startOfCurrentPeriod);
    }

    method IsPeriodInfinite() returns (infinite: bool)
      requires IsInfinite(period) || FixedLength(period)
      ensures infinite ==> schedule.period == Infinite
      ensures !infinite ==> FixedLength(period) && schedule.period == Fixed(Length(period))
    {
      infinite := ComputeIsInfinite(period);
    }

    method GetEndOfCurrentPeriod() returns (r: Timestamp)
      requires IsInfinite(period) || FixedLength(period)
      ensures r == EndOfPeriod(schedule, startOfCurrentPeriod)
    {
      if startOfCurrentPeriod == EMPTY {
        return EMPTY;
      }
      var infinite := IsPeriodInfinite();
      if infinite {
        return EMPTY;
      }
      r := PlusPeriod(Length(period));
      EndAt(schedule, startOfCurrentPeriod, Length(period));
    }

    method PlusPeriod(ghost length: int) returns (r: Timestamp)
      requires FixedLength(period) && length == Length(period)
      ensures r == U32(startOfCurrentPeriod + length)
    {
      r := Plus(startOfCurrentPeriod, period);
    }

    /** The period has a length, fits the window and has begun by `now`. */
    ghost predicate Rolling(now: Timestamp, end: Timestamp, win: Window)
      reads this
    {
      && FixedLength(period) && schedule.period == Fixed(Length(period)) && Fits(schedule, win) && Timely(win, now)
      && win.base <= startOfCurrentPeriod <= now && end == startOfCurrentPeriod + Length(period)
      && (startOfFirstPeriod != EMPTY ==> startOfFirstPeriod <= startOfCurrentPeriod)
    }

    method MoveToNextPeriod(now: Timestamp, end: Timestamp, ghost win: Window) returns (newEnd: Timestamp)
      requires Rolling(now, end, win) && now >= end
      modifies this`startOfCurrentPeriod
      ensures Rolling(now, newEnd, win) && startOfCurrentPeriod == end > old(startOfCurrentPeriod)
      ensures Tick(schedule, startOfCurrentPeriod, now) == Tick(schedule, old(startOfCurrentPeriod), now)
    {
      OnePeriodOn(schedule, win, startOfCurrentPeriod, now);
      startOfCurrentPeriod := end;
      newEnd := Plus(startOfCurrentPeriod, period);
    }

    /** Moves on, one period at a time, to the one that `now` lies in. */
    method RollPeriods(now: Timestamp, end: Timestamp, ghost win: Window)
      requires Valid() && Fits(schedule, win) && In(win, startOfCurrentPeriod) && Timely(win, now)
      requires startOfFirstPeriod != EMPTY ==> startOfFirstPeriod <= startOfCurrentPeriod
      requires end == EndOfPeriod(schedule, startOfCurrentPeriod) && now >= end
      modifies this`startOfCurrentPeriod, this`currentIntervals
      ensures Valid() && startOfCurrentPeriod == Tick(schedule, old(startOfCurrentPeriod), now)
    {
      EndInWindow(schedule, win, startOfCurrentPeriod);
      var endOfCurrentPeriod := end;
      while now >= endOfCurrentPeriod
        invariant Rolling(now, endOfCurrentPeriod, win)
        invariant Tick(schedule, startOfCurrentPeriod, now) == Tick(schedule, old(startOfCurrentPeriod), now)
        decreases now - startOfCurrentPeriod
      {
        endOfCurrentPeriod := MoveToNextPeriod(now, endOfCurrentPeriod, win);
      }
      TickWhileCurrent(schedule, startOfCurrentPeriod, now);
      UpdateCurrentPeriodIntervals();
    }

    /** Whether some current interval contains `now`. */
    method IsActiveAt(now: Timestamp) returns (isActive: bool)
      requires Valid()
      ensures isActive == ActiveAt(schedule, startOfCurrentPeriod, now)
    {
      isActive := false;
      for i := 0 to |currentIntervals|
        invariant forall j :: 0 <= j < i ==> !Contains(currentIntervals[j], now)
      {
        if now >= currentIntervals[i].start && now < currentIntervals[i].end {
          return true;
        }
      }
    }

    method GetCurrentInterval() returns (r: Interval)
      ensures r == CurrentInterval(currentIntervals, lastUpdateTime)
    {
      for i := 0 to |currentIntervals|
        invariant CurrentInterval(currentIntervals, lastUpdateTime) == CurrentInterval(currentIntervals[i..], lastUpdateTime)
      {
        if lastUpdateTime >= currentIntervals[i].start && lastUpdateTime < currentIntervals[i].end {
          return currentIntervals[i];
        }
      }
      return NO_INTERVAL;
    }

    method GetNextInterval() returns (r: Interval)
      ensures r == NextInterval(currentIntervals, lastUpdateTime)
    {
      var minDistanceToInterval := INT32_MAX;
      r := NO_INTERVAL;
      for i := 0 to |currentIntervals|
        invariant (r, minDistanceToInterval) == Closest(currentIntervals, lastUpdateTime, i)
      {
        var distanceToInterval := Difference(currentIntervals[i].start, lastUpdateTime);
        if distanceToInterval < minDistanceToInterval && distanceToInterval > 0 {
          minDistanceToInterval := distanceToInterval;
          r := currentIntervals[i];
        }
      }
    }

    method GetNextStateChangeTime() returns (r: Timestamp)
      requires Valid()
      ensures r == NextStateChange(schedule, startOfCurrentPeriod, lastUpdateTime)
    {
      if |intervals| == 0 {
        return EMPTY;
      }
      var currentInterval := GetCurrentInterval();
      if currentInterval != NO_INTERVAL {
        var endOfCurrentPeriod := GetEndOfCurrentPeriod();
        return if currentInterval.end > endOfCurrentPeriod then endOfCurrentPeriod else currentInterval.end;
      }
      var nextInterval := GetNextInterval();
      if nextInterval != NO_INTERVAL {
        var endOfCurrentPeriod := GetEndOfCurrentPeriod();
        return if nextInterval.start > endOfCurrentPeriod then endOfCurrentPeriod else nextInterval.start;
      }
      r := GetEndOfCurrentPeriod();
    }

    /** Where the first period starts, and its intervals. */
    method UpdateInitialStartOfCurrentPeriod(now: Timestamp)
      requires Valid() && InitialStart(schedule, now) != EMPTY
      modifies this`startOfCurrentPeriod, this`currentIntervals
      ensures Valid() && startOfCurrentPeriod == InitialStart(schedule, now)
    {
      if startOfFirstPeriod != EMPTY {
        startOfCurrentPeriod := startOfFirstPeriod;
      } else {
        var infinite := ComputeIsInfinite(period);
        if infinite {
          startOfCurrentPeriod := now;
        } else {
          var kind := ComputeLongestField(period);
          startOfCurrentPeriod := ComputeAligned(kind, now);
        }
      }
      UpdateCurrentPeriodIntervals();
    }

    method ResetInternalTimeKeepingVariables()
      requires Valid()
      modifies this`startOfCurrentPeriod, this`currentIntervals
      ensures Valid() && startOfCurrentPeriod == EMPTY
    {
      startOfCurrentPeriod := EMPTY;
      currentIntervals := [];
    }
  }
}
