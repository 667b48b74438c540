/** The time keeping of one rule: which period it is in, whether one of its intervals is
    running, and when that will next change. */
module RuleTime {
  import opened Calendar
  import opened TimeLibrary
  import opened Periods

  const INT32_MAX := 0x7FFF_FFFF

  datatype Span = Infinite | Fixed(seconds: int)

  /** Seconds from the start of the period. */
  datatype Offsets = Offsets(start: int, end: int)

  /** The part of a rule that never changes. `first` may be empty. */
  datatype Schedule = Schedule(period: Span, kind: FieldType, intervals: seq<Offsets>, first: Timestamp)

  datatype Interval = Interval(start: Timestamp, end: Timestamp)

  const NO_INTERVAL := Interval(EMPTY, EMPTY)

  function Instantiate(s: Schedule, start: Timestamp): (r: seq<Interval>)
    ensures |r| == |s.intervals|
    ensures forall i :: 0 <= i < |r| ==>
              r[i] == Interval(U32(start + s.intervals[i].start), U32(start + s.intervals[i].end))
  {
    seq(|s.intervals|, i requires 0 <= i < |s.intervals| =>
      Interval(U32(start + s.intervals[i].start), U32(start + s.intervals[i].end)))
  }

  function EndOfPeriod(s: Schedule, start: Timestamp): Timestamp {
    if start == EMPTY || s.period.Infinite? then EMPTY else U32(start + s.period.seconds)
  }

  function InitialStart(s: Schedule, now: Timestamp): Timestamp {
    if s.first != EMPTY then s.first
    else if s.period.Infinite? then now
    else Aligned(s.kind, now)
  }

  /** Where a first period looked for at `now` begins: where it was told to, at once if it never ends,
      and else with the day, hour or minute that `now` lies in, or with the Monday of that day's
      week, which for a Sunday is the coming one. */
  predicate BeginsAt(s: Schedule, now: Timestamp, origin: Timestamp) {
    if s.first != EMPTY then origin == s.first
    else if s.period.Infinite? then origin == now
    else
      match s.kind
      case Weeks => WholeUnits(origin, ONE_DAY) && IsMonday(origin) && origin - ONE_DAY <= now < origin + ONE_WEEK - ONE_DAY
      case Days => WholeUnits(origin, ONE_DAY) && origin <= now < origin + ONE_DAY
      case Hours => WholeUnits(origin, ONE_HOUR) && origin <= now < origin + ONE_HOUR
      case Minutes => WholeUnits(origin, 60) && origin <= now < origin + 60
      case _ => origin == now
  }

  predicate WholeUnits(t: Timestamp, unit: int)
    requires unit > 0
  {
    t % unit == 0
  }

  /** The first day of all, 1 January 2000, was a Saturday. */
  predicate IsMonday(t: Timestamp) {
    (t / ONE_DAY + 5) % 7 == 0
  }

  lemma InitialBeginsAt(s: Schedule, now: Timestamp)
    requires s.first != EMPTY || s.period.Infinite? || (s.kind != Years && s.kind != Months)
    requires s.first == EMPTY && s.period.Fixed? && s.kind == Weeks ==> ONE_DAY <= now
    ensures BeginsAt(s, now, InitialStart(s, now))
  {
    if s.first == EMPTY && s.period.Fixed? {
      AlignedValue(s.kind, now);
      match s.kind
      case Weeks => MondayFound(now, BrokenDown(now));
      case Days => Whole(now, ONE_DAY);
      case Hours => Whole(now, ONE_HOUR);
      case Minutes => Whole(now, 60);
      case _ =>
    }
  }

  lemma MondayFound(now: Timestamp, tm: Tm)
    requires tm == BrokenDown(now) && ONE_DAY <= now
    ensures var r := U32(now - now % ONE_DAY - (tm.wday - 1) * ONE_DAY);
            WholeUnits(r, ONE_DAY) && IsMonday(r) && r - ONE_DAY <= now < r + ONE_WEEK - ONE_DAY
  {
    var days := now / ONE_DAY;
    DayOfWeek(now, tm);
    WeekStart(now, tm);
    DaySplit(days - tm.wday + 1, 0);
  }

  lemma Whole(now: Timestamp, unit: int)
    requires unit > 0
    ensures WholeUnits(now - now % unit, unit) && now - now % unit <= now < now - now % unit + unit
  {
    QuotientIsUnique(now - now % unit, unit, now / unit, 0);
  }

  /** No other time will do. */
  lemma BeginsAtIsUnique(s: Schedule, now: Timestamp, a: Timestamp, b: Timestamp)
    requires BeginsAt(s, now, a) && BeginsAt(s, now, b)
    ensures a == b
  {
    if s.first == EMPTY && s.period.Fixed? {
      match s.kind
      case Weeks => SameMonday(now, a, b);
      case Days => SameUnit(now, a, b, ONE_DAY);
      case Hours => SameUnit(now, a, b, ONE_HOUR);
      case Minutes => SameUnit(now, a, b, 60);
      case _ =>
    }
  }

  lemma SameUnit(now: int, a: Timestamp, b: Timestamp, unit: int)
    requires unit > 0 && WholeUnits(a, unit) && WholeUnits(b, unit)
    requires a <= now < a + unit && b <= now < b + unit
    ensures a == b
  {
    QuotientIsUnique(now, unit, a / unit, now - a);
    QuotientIsUnique(now, unit, b / unit, now - b);
  }

  lemma SameMonday(now: int, a: Timestamp, b: Timestamp)
    requires WholeUnits(a, ONE_DAY) && IsMonday(a) && WholeUnits(b, ONE_DAY) && IsMonday(b)
    requires a - ONE_DAY <= now < a + ONE_WEEK - ONE_DAY && b - ONE_DAY <= now < b + ONE_WEEK - ONE_DAY
    ensures a == b
  {
    var x, y := a / ONE_DAY, b / ONE_DAY;
    assert a == ONE_DAY * x && b == ONE_DAY * y;
    assert -7 < x - y < 7;
  }

  predicate Contains(i: Interval, t: Timestamp) {
    i.start <= t < i.end
  }

  /** Some interval of the period that began at `start` contains `now`. */
  predicate ActiveAt(s: Schedule, start: Timestamp, now: Timestamp) {
    start != EMPTY && exists i :: 0 <= i < |s.intervals| && Contains(Instantiate(s, start)[i], now)
  }

  /** The start of the period that `now` lies in, counted on from `start`. */
  function Tick(s: Schedule, start: Timestamp, now: Timestamp): int {
    if start == EMPTY then InitialStart(s, now)
    else if (s.first != EMPTY && now < s.first) || now < start || s.period.Infinite? || s.period.seconds <= 0 then start
    else start + (now - start) / s.period.seconds * s.period.seconds
  }

  // ----- The times considered

  /** A stretch of time in which nothing wraps around. It may begin up to a week before the first
      time stamp, because a period may begin up to a week before the time it is looked for. */
  datatype Window = Window(base: int, last: nat)

  predicate In(win: Window, t: int) {
    win.base <= t <= win.last
  }

  /** An offset from any time in the window stays below the empty time, and differences stay
      within a signed 32-bit number. */
  predicate Reaches(win: Window, x: int) {
    0 <= x && win.last + x < EMPTY && win.last + x - win.base < INT32_MAX
  }

  predicate Fits(s: Schedule, win: Window) {
    && Reaches(win, 0) && -ONE_WEEK <= win.base
    && (s.first == EMPTY && s.kind == Weeks && s.period.Fixed? ==> 0 <= win.base)
    && (s.period.Fixed? ==> 0 < s.period.seconds && Reaches(win, s.period.seconds) && s.kind != Years && s.kind != Months)
    && (forall o :: o in s.intervals ==> Reaches(win, o.start) && Reaches(win, o.end))
    && (s.first == EMPTY || In(win, s.first))
  }

  /** A time at which a period may begin without leaving the window. */
  predicate Timely(win: Window, now: int) {
    win.base + ONE_WEEK <= now && now + ONE_DAY <= win.last && win.last < EMPTY
  }

  // ----- Rolling periods

  /** The current period has not ended, or not even begun. */
  predicate PeriodCurrent(s: Schedule, start: int, now: int) {
    s.period.Infinite? || now < start + s.period.seconds
  }

  lemma RolledBounds(start: int, p: int, now: int)
    requires p > 0 && start <= now
    ensures var r := start + (now - start) / p * p; start <= r <= now < r + p
    ensures (start + (now - start) / p * p - start) % p == 0
  {
    var q := (now - start) / p;
    assert now - start == p * q + (now - start) % p;
    assert q * p == p * q;
    assert q >= 0;
    MultipleModulo(q, p);
  }

  lemma MultipleModulo(q: int, p: int)
    requires p > 0
    ensures (q * p) % p == 0
  {
    QuotientIsUnique(q * p, p, q, 0);
  }

  lemma QuotientIsUnique(x: int, p: int, q: int, r: int)
    requires p > 0 && x == p * q + r && 0 <= r < p
    ensures x / p == q && x % p == r
  {
    SmallMultiple(p, x / p - q);
    assert p * (x / p - q) == r - x % p;
  }

  lemma SmallMultiple(p: int, d: int)
    requires p > 0
    ensures -p < p * d < p ==> d == 0
  {
    assert d >= 1 ==> p * d >= p;
    assert d <= -1 ==> p * d <= -p;
  }

  /** Rolling in two steps is rolling in one. */
  lemma RolledTwice(start: int, p: int, now: int, later: int)
    requires p > 0 && start <= now <= later
    ensures var r := start + (now - start) / p * p; r + (later - r) / p * p == start + (later - start) / p * p
  {
    var a, b := (now - start) / p, (later - start) / p;
    RolledBounds(start, p, now);
    RolledBounds(start, p, later);
    var r := start + a * p;
    assert later - r == p * (b - a) + (later - start - b * p) by {
      assert p * (b - a) == b * p - a * p;
    }
    QuotientIsUnique(later - r, p, b - a, later - start - b * p);
    assert (b - a) * p == b * p - a * p;
  }

  lemma InitialInWindow(s: Schedule, win: Window, now: Timestamp)
    requires Fits(s, win) && Timely(win, now)
    ensures In(win, InitialStart(s, now))
  {
    if s.first == EMPTY && s.period.Fixed? {
      AlignedBounds(s.kind, now);
    }
  }

  lemma TickInWindow(s: Schedule, win: Window, start: Timestamp, now: Timestamp)
    requires Fits(s, win) && Timely(win, now) && (start == EMPTY || In(win, start))
    ensures In(win, Tick(s, start, now)) && 0 <= Tick(s, start, now)
    ensures start != EMPTY ==> start <= Tick(s, start, now)
  {
    InitialInWindow(s, win, now);
    if start != EMPTY && s.period.Fixed? && start <= now {
      RolledBounds(start, s.period.seconds, now);
    }
  }

  /** A second look at the same time changes nothing, and neither does a look while the period
      is current. */
  lemma TickWhileCurrent(s: Schedule, start: Timestamp, now: Timestamp)
    requires start != EMPTY && PeriodCurrent(s, start, now)
    ensures Tick(s, start, now) == start
  {
    if s.period.Fixed? && s.period.seconds > 0 && start <= now {
      QuotientIsUnique(now - start, s.period.seconds, 0, now - start);
    }
  }

  /** After a look at a rule whose first period was not later than its present one, the period is
      current. */
  lemma TickMakesCurrent(s: Schedule, win: Window, start: Timestamp, now: Timestamp)
    requires Fits(s, win) && start != EMPTY && (s.first == EMPTY || s.first <= start)
    ensures PeriodCurrent(s, Tick(s, start, now), now)
  {
    if s.period.Fixed? && start <= now {
      RolledBounds(start, s.period.seconds, now);
    }
  }

  /** Looking now and again later is the same as looking only later. */
  lemma TickTwice(s: Schedule, win: Window, start: Timestamp, now: Timestamp, later: Timestamp)
    requires Fits(s, win) && Timely(win, now) && In(win, start) && now <= later
    requires s.first == EMPTY || s.first <= start
    ensures In(win, Tick(s, start, now)) && 0 <= Tick(s, start, now)
    ensures Tick(s, Tick(s, start, now), later) == Tick(s, start, later)
  {
    TickInWindow(s, win, start, now);
    if s.period.Fixed? && start <= now {
      RolledBounds(start, s.period.seconds, now);
      RolledTwice(start, s.period.seconds, now, later);
    }
  }

  /** Any non-decreasing sequence of looks ends where one look at the last time does. */
  function TickAll(s: Schedule, win: Window, start: Timestamp, times: seq<Timestamp>): (r: Timestamp)
    requires Fits(s, win) && In(win, start)
    requires forall t :: t in times ==> Timely(win, t)
    ensures In(win, r) && start <= r
    decreases |times|
  {
    if times == [] then start
    else
      TickInWindow(s, win, start, times[0]);
      TickAll(s, win, Tick(s, start, times[0]), times[1..])
  }

  lemma {:induction false} RollingIsPathIndependent(s: Schedule, win: Window, start: Timestamp, times: seq<Timestamp>)
    requires Fits(s, win) && In(win, start) && (s.first == EMPTY || s.first <= start)
    requires times != [] && forall t :: t in times ==> Timely(win, t)
    requires forall i, j :: 0 <= i < j < |times| ==> times[i] <= times[j]
    ensures TickAll(s, win, start, times) == Tick(s, start, times[|times| - 1])
    decreases |times|
  {
    TickInWindow(s, win, start, times[0]);
    var next := Tick(s, start, times[0]);
    if |times| == 1 {
      assert TickAll(s, win, next, times[1..]) == next;
    } else {
      RollingIsPathIndependent(s, win, next, times[1..]);
      TickTwice(s, win, start, times[0], times[|times| - 1]);
    }
  }

  /** In the period of `now`, a rule is active exactly when some interval contains the time
      since the original start, modulo the period. Intervals that reach beyond the period count
      only up to its end. */
  lemma ActiveModuloPeriod(s: Schedule, win: Window, start: Timestamp, now: Timestamp)
    requires Fits(s, win) && s.period.Fixed? && Timely(win, now) && In(win, start) && start <= now
    requires s.first == EMPTY || s.first <= start
    ensures In(win, Tick(s, start, now)) && 0 <= Tick(s, start, now)
    ensures ActiveAt(s, Tick(s, start, now), now)
       <==> exists o :: o in s.intervals && o.start <= (now - start) % s.period.seconds < o.end
  {
    var p := s.period.seconds;
    var q := (now - start) / p;
    TickInWindow(s, win, start, now);
    var r := Tick(s, start, now);
    assert now - r == (now - start) % p by {
      assert now - start == p * q + (now - start) % p;
      assert p * q == q * p;
    }
    ActiveInWindow(s, win, r, now);
  }

  lemma ActiveInWindow(s: Schedule, win: Window, start: Timestamp, now: Timestamp)
    requires Fits(s, win) && In(win, start)
    ensures ActiveAt(s, start, now) <==> exists o :: o in s.intervals && start + o.start <= now < start + o.end
  {
    forall i | 0 <= i < |s.intervals|
      ensures Instantiate(s, start)[i] == Interval(start + s.intervals[i].start, start + s.intervals[i].end)
    {
      var o := s.intervals[i];
      assert o in s.intervals;
      U32Small(start + o.start);
      U32Small(start + o.end);
    }
    if exists o :: o in s.intervals && start + o.start <= now < start + o.end {
      var o :| o in s.intervals && start + o.start <= now < start + o.end;
      var i :| 0 <= i < |s.intervals| && s.intervals[i] == o;
      assert Contains(Instantiate(s, start)[i], now);
    }
  }
}
