/** The clock's alarm, which knows nothing of months and years: it goes off whenever the day of
    the month, hour, minute and second are those it was set to. */
module Alarm {
  import opened Calendar

  datatype AlarmTime = AlarmTime(mday: int, hour: int, min: int, sec: int)

  function AlarmOf(t: nat): AlarmTime {
    var tm := BrokenDown(t);
    AlarmTime(tm.mday, tm.hour, tm.min, tm.sec)
  }

  predicate Matches(a: AlarmTime, t: nat) {
    AlarmOf(t) == a
  }

  /** The alarm set at `now` for an update at `next`: its own time if that is this month,
      otherwise that of midnight on 1 January 2000, which comes round every month. */
  function Armed(now: nat, next: nat): AlarmTime {
    if BrokenDown(now).mon == BrokenDown(next).mon && BrokenDown(now).year == BrokenDown(next).year then AlarmOf(next)
    else AlarmOf(0)
  }

  // ----- Months

  /** Months since the year 1900. */
  function MonthNumber(t: nat): (r: nat)
    ensures r >= 12 * TM_EPOCH_YEAR
  {
    var tm := BrokenDown(t);
    BrokenDownIsConsistent(t);
    12 * tm.year + tm.mon
  }

  function StartOf(year: nat, mon: nat): int
    requires year >= TM_EPOCH_YEAR && mon <= 11
  {
    ONE_DAY * (DaysBeforeYear(1900 + year) + DaysBeforeMonth(1900 + year, mon))
  }

  function StartOfMonth(m: nat): int
    requires m >= 12 * TM_EPOCH_YEAR
  {
    StartOf(m / 12, m % 12)
  }

  lemma SameMonthIff(t: nat, u: nat)
    ensures MonthNumber(t) == MonthNumber(u)
       <==> BrokenDown(t).mon == BrokenDown(u).mon && BrokenDown(t).year == BrokenDown(u).year
  {
    BrokenDownIsConsistent(t);
    BrokenDownIsConsistent(u);
    MonthParts(MonthNumber(t), BrokenDown(t).year, BrokenDown(t).mon);
    MonthParts(MonthNumber(u), BrokenDown(u).year, BrokenDown(u).mon);
  }

  lemma MonthParts(m: nat, year: nat, mon: nat)
    requires m == 12 * year + mon && mon <= 11
    ensures m / 12 == year && m % 12 == mon
  {
  }

  /** The second within its month, from the fields an alarm compares. */
  lemma TimeFromMonth(t: nat)
    ensures var a := AlarmOf(t);
            && t == StartOfMonth(MonthNumber(t)) + ONE_DAY * (a.mday - 1) + ONE_HOUR * a.hour + 60 * a.min + a.sec
            && 0 <= ONE_HOUR * a.hour + 60 * a.min + a.sec < ONE_DAY
            && 1 <= a.mday <= MonthLength(1900 + MonthNumber(t) / 12, MonthNumber(t) % 12 + 1)
            && 0 <= a.hour && 0 <= a.min && 0 <= a.sec
  {
    var tm := BrokenDown(t);
    BrokenDownIsConsistent(t);
    MonthParts(MonthNumber(t), tm.year, tm.mon);
    ClockIsUnique(tm.hour, tm.min, tm.sec);
  }

  lemma NextMonthStarts(m: nat)
    requires m >= 12 * TM_EPOCH_YEAR
    ensures StartOfMonth(m + 1) == StartOfMonth(m) + ONE_DAY * MonthLength(1900 + m / 12, m % 12 + 1)
  {
    var year, mon := m / 12, m % 12;
    if mon == 11 {
      MonthParts(m + 1, year + 1, 0);
      NextYearStarts(year);
    } else {
      MonthParts(m + 1, year, mon + 1);
    }
  }

  lemma NextYearStarts(year: nat)
    requires year >= TM_EPOCH_YEAR
    ensures StartOf(year + 1, 0) == StartOf(year, 11) + ONE_DAY * MonthLength(1900 + year, 12)
  {
    DaysBeforeMonthTable(1900 + year, 12);
    DaysBeforeMonthTable(1900 + year, 11);
    assert DaysBeforeYear(1901 + year) == DaysBeforeYear(1900 + year) + YearLength(1900 + year);
  }

  lemma {:induction false} MonthsInOrder(m: nat, n: nat)
    requires 12 * TM_EPOCH_YEAR <= m <= n
    ensures StartOfMonth(m) <= StartOfMonth(n)
    ensures m < n ==> StartOfMonth(m + 1) <= StartOfMonth(n)
    decreases n
  {
    if m < n {
      MonthsInOrder(m, n - 1);
      NextMonthStarts(n - 1);
      NextMonthStarts(m);
    }
  }

  /** A time lies in exactly one month. */
  lemma InItsMonth(t: nat)
    ensures StartOfMonth(MonthNumber(t)) <= t < StartOfMonth(MonthNumber(t) + 1)
  {
    TimeFromMonth(t);
    NextMonthStarts(MonthNumber(t));
  }

  lemma LaterMonths(t: nat, u: nat)
    requires t <= u
    ensures MonthNumber(t) <= MonthNumber(u)
  {
    InItsMonth(t);
    InItsMonth(u);
    if MonthNumber(u) < MonthNumber(t) {
      MonthsInOrder(MonthNumber(u), MonthNumber(t));
    }
  }

  lemma MonthOfItsStart(m: nat)
    requires m >= 12 * TM_EPOCH_YEAR
    ensures StartOfMonth(m) >= 0 && MonthNumber(StartOfMonth(m)) == m
  {
    InItsMonth(StartOfMonth(m));
    var n := MonthNumber(StartOfMonth(m));
    NextMonthStarts(m);
    if n < m {
      MonthsInOrder(n, m);
    } else if m < n {
      MonthsInOrder(m, n);
    }
  }

  // ----- When the alarm goes off

  lemma MonthAlarm(t: nat)
    ensures Matches(AlarmOf(0), t) <==> t == StartOfMonth(MonthNumber(t))
  {
    TimeFromMonth(t);
    TimeFromMonth(0);
    assert AlarmOf(0) == AlarmTime(1, 0, 0, 0) by {
      assert YearOf(0, EPOCH_YEAR) == (EPOCH_YEAR, 0);
      assert MonthOf(EPOCH_YEAR, 0, 0) == (0, 0);
    }
  }

  /** An alarm for this month goes off at no other time of it. */
  lemma OnlyMatch(now: nat, next: nat, t: nat)
    requires MonthNumber(now) == MonthNumber(next) == MonthNumber(t) && t != next
    ensures !Matches(Armed(now, next), t)
  {
    SameMonthIff(now, next);
    TimeFromMonth(t);
    TimeFromMonth(next);
  }

  /** January 2000. */
  lemma FirstMonth(t: nat)
    requires t < 31 * ONE_DAY
    ensures MonthNumber(t) == 12 * TM_EPOCH_YEAR
  {
    var m := 12 * TM_EPOCH_YEAR;
    InItsMonth(t);
    MonthOfItsStart(m);
    NextMonthStarts(m);
    MonthsInOrder(m, MonthNumber(t));
  }

  /** The first wake-up after `now` for an update at `next`. */
  function FirstWake(now: nat, next: nat): nat {
    if MonthNumber(now) == MonthNumber(next) then next
    else
      MonthOfItsStart(MonthNumber(now) + 1);
      StartOfMonth(MonthNumber(now) + 1)
  }

  lemma WakesAtOrBefore(now: nat, next: nat)
    requires now < next
    ensures now < FirstWake(now, next) <= next
    ensures Matches(Armed(now, next), FirstWake(now, next))
  {
    SameMonthIff(now, next);
    LaterMonths(now, next);
    var m := MonthNumber(now) + 1;
    if m <= MonthNumber(next) {
      MonthOfItsStart(m);
      InItsMonth(now);
      InItsMonth(next);
      MonthsInOrder(m, MonthNumber(next));
      MonthAlarm(StartOfMonth(m));
    }
  }

  /** The alarm is never late. After `now` it first goes off exactly at `next` when that is this
      month, and otherwise at the start of the coming month, which `next` does not precede. */
  lemma AlarmIsNeverLate(now: nat, next: nat)
    requires now < next
    ensures now < FirstWake(now, next) <= next
    ensures Matches(Armed(now, next), FirstWake(now, next))
    ensures forall t :: now < t < FirstWake(now, next) ==> !Matches(Armed(now, next), t)
  {
    WakesAtOrBefore(now, next);
    forall t | now < t < FirstWake(now, next)
      ensures !Matches(Armed(now, next), t)
    {
      NoEarlierMatch(now, next, t);
    }
  }

  /** An alarm that has not gone off before `next` goes off then. */
  lemma GoesOffInTime(now: nat, next: nat)
    requires now < next && forall t :: now < t < next ==> !Matches(Armed(now, next), t)
    ensures Matches(Armed(now, next), next)
  {
    AlarmIsNeverLate(now, next);
  }

  lemma NoEarlierMatch(now: nat, next: nat, t: nat)
    requires now < t < FirstWake(now, next) && now < next
    ensures !Matches(Armed(now, next), t)
  {
    SameMonthIff(now, next);
    LaterMonths(now, t);
    if MonthNumber(now) == MonthNumber(next) {
      LaterMonths(t, next);
      TimeFromMonth(t);
      TimeFromMonth(next);
    } else {
      InItsMonth(t);
      InItsMonth(now);
      if MonthNumber(now) < MonthNumber(t) {
        MonthsInOrder(MonthNumber(now), MonthNumber(t));
      }
      MonthAlarm(t);
    }
  }

  /** Setting the alarm again at a wake-up that came too early brings the update a month closer. */
  lemma RearmingEnds(now: nat, next: nat)
    requires now < next && FirstWake(now, next) < next
    ensures MonthNumber(now) < MonthNumber(FirstWake(now, next)) <= MonthNumber(next)
  {
    AlarmIsNeverLate(now, next);
    MonthOfItsStart(MonthNumber(now) + 1);
    LaterMonths(FirstWake(now, next), next);
  }

  /** Every wake-up until the update. */
  function Wakes(now: nat, next: nat): (r: seq<nat>)
    requires now < next
    ensures r != [] && r[|r| - 1] == next
    ensures forall k :: 0 <= k < |r| - 1 ==> now < r[k] < next
    decreases MonthNumber(next) - MonthNumber(now)
  {
    AlarmIsNeverLate(now, next);
    var wake := FirstWake(now, next);
    if wake == next then [next]
    else
      RearmingEnds(now, next);
      [wake] + Wakes(wake, next)
  }

  /** One wake-up for each month that begins on the way, and the update itself. */
  lemma {:induction false} WakesPerMonth(now: nat, next: nat)
    requires now < next
    ensures var m, n := MonthNumber(now), MonthNumber(next);
            |Wakes(now, next)| == n - m + if m < n && next == StartOfMonth(n) then 0 else 1
    decreases MonthNumber(next) - MonthNumber(now)
  {
    WakesAtOrBefore(now, next);
    LaterMonths(now, next);
    var wake := FirstWake(now, next);
    if MonthNumber(now) < MonthNumber(next) {
      MonthOfItsStart(MonthNumber(now) + 1);
      if wake < next {
        RearmingEnds(now, next);
        WakesPerMonth(wake, next);
      }
    }
  }
}
