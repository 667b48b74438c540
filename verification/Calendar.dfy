/** Calendar time: the day-counting reference, and the two conversions of the firmware's time
    library proved against it. */
module Calendar {
  const ONE_DAY := 86400
  const ONE_HOUR := 3600
  const EPOCH_YEAR := 2000
  const TM_EPOCH_YEAR := 100  // tm_year counts from 1900
  const TWO_32 := 0x1_0000_0000

  type Timestamp = t: int | 0 <= t < TWO_32

  /** The broken-down time. `mon` counts from 0, `mday` from 1, `year` from 1900. */
  datatype Tm = Tm(sec: int, min: int, hour: int, mday: int, wday: int, mon: int, year: int, yday: int)

  // ----- Leap years and month lengths

  function IsLeapYear(year: int): (r: int)
    ensures 0 <= r <= 1
  {
    if year % 4 != 0 then 0
    else if year % 100 != 0 then 1
    else if (year / 100) % 4 == 0 then 1
    else 0
  }

  lemma LeapYearsAreGregorian(year: int)
    ensures IsLeapYear(year) == if year % 4 == 0 && (year % 100 != 0 || year % 400 == 0) then 1 else 0
  {
    assert year == 100 * (year / 100) + year % 100;
  }

  /** `month` counts from 1. */
  function LengthOfMonth(leap: int, month: int): int {
    if month == 2 then 28 + leap
    else 30 + (if month > 7 then month + 1 else month) % 2
  }

  function MonthLength(year: int, month: int): int {
    LengthOfMonth(IsLeapYear(year), month)
  }

  function YearLength(year: int): (r: int)
    ensures 365 <= r <= 366
  {
    365 + IsLeapYear(year)
  }

  // ----- The reference: count the days

  function DaysBeforeYear(year: int): (r: nat)
    requires year >= EPOCH_YEAR
    decreases year
  {
    if year == EPOCH_YEAR then 0 else DaysBeforeYear(year - 1) + YearLength(year - 1)
  }

  function DaysBefore(leap: nat, mon: nat): (r: nat)
    requires mon <= 12
    decreases mon
  {
    if mon == 0 then 0 else DaysBefore(leap, mon - 1) + LengthOfMonth(leap, mon)
  }

  function DaysBeforeMonth(year: int, mon: nat): (r: nat)
    requires mon <= 12
  {
    DaysBefore(IsLeapYear(year), mon)
  }

  /** Takes off whole years as long as they fit. */
  function YearOf(days: nat, year: int): (r: (int, nat))
    requires year >= EPOCH_YEAR
    ensures r.0 >= year
    decreases days
  {
    if days < YearLength(year) then (year, days) else YearOf(days - YearLength(year), year + 1)
  }

  /** Takes off whole months as long as they fit. */
  function MonthOf(year: int, days: nat, mon: nat): (r: (nat, nat))
    requires mon <= 11
    ensures r.0 <= 11
    decreases 12 - mon
  {
    if mon == 11 || days < MonthLength(year, mon + 1) then (mon, days)
    else MonthOf(year, days - MonthLength(year, mon + 1), mon + 1)
  }

  function BrokenDown(t: nat): Tm {
    var days, s := t / ONE_DAY, t % ONE_DAY;
    var (year, yday) := YearOf(days, EPOCH_YEAR);
    var (mon, mday) := MonthOf(year, yday, 0);
    Tm(s % 60, s / 60 % 60, s / 3600, mday + 1, (days + 6) % 7, mon, year - 1900, yday)
  }

  function DayNumber(year: int, mon: nat, mday: int): int
    requires year >= EPOCH_YEAR && mon <= 11
  {
    DaysBeforeYear(year) + DaysBeforeMonth(year, mon) + mday - 1
  }

  function SecondOfDay(tm: Tm): int {
    ONE_HOUR * tm.hour + 60 * tm.min + tm.sec
  }

  /** Seconds since the epoch, without any limit of width. */
  function Stamp(tm: Tm): int
    requires tm.year >= TM_EPOCH_YEAR && 0 <= tm.mon <= 11
  {
    ONE_DAY * DayNumber(tm.year + 1900, tm.mon, tm.mday) + SecondOfDay(tm)
  }

  predicate ValidDate(tm: Tm) {
    && tm.year >= TM_EPOCH_YEAR && 0 <= tm.mon <= 11
    && 1 <= tm.mday <= MonthLength(tm.year + 1900, tm.mon + 1)
  }

  predicate ValidTime(tm: Tm) {
    0 <= tm.hour < 24 && 0 <= tm.min < 60 && 0 <= tm.sec < 60
  }

  /** A date and time whose day of week and day of year belong to it. */
  predicate Consistent(tm: Tm) {
    && ValidDate(tm) && ValidTime(tm)
    && tm.yday == DaysBeforeMonth(tm.year + 1900, tm.mon) + tm.mday - 1
    && tm.wday == (DayNumber(tm.year + 1900, tm.mon, tm.mday) + 6) % 7
  }

  // ----- Counting days up and down

  lemma {:induction false} YearOfCounts(days: nat, year: int)
    requires year >= EPOCH_YEAR
    ensures var (y, d) := YearOf(days, year);
            DaysBeforeYear(y) + d == DaysBeforeYear(year) + days && d < YearLength(y)
    decreases days
  {
    if days >= YearLength(year) {
      YearOfCounts(days - YearLength(year), year + 1);
    }
  }

  lemma {:induction false} DaysBeforeYearGrows(y: int, z: int)
    requires EPOCH_YEAR <= y < z
    ensures DaysBeforeYear(y) + YearLength(y) <= DaysBeforeYear(z)
    decreases z
  {
    if y < z - 1 {
      DaysBeforeYearGrows(y, z - 1);
    }
  }

  /** A day lies in exactly one year. */
  lemma YearOfIsUnique(days: nat, y: int, d: nat)
    requires y >= EPOCH_YEAR && d < YearLength(y) && days == DaysBeforeYear(y) + d
    ensures YearOf(days, EPOCH_YEAR) == (y, d)
  {
    YearOfCounts(days, EPOCH_YEAR);
    var (y', d') := YearOf(days, EPOCH_YEAR);
    if y < y' {
      DaysBeforeYearGrows(y, y');
    } else if y' < y {
      DaysBeforeYearGrows(y', y);
    }
  }

  lemma MonthLengthBounds(year: int, month: int)
    requires 1 <= month <= 12
    ensures 28 <= MonthLength(year, month) <= 31
  {
  }

  /** The days of a year before each month. */
  function MonthTable(leap: int, mon: nat): int
    requires mon <= 12
  {
    if mon == 0 then 0
    else if mon == 1 then 31
    else
      leap + match mon
             case 2 => 59
             case 3 => 90
             case 4 => 120
             case 5 => 151
             case 6 => 181
             case 7 => 212
             case 8 => 243
             case 9 => 273
             case 10 => 304
             case 11 => 334
             case _ => 365
  }

  lemma DaysBeforeMonthTable(year: int, mon: nat)
    requires mon <= 12
    ensures DaysBeforeMonth(year, mon) == MonthTable(IsLeapYear(year), mon)
  {
    DaysBeforeTable(IsLeapYear(year), mon);
  }

  lemma {:induction false} DaysBeforeTable(leap: nat, mon: nat)
    requires mon <= 12
    ensures DaysBefore(leap, mon) == MonthTable(leap, mon)
  {
    assert DaysBefore(leap, 2) == 59 + leap;
    assert DaysBefore(leap, 4) == 120 + leap;
    assert DaysBefore(leap, 6) == 181 + leap;
    assert DaysBefore(leap, 8) == 243 + leap;
    assert DaysBefore(leap, 10) == 304 + leap;
    assert DaysBefore(leap, 12) == 365 + leap;
  }

  lemma {:induction false} MonthOfCounts(year: int, days: nat, mon: nat)
    requires mon <= 11 && DaysBeforeMonth(year, mon) + days < YearLength(year)
    ensures var (m, d) := MonthOf(year, days, mon);
            DaysBeforeMonth(year, m) + d == DaysBeforeMonth(year, mon) + days && d < MonthLength(year, m + 1)
    decreases 12 - mon
  {
    if mon == 11 {
      DaysBeforeMonthTable(year, 12);
      DaysBeforeMonthTable(year, 11);
    } else if days >= MonthLength(year, mon + 1) {
      MonthOfCounts(year, days - MonthLength(year, mon + 1), mon + 1);
    }
  }

  lemma {:induction false} DaysBeforeMonthGrows(year: int, m: nat, n: nat)
    requires m < n <= 12
    ensures DaysBeforeMonth(year, m) + MonthLength(year, m + 1) <= DaysBeforeMonth(year, n)
    decreases n
  {
    MonthLengthBounds(year, n);
    if m < n - 1 {
      DaysBeforeMonthGrows(year, m, n - 1);
    }
  }

  lemma MonthOfIsUnique(year: int, days: nat, m: nat, d: nat)
    requires m <= 11 && d < MonthLength(year, m + 1) && days == DaysBeforeMonth(year, m) + d
    ensures days < YearLength(year)
    ensures MonthOf(year, days, 0) == (m, d)
  {
    DaysBeforeMonthTable(year, 12);
    DaysBeforeMonthGrows(year, m, 12);
    MonthOfCounts(year, days, 0);
    var (m', d') := MonthOf(year, days, 0);
    if m < m' {
      DaysBeforeMonthGrows(year, m, m');
    } else if m' < m {
      DaysBeforeMonthGrows(year, m', m);
    }
  }

  lemma ClockParts(s: int)
    requires 0 <= s < ONE_DAY
    ensures 0 <= s / 3600 < 24
    ensures ONE_HOUR * (s / 3600) + 60 * (s / 60 % 60) + s % 60 == s
  {
    assert s / 60 / 60 == s / 3600;
  }

  lemma ClockIsUnique(h: int, m: int, c: int)
    requires 0 <= h < 24 && 0 <= m < 60 && 0 <= c < 60
    ensures var s := ONE_HOUR * h + 60 * m + c; 0 <= s < ONE_DAY && s / 3600 == h && s / 60 % 60 == m && s % 60 == c
  {
    var s := ONE_HOUR * h + 60 * m + c;
    assert s / 60 == 60 * h + m;
  }

  lemma DaySplit(days: int, s: int)
    requires 0 <= s < ONE_DAY
    ensures (ONE_DAY * days + s) / ONE_DAY == days && (ONE_DAY * days + s) % ONE_DAY == s
  {
  }

  /** Counting down gives a real date and time, and counting it up again gives the same second. */
  lemma BrokenDownIsConsistent(t: nat)
    ensures Consistent(BrokenDown(t)) && Stamp(BrokenDown(t)) == t
  {
    var days, s := t / ONE_DAY, t % ONE_DAY;
    YearOfCounts(days, EPOCH_YEAR);
    var (year, yday) := YearOf(days, EPOCH_YEAR);
    MonthOfCounts(year, yday, 0);
    ClockParts(s);
  }

  /** A valid date and time, with its own day of week and of year, is what its second breaks
      down to. */
  lemma StampIsInverse(tm: Tm)
    requires Consistent(tm)
    ensures Stamp(tm) >= 0 && BrokenDown(Stamp(tm)) == tm
  {
    Inverse(tm, DayNumber(tm.year + 1900, tm.mon, tm.mday), Stamp(tm));
  }

  lemma Inverse(tm: Tm, days: int, t: int)
    requires ValidDate(tm) && ValidTime(tm) && days == DayNumber(tm.year + 1900, tm.mon, tm.mday)
    requires tm.yday == DaysBeforeMonth(tm.year + 1900, tm.mon) + tm.mday - 1 && tm.wday == (days + 6) % 7
    requires t == ONE_DAY * days + SecondOfDay(tm)
    ensures t >= 0 && BrokenDown(t) == tm
  {
    DateIsUnique(tm.year + 1900, tm.mon, tm.mday - 1, tm.yday, days);
    BrokenDownParts(tm, days, t);
  }

  lemma BrokenDownParts(tm: Tm, days: nat, t: nat)
    requires t == ONE_DAY * days + SecondOfDay(tm) && ValidTime(tm)
    requires YearOf(days, EPOCH_YEAR) == (tm.year + 1900, tm.yday) && tm.wday == (days + 6) % 7
    requires 0 <= tm.yday < YearLength(tm.year + 1900) && MonthOf(tm.year + 1900, tm.yday, 0) == (tm.mon, tm.mday - 1)
    ensures BrokenDown(t) == tm
  {
    SplitClock(days, tm.hour, tm.min, tm.sec, t);
  }

  lemma SplitClock(days: nat, h: int, m: int, c: int, t: nat)
    requires 0 <= h < 24 && 0 <= m < 60 && 0 <= c < 60 && t == ONE_DAY * days + (ONE_HOUR * h + 60 * m + c)
    ensures t / ONE_DAY == days
    ensures var s := t % ONE_DAY; s / 3600 == h && s / 60 % 60 == m && s % 60 == c
  {
    ClockIsUnique(h, m, c);
    DaySplit(days, ONE_HOUR * h + 60 * m + c);
  }

  lemma DateIsUnique(year: int, mon: nat, d: nat, yday: int, days: int)
    requires year >= EPOCH_YEAR && mon <= 11 && d < MonthLength(year, mon + 1)
    requires yday == DaysBeforeMonth(year, mon) + d && days == DaysBeforeYear(year) + yday
    ensures 0 <= yday < YearLength(year) && MonthOf(year, yday, 0) == (mon, d)
    ensures days >= 0 && YearOf(days, EPOCH_YEAR) == (year, yday)
  {
    MonthOfIsUnique(year, yday, mon, d);
    YearOfIsUnique(days, year, yday);
  }
}
