/** The division tricks of the time library, proved to count days. */
module TimeLibrary {
  import opened Calendar

  // ----- Unsigned 32-bit arithmetic

  function U32(x: int): Timestamp {
    x % TWO_32
  }

  lemma U32Small(x: int)
    requires 0 <= x < TWO_32
    ensures U32(x) == x
  {
  }

  lemma U32Add(x: int, y: int)
    ensures U32(U32(x) + y) == U32(x + y)
  {
  }

  lemma U32Scale(x: int, k: int)
    ensures U32(U32(x) * k) == U32(x * k)
  {
    var q := x / TWO_32;
    assert x == TWO_32 * q + U32(x);
    assert x * k == TWO_32 * (q * k) + U32(x) * k by {
      assert (TWO_32 * q) * k == TWO_32 * (q * k);
    }
    MultipleDropped(U32(x) * k, q * k);
  }

  lemma MultipleDropped(x: int, n: int)
    ensures U32(x + TWO_32 * n) == U32(x)
  {
  }

  // ----- Days before a year, in closed form

  /** The years since 2000 in closed form; the 400-year rule does not come into it before 2400. */
  function LeapsBefore(n: nat): int {
    if n == 0 then 0 else (n - 1) / 4 - (n - 1) / 100 + 1
  }

  lemma LeapsBeforeStep(n: nat)
    requires n < 400
    ensures LeapsBefore(n + 1) == LeapsBefore(n) + IsLeapYear(EPOCH_YEAR + n)
  {
    LeapByOffset(n);
    if n > 0 {
      FourthStep(n);
      HundredthStep(n);
    }
  }

  lemma LeapByOffset(n: nat)
    requires n < 400
    ensures IsLeapYear(EPOCH_YEAR + n) == if n % 4 == 0 && (n % 100 != 0 || n == 0) then 1 else 0
    ensures n % 100 == 0 ==> n % 4 == 0
  {
    assert (EPOCH_YEAR + n) % 4 == n % 4;
    assert (EPOCH_YEAR + n) % 100 == n % 100;
    assert (EPOCH_YEAR + n) % 400 == n % 400;
  }

  lemma FourthStep(n: nat)
    requires n > 0
    ensures n / 4 - (n - 1) / 4 == if n % 4 == 0 then 1 else 0
  {
  }

  lemma HundredthStep(n: nat)
    requires n > 0
    ensures n / 100 - (n - 1) / 100 == if n % 100 == 0 then 1 else 0
  {
  }

  lemma {:induction false} DaysBeforeYearClosed(n: nat)
    requires n <= 400
    ensures DaysBeforeYear(EPOCH_YEAR + n) == 365 * n + LeapsBefore(n)
    decreases n
  {
    if n > 0 {
      DaysBeforeYearClosed(n - 1);
      LeapsBeforeStep(n - 1);
    }
  }

  // ----- gmtime_r

  /** A day that lies `d` days into year `y`, and so is found there. */
  predicate LiesIn(days: nat, y: int, d: int) {
    y >= EPOCH_YEAR && 0 <= d < YearLength(y) && days == DaysBeforeYear(y) + d
  }

  /** The year, the day of the year and the leap flag. The flag may be 0 in a leap year, but
      then the day is its first. */
  method YearAndDay(day: nat) returns (years: nat, days: nat, leapyear: nat)
    requires day < 2 * 36525
    ensures LiesIn(day, EPOCH_YEAR + years, days) && years <= 200
    ensures leapyear == IsLeapYear(EPOCH_YEAR + years) || (leapyear == 0 && days == 0)
  {
    years := 100 * (day / 36525);
    var rem := day % 36525;
    years := years + 4 * (rem / 1461);
    days := rem % 1461;
    if years > 100 {
      days := days + 1;
    }
    ghost var cycle, first := years, days;
    CycleStart(day, years, days);
    leapyear := 1;
    if years == 100 {
      leapyear := 0;
    }
    var n := 364 + leapyear;
    if days > n {
      days := days - leapyear;
      leapyear := 0;
      years := years + days / 365;
      days := days % 365;
    }
    YearInCycle(day, cycle, first);
  }

  /** The start of a four-year cycle: the divisions by 36525 and 1461, and the correction after
      2100, give its first year and the day counted from 1 January of that year. */
  lemma CycleStart(day: nat, years: nat, days: nat)
    requires day < 2 * 36525
    requires years == 100 * (day / 36525) + 4 * (day % 36525 / 1461)
    requires days == day % 36525 % 1461 + if years > 100 then 1 else 0
    ensures years % 4 == 0 && years <= 196 && days <= if years > 100 then 1461 else 1460
    ensures day == 365 * years + LeapsBefore(years) + days
  {
    var c, rem := day / 36525, day % 36525;
    var q := rem / 1461;
    assert day == 36525 * c + rem && rem == 1461 * q + rem % 1461;
    assert c <= 1 && q <= 24;
    QuarterCount(c, q);
  }

  lemma QuarterCount(c: nat, q: nat)
    requires c <= 1 && q <= 24
    ensures var y := 100 * c + 4 * q;
            LeapsBefore(y) == if y == 0 then 0 else if y <= 100 then 25 * c + q else 24 + q
  {
    var y := 100 * c + 4 * q;
    if y > 0 {
      assert (y - 1) / 4 == 25 * c + q - 1;
      assert (y - 1) / 100 == if y > 100 then 1 else 0;
    }
  }

  /** Within a cycle: the first year, or one of the next by division by 365. */
  lemma YearInCycle(day: nat, cycle: nat, first: nat)
    requires cycle % 4 == 0 && cycle <= 196 && first <= if cycle > 100 then 1461 else 1460
    requires day == 365 * cycle + LeapsBefore(cycle) + first
    ensures var leap := if cycle == 100 then 0 else 1;
            if first > 364 + leap then
              var y, d := cycle + (first - leap) / 365, (first - leap) % 365;
              && LiesIn(day, EPOCH_YEAR + y, d) && y <= 200
              && (IsLeapYear(EPOCH_YEAR + y) == 0 || d == 0)
            else
              LiesIn(day, EPOCH_YEAR + cycle, first) && IsLeapYear(EPOCH_YEAR + cycle) == leap
  {
    var leap := if cycle == 100 then 0 else 1;
    DaysBeforeYearClosed(cycle);
    LeapOfCycle(cycle);
    if first > 364 + leap {
      var k := (first - leap) / 365;
      assert 1 <= k <= 4 && (k == 4 ==> first - leap == 1460);
      DaysBeforeYearClosed(cycle + k);
      LeapsInCycle(cycle, k);
    }
  }

  lemma LeapsInCycle(cycle: nat, k: nat)
    requires cycle % 4 == 0 && cycle <= 196 && 1 <= k <= 4
    ensures LeapsBefore(cycle + k) == LeapsBefore(cycle) + if cycle == 100 then 0 else 1
    decreases k
  {
    LeapOfCycle(cycle);
    LeapsBeforeStep(cycle + k - 1);
    if k > 1 {
      LeapsInCycle(cycle, k - 1);
    }
  }

  lemma LeapOfCycle(cycle: nat)
    requires cycle % 4 == 0 && cycle <= 196
    ensures IsLeapYear(EPOCH_YEAR + cycle) == if cycle == 100 then 0 else 1
    ensures IsLeapYear(EPOCH_YEAR + cycle + 1) == 0
    ensures IsLeapYear(EPOCH_YEAR + cycle + 2) == 0
    ensures IsLeapYear(EPOCH_YEAR + cycle + 3) == 0
  {
  }

  // ----- The month within the year

  method MonthAndDay(day: nat, leapyear: nat, ghost year: int) returns (mon: nat, mday: nat)
    requires day < YearLength(year)
    requires leapyear == IsLeapYear(year) || (leapyear == 0 && day == 0)
    ensures (mon, mday - 1) == MonthOf(year, day, 0) && mday >= 1
  {
    var days := day;
    var n := 59 + leapyear;
    if days < n {
      mon := days / 31;
      mday := days % 31;
      EarlyMonth(year, day);
    } else {
      days := days - n;
      mon := 2 + days / 153 * 5;
      var rem := days % 153;
      mon := mon + rem / 61 * 2;
      rem := rem % 61;
      mon := mon + rem / 31;
      mday := rem % 31;
      LateMonth(year, days);
    }
    mday := mday + 1;
  }

  lemma EarlyMonth(year: int, day: nat)
    requires day < 59 + IsLeapYear(year)
    ensures MonthOf(year, day, 0) == (day / 31, day % 31)
  {
    DaysBeforeMonthTable(year, day / 31);
    MonthOfIsUnique(year, day, day / 31, day % 31);
  }

  /** March to July and August to December: five months of 153 days, in pairs of 61. */
  lemma LateMonth(year: int, d: nat)
    requires d <= 305
    ensures MonthOf(year, d + 59 + IsLeapYear(year), 0)
         == (2 + d / 153 * 5 + d % 153 / 61 * 2 + d % 153 % 61 / 31, d % 153 % 61 % 31)
  {
    var half, rem := d / 153, d % 153;
    var pair, rest := rem / 61, rem % 61;
    var second, day := rest / 31, rest % 31;
    var mon := 2 + half * 5 + pair * 2 + second;
    assert half <= 1 && pair <= 2 && second <= 1;
    assert d == 153 * half + 61 * pair + 31 * second + day;
    assert pair == 2 ==> second == 0;
    MonthTableByPairs(year, half, pair, second);
    MonthOfIsUnique(year, d + 59 + IsLeapYear(year), mon, day);
  }

  lemma MonthTableByPairs(year: int, half: nat, pair: nat, second: nat)
    requires half <= 1 && pair <= 2 && second <= 1 && (pair == 2 ==> second == 0)
    ensures var mon := 2 + half * 5 + pair * 2 + second;
            && DaysBeforeMonth(year, mon) == 59 + IsLeapYear(year) + 153 * half + 61 * pair + 31 * second
            && MonthLength(year, mon + 1) == if second == 1 then 30 else 31
  {
    DaysBeforeMonthTable(year, (if half == 0 then 2 else 7) + (if pair == 0 then 0 else if pair == 1 then 2 else 4) + second);
  }

  // ----- gmtime_r and mk_gmtime

  /** Every 32-bit time stamp is broken down as the reference calendar does it. */
  method GmTime(timer: Timestamp) returns (tm: Tm)
    ensures tm == BrokenDown(timer)
  {
    var days := timer / ONE_DAY;
    var fract := timer % ONE_DAY;
    var minutes := fract / 60;
    var sec, min, hour := fract % 60, minutes % 60, minutes / 60;
    assert hour == fract / 3600;
    var n := days + 6;
    var wday := n % 7;
    assert days <= 49710;
    var years, yday, leapyear := YearAndDay(days);
    YearOfIsUnique(days, EPOCH_YEAR + years, yday);
    var mon, mday := MonthAndDay(yday, leapyear, EPOCH_YEAR + years);
    tm := Tm(sec, min, hour, mday, wday, mon, 100 + years, yday);
  }

  /** The month that the conversion takes `mon` for: it does not carry into the next or the
      previous year. */
  function EffectiveMonth(mon: int): (r: nat)
    ensures r <= 11
    ensures r == mon <==> 0 <= mon <= 11
  {
    if mon < 0 then 1 else if mon <= 11 then mon else 7 + (mon - 7) % 5
  }

  /** Division and remainder that truncate towards zero. */
  function TruncDiv(x: int, y: int): int
    requires y > 0
  {
    if x >= 0 then x / y else -(-x / y)
  }

  function TruncRem(x: int, y: int): int
    requires y > 0
  {
    x - y * TruncDiv(x, y)
  }

  /** The leap days counted up to a year, `n` years from 2000. For earlier years the divisions
      round the other way. */
  function LeapsCounted(n: int): int {
    if n == 0 then 0 else TruncDiv(n - 1, 4) - TruncDiv(n - 1, 100) + 1
  }

  /** What the conversion returns, for any year and any month at all. */
  function CompiledStamp(tm: Tm): int {
    var n := tm.year - TM_EPOCH_YEAR;
    ONE_DAY * (365 * n + LeapsCounted(n) + DaysBeforeMonth(Int16(tm.year + 1900), EffectiveMonth(tm.mon)) + tm.mday - 1)
    + SecondOfDay(tm)
  }

  /** A negative month is compiled as February, and one past December as that of August to December which
      lies a number of fives before it. */
  lemma MonthsFold(tm: Tm, k: nat)
    ensures tm.mon < 0 ==> CompiledStamp(tm) == CompiledStamp(tm.(mon := 1))
    ensures 7 <= tm.mon - 5 * k <= 11 ==> CompiledStamp(tm) == CompiledStamp(tm.(mon := tm.mon - 5 * k))
  {
    if 7 <= tm.mon - 5 * k <= 11 {
      FoldedByFives(tm.mon, tm.mon - 5 * k, k);
    }
  }

  lemma FoldedByFives(mon: int, folded: int, k: nat)
    requires 7 <= folded <= 11 && mon == folded + 5 * k
    ensures EffectiveMonth(mon) == folded == EffectiveMonth(folded)
  {
  }

  /** From 2000 to 2399 it is the day count of the calendar. */
  lemma CompiledStampOf(tm: Tm)
    requires TM_EPOCH_YEAR <= tm.year < 500
    ensures CompiledStamp(tm) == Stamp(tm.(mon := EffectiveMonth(tm.mon)))
  {
    DaysBeforeYearClosed(tm.year - TM_EPOCH_YEAR);
    Int16Small(tm.year + 1900);
  }

  method MkGmTime(tm: Tm) returns (ret: Timestamp)
    requires -0x8000 <= tm.year < 0x8000
    ensures ret == U32(CompiledStamp(tm))
  {
    var n := tm.year - 100;
    var leaps := 0;
    if n != 0 {
      var m := n - 1;
      leaps := TruncDiv(m, 4);
      leaps := leaps - TruncDiv(m, 100);
      leaps := leaps + 1;
    }
    var tmp := U32(365 * n + leaps);

    var d := DayOfYear(tm);
    ghost var days := 365 * n + leaps + d;
    U32Add(365 * n + leaps, d);
    tmp := U32(tmp + d);
    assert tmp == U32(days);
    U32Scale(days, ONE_DAY);
    tmp := U32(tmp * ONE_DAY);
    ret := tmp;

    tmp := U32(tm.hour);
    U32Scale(tm.hour, ONE_HOUR);
    tmp := U32(tmp * ONE_HOUR);
    U32Add(tm.hour * ONE_HOUR, tm.min * 60);
    tmp := U32(tmp + tm.min * 60);
    U32Add(tm.hour * ONE_HOUR + tm.min * 60, tm.sec);
    tmp := U32(tmp + tm.sec);
    U32Add(SecondOfDay(tm), U32(days * ONE_DAY));
    U32Add(days * ONE_DAY, SecondOfDay(tm));
    ret := U32(ret + tmp);
  }

  method DayOfYear(tm: Tm) returns (d: int)
    ensures d == DaysBeforeMonth(Int16(tm.year + 1900), EffectiveMonth(tm.mon)) + tm.mday - 1
  {
    ghost var year := Int16(tm.year + 1900);
    DaysBeforeMonthTable(year, EffectiveMonth(tm.mon));
    d := tm.mday - 1;
    if tm.mon >= 2 {
      MonthPattern(tm.mon, IsLeapYear(year));
    }
    if tm.mon < 2 {
      if tm.mon != 0 {
        d := d + 31;
      }
    } else {
      var n := 59 + IsLeapYear(Int16(tm.year + 1900));
      d := d + n;
      n := tm.mon - 2;
      if n > 4 {
        d := d + 153;
      }
      n := n % 5;
      var m := n / 2;
      m := m * 61;
      d := d + m;
      if n % 2 == 1 {
        d := d + 31;
      }
    }
  }

  lemma MonthPattern(mon: int, leap: int)
    requires mon >= 2
    ensures var n := (mon - 2) % 5;
            var d := (if mon - 2 > 4 then 153 else 0) + n / 2 * 61 + (if n % 2 == 1 then 31 else 0);
            MonthTable(leap, EffectiveMonth(mon)) == 59 + leap + d
  {
    if mon > 6 {
      assert (mon - 2) % 5 == (mon - 7) % 5;
      LaterMonths((mon - 7) % 5, leap);
    }
  }

  /** From August on, the lengths repeat those from March on. */
  lemma LaterMonths(n: int, leap: int)
    requires 0 <= n < 5
    ensures MonthTable(leap, 7 + n) == 212 + leap + n / 2 * 61 + if n % 2 == 1 then 31 else 0
  {
  }

  /** For a month of the year the conversion counts the days as the reference does. */
  lemma CompiledStampIsStamp(tm: Tm)
    requires TM_EPOCH_YEAR <= tm.year < 500 && 0 <= tm.mon <= 11
    ensures CompiledStamp(tm) == Stamp(tm)
  {
    CompiledStampOf(tm);
    assert tm.(mon := EffectiveMonth(tm.mon)) == tm;
  }

  /** Inverse, one way: every 32-bit second survives being broken down and compiled again. */
  method CompileBrokenDown(t: Timestamp) returns (r: Timestamp)
    ensures r == t
  {
    var tm := GmTime(t);
    BrokenDownIsConsistent(t);
    YearBound(t);
    CompiledStampIsStamp(tm);
    U32Small(t);
    r := MkGmTime(tm);
  }

  /** Inverse, the other way: every real date in range comes back with the same fields. */
  method BreakDownCompiled(tm: Tm) returns (r: Tm)
    requires Consistent(tm) && Stamp(tm) < TWO_32
    ensures r == tm
  {
    StampIsInverse(tm);
    YearBound(Stamp(tm));
    CompiledStampIsStamp(tm);
    U32Small(Stamp(tm));
    var t := MkGmTime(tm);
    r := GmTime(t);
  }

  /** The calendar of 32-bit stamps ends in 2136. */
  lemma YearBound(t: nat)
    requires t < TWO_32
    ensures 100 <= BrokenDown(t).year <= 236
  {
    BrokenDownIsConsistent(t);
    var y := BrokenDown(t).year + 1900;
    if y > 2136 {
      DaysBeforeYearClosed(137);
      if y > 2137 {
        DaysBeforeYearGrows(2137, y);
      }
    }
  }

  // ----- Adding months

  /** The value kept when a number is narrowed to a signed 16-bit one. */
  function Int16(x: int): (r: int)
    ensures -0x8000 <= r < 0x8000 && (x - r) % 0x10000 == 0
  {
    (x + 0x8000) % 0x10000 - 0x8000
  }

  lemma Int16Small(x: int)
    requires -0x8000 <= x < 0x8000
    ensures Int16(x) == x
  {
  }

  /** Years since 1900, capped to what a stamp can hold. */
  function CappedYear(year: int): (r: int)
    ensures 0 <= r <= 236
  {
    var y := Int16(year);
    if y >= 236 then 236 else if y <= 0 then 0 else y
  }

  function PlusYearsFields(tm: Tm, years: int): Tm {
    tm.(year := CappedYear(tm.year + years))
  }

  method PlusYears(t: Timestamp, years: int) returns (r: Timestamp)
    ensures r == U32(CompiledStamp(PlusYearsFields(BrokenDown(t), years)))
  {
    var tm := GmTime(t);
    tm := tm.(year := CappedYear(tm.year + years));
    r := MkGmTime(tm);
  }

  function PlusMonthsFields(tm: Tm, months: int): Tm {
    tm.(year := CappedYear(tm.year + TruncDiv(months, 12)), mon := tm.mon + TruncRem(months, 12))
  }

  method PlusMonths(t: Timestamp, months: int) returns (r: Timestamp)
    ensures r == U32(CompiledStamp(PlusMonthsFields(BrokenDown(t), months)))
  {
    var tm := GmTime(t);
    var yearsToAdd := TruncDiv(months, 12);
    var rest := TruncRem(months, 12);
    tm := tm.(year := CappedYear(tm.year + yearsToAdd));
    tm := tm.(mon := tm.mon + rest);
    assert tm == PlusMonthsFields(BrokenDown(t), months) && 0 <= tm.year <= 236;
    r := MkGmTime(tm);
  }

  /** A date and time with the day of week and of year that belong to it. */
  function Dated(tm: Tm): (r: Tm)
    requires ValidDate(tm) && ValidTime(tm)
    ensures Consistent(r)
  {
    tm.(yday := DaysBeforeMonth(tm.year + 1900, tm.mon) + tm.mday - 1,
        wday := (DayNumber(tm.year + 1900, tm.mon, tm.mday) + 6) % 7)
  }

  /** That date and time that many years later, or the 1st of March for a 29th of February that the year
      does not have. */
  function YearsLater(tm: Tm, years: int): (r: Tm)
    requires ValidDate(tm) && ValidTime(tm) && tm.year + years >= TM_EPOCH_YEAR
    ensures Consistent(r)
  {
    var there := tm.(year := tm.year + years);
    if tm.mday <= MonthLength(there.year + 1900, tm.mon + 1) then Dated(there)
    else
      FirstOfMarch(tm, there.year);
      Dated(there.(mon := 2, mday := 1))
  }

  lemma FirstOfMarch(tm: Tm, year: int)
    requires ValidDate(tm) && year >= TM_EPOCH_YEAR && tm.mday > MonthLength(year + 1900, tm.mon + 1)
    ensures tm.mon == 1 && tm.mday == 29 && IsLeapYear(year + 1900) == 0
    ensures DayNumber(year + 1900, 1, 29) == DayNumber(year + 1900, 2, 1)
  {
    DaysBeforeMonthTable(year + 1900, 1);
    DaysBeforeMonthTable(year + 1900, 2);
  }

  /** Adding years keeps month, day and time, except that a 29th of February can become the 1st of
      March. */
  lemma PlusYearsIsRight(tm: Tm, years: int)
    requires ValidDate(tm) && ValidTime(tm) && TM_EPOCH_YEAR <= tm.year + years <= 235
    ensures BrokenDown(U32(CompiledStamp(PlusYearsFields(tm, years)))) == YearsLater(tm, years)
  {
    var year := tm.year + years;
    var got, meant := tm.(year := year), YearsLater(tm, years);
    Int16Small(year);
    CompiledStampIsStamp(got);
    SameSecond(tm, years);
    StampInYear(got);
    U32Small(Stamp(got));
    StampIsInverse(meant);
  }

  lemma SameSecond(tm: Tm, years: int)
    requires ValidDate(tm) && ValidTime(tm) && TM_EPOCH_YEAR <= tm.year + years
    ensures Stamp(tm.(year := tm.year + years)) == Stamp(YearsLater(tm, years))
  {
    if tm.mday > MonthLength(tm.year + years + 1900, tm.mon + 1) {
      FirstOfMarch(tm, tm.year + years);
    }
  }

  /** Beyond what a stamp can hold the year is capped. */
  lemma PlusYearsIsCapped(tm: Tm, years: int)
    requires -0x8000 <= tm.year + years < 0x8000
    ensures tm.year + years >= 236 ==> PlusYearsFields(tm, years) == tm.(year := 236)
    ensures tm.year + years <= 0 ==> PlusYearsFields(tm, years) == tm.(year := 0)
  {
    Int16Small(tm.year + years);
  }

  // ----- Years before 2000

  /** The days from the beginning of a year to the beginning of 2000. */
  function DaysTo2000(year: int): int
    requires year <= EPOCH_YEAR
    decreases EPOCH_YEAR - year
  {
    if year == EPOCH_YEAR then 0 else YearLength(year) + DaysTo2000(year + 1)
  }

  /** Before 2000 the conversion counts one day too many, except in a year after a leap year. */
  lemma EarlierYearsOffByOne(year: int)
    requires 1902 <= year < EPOCH_YEAR
    ensures 365 * (year - EPOCH_YEAR) + LeapsCounted(year - EPOCH_YEAR) + DaysTo2000(year) == if year % 4 == 1 then 0 else 1
  {
    var years := EPOCH_YEAR - year;
    CountedBefore(year - EPOCH_YEAR, years);
    DaysTo2000Are(year, years);
    Quarters(year, years);
  }

  lemma Quarters(year: int, years: nat)
    requires year == EPOCH_YEAR - years
    ensures years / 4 - (years + 1) / 4 == if year % 4 == 1 then -1 else 0
  {
  }

  lemma {:induction false} DaysTo2000Are(year: int, years: nat)
    requires 1902 <= year == EPOCH_YEAR - years
    ensures DaysTo2000(year) == 365 * years + years / 4
    decreases years
  {
    if years > 0 {
      DaysTo2000Are(year + 1, years - 1);
      EarlierYearLength(year);
    }
  }

  lemma EarlierYearLength(year: int)
    requires 1902 <= year < EPOCH_YEAR
    ensures YearLength(year) == if year % 4 == 0 then 366 else 365
  {
  }

  lemma CountedBefore(n: int, years: nat)
    requires -98 <= n < 0 && years == -n
    ensures LeapsCounted(n) == 1 - (years + 1) / 4
  {
  }

  /** The date meant: months counted on across the ends of years, day and time unchanged. */
  function MonthsLater(tm: Tm, months: int): Tm {
    var m := 12 * tm.year + tm.mon + months;
    tm.(year := m / 12, mon := m % 12)
  }

  /** Adding months is right exactly when month and remainder stay inside one year. */
  lemma PlusMonthsIsRightIff(tm: Tm, months: int)
    requires ValidDate(tm) && ValidTime(tm)
    requires 101 <= tm.year + TruncDiv(months, 12) <= 233
    ensures MonthsLater(tm, months).year >= TM_EPOCH_YEAR && 0 <= MonthsLater(tm, months).mon <= 11
    ensures U32(CompiledStamp(PlusMonthsFields(tm, months))) == U32(Stamp(MonthsLater(tm, months)))
       <==> 0 <= tm.mon + TruncRem(months, 12) <= 11
  {
    var q, rest := TruncDiv(months, 12), TruncRem(months, 12);
    var year, mon := tm.year + q, tm.mon + rest;
    assert months == 12 * q + rest && -12 < rest < 12;
    MonthCarry(12 * tm.year + tm.mon + months, year, mon);
    Int16Small(year);
    var got := PlusMonthsFields(tm, months);
    var meant := MonthsLater(tm, months);
    var compiled := got.(mon := EffectiveMonth(mon));
    CompiledStampOf(got);
    StampInYear(compiled);
    StampInYear(meant);
    U32Small(Stamp(compiled));
    U32Small(Stamp(meant));
    if 0 <= mon <= 11 {
      assert compiled == meant;
    } else if mon > 11 {
      DaysBeforeMonthGrows(year + 1900, EffectiveMonth(mon), 12);
      StampsInOrder(compiled, meant);
    } else {
      StampsInOrder(meant, compiled);
    }
  }

  lemma MonthCarry(m: int, year: int, mon: int)
    requires m == 12 * year + mon && -12 < mon < 24
    ensures m / 12 == year + (if mon < 0 then -1 else if mon < 12 then 0 else 1)
    ensures m % 12 == mon + (if mon < 0 then 12 else if mon < 12 then 0 else -12)
  {
  }

  lemma StampInYear(tm: Tm)
    requires 100 <= tm.year <= 235 && 0 <= tm.mon <= 11 && 1 <= tm.mday <= 31 && ValidTime(tm)
    ensures 0 <= Stamp(tm) < TWO_32
  {
    DaysBeforeYearClosed(tm.year - 100);
    MonthsBound(tm.year + 1900, tm.mon);
    assert DayNumber(tm.year + 1900, tm.mon, tm.mday) <= 365 * 135 + 34 + 335 + 30;
  }

  lemma MonthsBound(year: int, mon: nat)
    requires mon <= 11
    ensures DaysBeforeMonth(year, mon) <= 335
  {
    DaysBeforeMonthTable(year, mon);
  }

  /** Dates in successive years, the earlier one no more than a 31-day month into its year's last
      month, are different. */
  lemma StampsInOrder(a: Tm, b: Tm)
    requires TM_EPOCH_YEAR <= a.year && b.year == a.year + 1 && 0 <= a.mon <= 11 && 0 <= b.mon <= 11
    requires 1 <= a.mday <= 31 && a.mday <= b.mday && ValidTime(a) && ValidTime(b)
    ensures Stamp(a) != Stamp(b)
  {
    DaysInOrder(a.year + 1900, a.mon, a.mday, b.mon, b.mday);
  }

  lemma DaysInOrder(year: int, m: nat, d: int, n: nat, e: int)
    requires year >= EPOCH_YEAR && m <= 11 && n <= 11 && 1 <= d <= 31 && d <= e
    ensures DayNumber(year, m, d) < DayNumber(year + 1, n, e)
  {
    DaysBeforeMonthTable(year, m);
    assert DaysBeforeYear(year + 1) == DaysBeforeYear(year) + YearLength(year);
    if m < 11 {
      DaysBeforeMonthGrows(year, m, 11);
      DaysBeforeMonthTable(year, 11);
    }
  }

  /** A month past December lands in August: 1 December 2017 plus one month compiles to
      1 August 2017. */
  lemma DecemberPlusOneMonth()
    ensures var tm := Tm(0, 0, 0, 1, 5, 11, 117, 334);
            PlusMonthsFields(tm, 1).year == 117 && EffectiveMonth(PlusMonthsFields(tm, 1).mon) == 7
  {
  }
}
