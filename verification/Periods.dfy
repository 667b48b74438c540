/** Periods of time and their addition to time stamps. */
module Periods {
  import opened Calendar
  import opened TimeLibrary

  const EMPTY: Timestamp := 0xFFFF_FFFF
  const INFINITE_PERIOD_YEARS := 1000000
  const PERIOD_MAX_FIELDS := 2
  const ONE_WEEK := 604800

  /** Longest first; a period's longest field is the first of these that it has. */
  datatype FieldType = Years | Months | Weeks | Days | Hours | Minutes | Seconds | Millis | NoField

  function Code(t: FieldType): nat {
    match t
    case Years => 0
    case Months => 1
    case Weeks => 2
    case Days => 3
    case Hours => 4
    case Minutes => 5
    case Seconds => 6
    case Millis => 7
    case NoField => 255
  }

  datatype PeriodField = PeriodField(kind: FieldType, value: int)

  type Period = p: seq<PeriodField> | |p| <= PERIOD_MAX_FIELDS witness []

  function UnitSeconds(t: FieldType): nat {
    match t
    case Weeks => ONE_WEEK
    case Days => ONE_DAY
    case Hours => ONE_HOUR
    case Minutes => 60
    case Seconds => 1
    case _ => 0
  }

  /** No field whose length depends on the date. */
  predicate FixedLength(p: Period) {
    forall f :: f in p ==> f.kind != Years && f.kind != Months
  }

  /** The length in seconds of the fields that have one. */
  function Length(p: seq<PeriodField>): int {
    if p == [] then 0 else Length(p[..|p| - 1]) + UnitSeconds(p[|p| - 1].kind) * Int16(p[|p| - 1].value)
  }

  /** One field added: years and months by the calendar, the others by their length, modulo 2^32. */
  function AddField(t: Timestamp, f: PeriodField): Timestamp {
    match f.kind
    case Years => U32(CompiledStamp(PlusYearsFields(BrokenDown(t), Int16(f.value))))
    case Months => U32(CompiledStamp(PlusMonthsFields(BrokenDown(t), Int16(f.value))))
    case _ => U32(t + UnitSeconds(f.kind) * Int16(f.value))
  }

  /** The fields added in order. */
  function Added(t: Timestamp, p: seq<PeriodField>): Timestamp {
    if p == [] then t else AddField(Added(t, p[..|p| - 1]), p[|p| - 1])
  }

  /** Fields of fixed length add up, in whatever order. */
  lemma {:induction false} FixedAdded(t: Timestamp, p: seq<PeriodField>)
    requires forall f :: f in p ==> f.kind != Years && f.kind != Months
    ensures Added(t, p) == U32(t + Length(p))
    decreases |p|
  {
    if p == [] {
      U32Small(t);
    } else {
      var front, last := p[..|p| - 1], p[|p| - 1];
      FixedAdded(t, front);
      assert last in p;
      U32Add(t + Length(front), UnitSeconds(last.kind) * Int16(last.value));
    }
  }

  /** A week is seven days, a day twenty-four hours, an hour sixty minutes, and a minute sixty seconds. */
  lemma UnitsNest(t: Timestamp, n: int)
    requires -500 <= n <= 500
    ensures AddField(t, PeriodField(Weeks, n)) == AddField(t, PeriodField(Days, 7 * n))
    ensures AddField(t, PeriodField(Days, n)) == AddField(t, PeriodField(Hours, 24 * n))
    ensures AddField(t, PeriodField(Hours, n)) == AddField(t, PeriodField(Minutes, 60 * n))
    ensures AddField(t, PeriodField(Minutes, n)) == AddField(t, PeriodField(Seconds, 60 * n))
    ensures AddField(t, PeriodField(Seconds, n)) == U32(t + n)
  {
    SameSeconds(t, Weeks, n, Days, 7 * n);
    SameSeconds(t, Days, n, Hours, 24 * n);
    SameSeconds(t, Hours, n, Minutes, 60 * n);
    SameSeconds(t, Minutes, n, Seconds, 60 * n);
    InSeconds(t, Seconds, n, 1);
  }

  lemma SameSeconds(t: Timestamp, a: FieldType, n: int, b: FieldType, m: int)
    requires -0x8000 <= n < 0x8000 && -0x8000 <= m < 0x8000 && UnitSeconds(a) * n == UnitSeconds(b) * m
    requires a != Years && a != Months && b != Years && b != Months
    ensures AddField(t, PeriodField(a, n)) == AddField(t, PeriodField(b, m))
  {
    Int16Small(n);
    Int16Small(m);
  }

  lemma InSeconds(t: Timestamp, kind: FieldType, n: int, seconds: nat)
    requires -0x8000 <= n < 0x8000 && kind != Years && kind != Months && UnitSeconds(kind) == seconds
    ensures AddField(t, PeriodField(kind, n)) == U32(t + seconds * n)
  {
    Int16Small(n);
  }

  /** Milliseconds, and fields of no kind, add nothing. */
  lemma NothingAdded(t: Timestamp, n: int)
    ensures AddField(t, PeriodField(Millis, n)) == t && AddField(t, PeriodField(NoField, n)) == t
  {
    U32Small(t);
  }

  /** A field of years that fits adds that many years by the calendar. */
  lemma YearsAdded(t: Timestamp, n: int)
    requires -0x8000 <= n < 0x8000 && TM_EPOCH_YEAR <= BrokenDown(t).year + n <= 235
    ensures ValidDate(BrokenDown(t)) && ValidTime(BrokenDown(t))
    ensures BrokenDown(AddField(t, PeriodField(Years, n))) == YearsLater(BrokenDown(t), n)
  {
    BrokenDownIsConsistent(t);
    Int16Small(n);
    PlusYearsIsRight(BrokenDown(t), n);
  }

  /** The first field is added first. */
  lemma AddedInOrder(t: Timestamp, a: PeriodField, b: PeriodField)
    ensures Added(t, [a, b]) == AddField(AddField(t, a), b)
  {
    assert [a, b][..1] == [a] && [a][..0] == [];
    assert Added(t, [a]) == AddField(Added(t, []), a);
  }

  method Plus(t: Timestamp, p: Period) returns (r: Timestamp)
    ensures r == Added(t, p)
    ensures FixedLength(p) ==> r == U32(t + Length(p))
  {
    r := t;
    assert p[..0] == [] && p[..|p|] == p;
    for i := 0 to |p|
      invariant r == Added(t, p[..i])
    {
      assert p[..i + 1][..i] == p[..i];
      r := PlusField(r, p[i]);
    }
    if FixedLength(p) {
      FixedAdded(t, p);
    }
  }

  method PlusField(t: Timestamp, f: PeriodField) returns (r: Timestamp)
    ensures r == AddField(t, f)
  {
    r := t;
    U32Small(t);
    if f.kind == Years {
      r := PlusYears(r, Int16(f.value));
    } else if f.kind == Months {
      r := PlusMonths(r, Int16(f.value));
    } else if f.kind == Weeks {
      r := U32(r + ONE_DAY * 7 * Int16(f.value));
    } else if f.kind == Days {
      r := U32(r + ONE_DAY * Int16(f.value));
    } else if f.kind == Hours {
      r := U32(r + ONE_HOUR * Int16(f.value));
    } else if f.kind == Minutes {
      r := U32(r + 60 * Int16(f.value));
    } else if f.kind == Seconds {
      r := U32(r + Int16(f.value));
    }
  }

  /** A period is infinite when its first field of years says a million. */
  predicate IsInfinite(p: Period) {
    exists i :: 0 <= i < |p| && p[i] == PeriodField(Years, INFINITE_PERIOD_YEARS)
                && forall j :: 0 <= j < i ==> p[j].kind != Years
  }

  method ComputeIsInfinite(p: Period) returns (r: bool)
    ensures r == IsInfinite(p)
  {
    for i := 0 to |p|
      invariant forall j :: 0 <= j < i ==> p[j].kind != Years
    {
      if p[i].kind == Years {
        return p[i].value == INFINITE_PERIOD_YEARS;
      }
    }
    return false;
  }

  /** The longest kind of field in a period, whatever the values. */
  function LongestField(p: seq<PeriodField>): (r: FieldType)
    ensures forall i :: 0 <= i < |p| ==> Code(r) <= Code(p[i].kind)
    ensures r == NoField || exists i :: 0 <= i < |p| && p[i].kind == r
  {
    if p == [] then NoField
    else
      var r := LongestField(p[..|p| - 1]);
      var last := p[|p| - 1].kind;
      assert forall i :: 0 <= i < |p| - 1 ==> p[i] == p[..|p| - 1][i];
      if Code(last) < Code(r) then last else r
  }

  method ComputeLongestField(p: Period) returns (r: FieldType)
    ensures r == LongestField(p)
  {
    r := NoField;
    assert p[..0] == [];
    for i := 0 to |p|
      invariant r == LongestField(p[..i])
    {
      assert p[..i + 1][..i] == p[..i];
      if Code(p[i].kind) < Code(r) {
        r := p[i].kind;
      }
    }
    assert p[..|p|] == p;
  }

  // ----- Where a period that has no given start begins

  function MidnightOf(tm: Tm): Tm {
    tm.(hour := 0, min := 0, sec := 0)
  }

  function NewYearOf(tm: Tm): Tm {
    MidnightOf(tm).(mon := 0, mday := 1)
  }

  function FirstOf(tm: Tm): Tm {
    MidnightOf(tm).(mday := 1)
  }

  /** The start of the year, month, week, day, hour, minute or second that `now`, broken down as
      tm, lies in. The week is meant to begin on Monday, but a Sunday belongs to the week that begins the next
      day. */
  function AlignedTo(kind: FieldType, tm: Tm, now: Timestamp): Timestamp
    requires Consistent(tm)
  {
    match kind
    case Years => U32(CompiledStamp(NewYearOf(tm)))
    case Months => U32(CompiledStamp(FirstOf(tm)))
    case Weeks => U32(now - (SecondOfDay(tm) + (tm.wday - 1) * ONE_DAY))
    case Days => U32(CompiledStamp(MidnightOf(tm)))
    case Hours => U32(CompiledStamp(tm.(min := 0, sec := 0)))
    case Minutes => U32(CompiledStamp(tm.(sec := 0)))
    case _ => now
  }

  function Aligned(kind: FieldType, now: Timestamp): Timestamp {
    BrokenDownIsConsistent(now);
    AlignedTo(kind, BrokenDown(now), now)
  }

  method ComputeAligned(kind: FieldType, now: Timestamp) returns (r: Timestamp)
    ensures r == Aligned(kind, now)
  {
    var tm := GmTime(now);
    BrokenDownIsConsistent(now);
    r := ComputeAlignedTo(kind, tm, now);
  }

  method ComputeAlignedTo(kind: FieldType, tm: Tm, now: Timestamp) returns (r: Timestamp)
    requires Consistent(tm) && Stamp(tm) == now
    ensures r == AlignedTo(kind, tm, now)
  {
    ConsistentYearBound(tm);
    CompiledStampIsStamp(tm);
    U32Small(now);
    match kind
    case Years => r := MkGmTime(NewYearOf(tm));
    case Months => r := MkGmTime(FirstOf(tm));
    case Weeks => r := U32(now - (SecondOfDay(tm) + (tm.wday - 1) * ONE_DAY));
    case Days => r := MkGmTime(MidnightOf(tm));
    case Hours => r := MkGmTime(tm.(min := 0, sec := 0));
    case Minutes => r := MkGmTime(tm.(sec := 0));
    case Seconds => r := MkGmTime(tm);
    case _ => r := now;
  }

  lemma ConsistentYearBound(tm: Tm)
    requires Consistent(tm) && Stamp(tm) < TWO_32
    ensures 100 <= tm.year <= 236
  {
    StampIsInverse(tm);
    YearBound(Stamp(tm));
  }

  /** Aligning rounds down to a whole unit; only a Sunday is rounded up, to the next midnight. The
      week of the first Saturday begins before the first second, and wraps around. */
  lemma AlignedValue(kind: FieldType, now: Timestamp)
    ensures Aligned(kind, now) ==
            match kind
            case Years => now - now % ONE_DAY - BrokenDown(now).yday * ONE_DAY
            case Months => now - now % ONE_DAY - (BrokenDown(now).mday - 1) * ONE_DAY
            case Weeks => U32(now - now % ONE_DAY - (BrokenDown(now).wday - 1) * ONE_DAY)
            case Days => now - now % ONE_DAY
            case Hours => now - now % ONE_HOUR
            case Minutes => now - now % 60
            case _ => now
  {
    BrokenDownIsConsistent(now);
    AlignedToValue(kind, BrokenDown(now), now);
  }

  lemma AlignedToValue(kind: FieldType, tm: Tm, now: Timestamp)
    requires Consistent(tm) && Stamp(tm) == now
    ensures AlignedTo(kind, tm, now) ==
            match kind
            case Years => now - now % ONE_DAY - tm.yday * ONE_DAY
            case Months => now - now % ONE_DAY - (tm.mday - 1) * ONE_DAY
            case Weeks => U32(now - now % ONE_DAY - (tm.wday - 1) * ONE_DAY)
            case Days => now - now % ONE_DAY
            case Hours => now - now % ONE_HOUR
            case Minutes => now - now % 60
            case _ => now
  {
    ClockOfStamp(tm, now);
    match kind
    case Years => NewYearStamp(tm, now);
    case Months => FirstStamp(tm, now);
    case Weeks =>
    case Days => EarlierThatDay(tm, 0, 0, 0, now);
    case Hours => EarlierThatDay(tm, tm.hour, 0, 0, now);
    case Minutes => EarlierThatDay(tm, tm.hour, tm.min, 0, now);
    case _ =>
  }

  lemma NewYearStamp(tm: Tm, t: nat)
    requires Consistent(tm) && Stamp(tm) == t < TWO_32
    ensures U32(CompiledStamp(NewYearOf(tm))) == t - SecondOfDay(tm) - tm.yday * ONE_DAY
  {
    var first := DayNumber(tm.year + 1900, 0, 1);
    ConsistentYearBound(tm);
    CompiledStampIsStamp(NewYearOf(tm));
    StampParts(tm, first + tm.yday);
    StampParts(NewYearOf(tm), first);
    U32Small(Stamp(NewYearOf(tm)));
  }

  lemma FirstStamp(tm: Tm, t: nat)
    requires Consistent(tm) && Stamp(tm) == t < TWO_32
    ensures U32(CompiledStamp(FirstOf(tm))) == t - SecondOfDay(tm) - (tm.mday - 1) * ONE_DAY
  {
    var first := DayNumber(tm.year + 1900, tm.mon, 1);
    ConsistentYearBound(tm);
    CompiledStampIsStamp(FirstOf(tm));
    StampParts(tm, first + tm.mday - 1);
    StampParts(FirstOf(tm), first);
    U32Small(Stamp(FirstOf(tm)));
  }

  lemma EarlierThatDay(tm: Tm, h: int, m: int, s: int, t: nat)
    requires Consistent(tm) && Stamp(tm) == t < TWO_32
    requires 0 <= h && 0 <= m && 0 <= s && ONE_HOUR * h + 60 * m + s <= SecondOfDay(tm)
    ensures U32(CompiledStamp(tm.(hour := h, min := m, sec := s))) == t - SecondOfDay(tm) + (ONE_HOUR * h + 60 * m + s)
  {
    var e, days := tm.(hour := h, min := m, sec := s), DayNumber(tm.year + 1900, tm.mon, tm.mday);
    ConsistentYearBound(tm);
    CompiledStampIsStamp(e);
    StampParts(tm, days);
    StampParts(e, days);
    U32Small(Stamp(e));
  }

  lemma StampParts(tm: Tm, days: int)
    requires ValidDate(tm) && days == DayNumber(tm.year + 1900, tm.mon, tm.mday)
    ensures days >= 0 && Stamp(tm) == ONE_DAY * days + SecondOfDay(tm)
  {
  }

  lemma ClockOfStamp(tm: Tm, t: nat)
    requires Consistent(tm) && Stamp(tm) == t
    ensures t % ONE_DAY == SecondOfDay(tm)
    ensures t % ONE_HOUR == 60 * tm.min + tm.sec
    ensures t % 60 == tm.sec
    ensures 0 <= tm.wday <= 6
  {
    var days := DayNumber(tm.year + 1900, tm.mon, tm.mday);
    ClockRemainders(days, tm.hour, tm.min, tm.sec);
  }

  lemma ClockRemainders(days: int, h: int, m: int, s: int)
    requires 0 <= h < 24 && 0 <= m < 60 && 0 <= s < 60
    ensures var t := ONE_DAY * days + (ONE_HOUR * h + 60 * m + s);
            t % ONE_DAY == ONE_HOUR * h + 60 * m + s && t % ONE_HOUR == 60 * m + s && t % 60 == s
  {
    DaySplit(days, ONE_HOUR * h + 60 * m + s);
    HourRemainder(24 * days + h, 60 * m + s);
    MinuteRemainder(1440 * days + 60 * h + m, s);
  }

  lemma HourRemainder(q: int, r: int)
    requires 0 <= r < ONE_HOUR
    ensures (ONE_HOUR * q + r) % ONE_HOUR == r
  {
  }

  lemma MinuteRemainder(q: int, r: int)
    requires 0 <= r < 60
    ensures (60 * q + r) % 60 == r
  {
  }

  lemma AlignedBounds(kind: FieldType, now: Timestamp)
    requires (kind == Weeks ==> now >= ONE_DAY) && kind != Years && kind != Months
    ensures now - ONE_WEEK < Aligned(kind, now) <= now + ONE_DAY
    ensures UnitSeconds(kind) > 0 ==> now < Aligned(kind, now) + UnitSeconds(kind)
  {
    AlignedValue(kind, now);
    if kind == Weeks {
      WeekStart(now, BrokenDown(now));
    }
  }

  /** Where the week of a second begins. */
  lemma WeekStart(now: Timestamp, tm: Tm)
    requires tm == BrokenDown(now)
    ensures 0 <= tm.wday <= 6 && (now < ONE_DAY ==> tm.wday == 6)
    ensures now < ONE_DAY ==> U32(now - now % ONE_DAY - (tm.wday - 1) * ONE_DAY) > now + ONE_DAY
    ensures now >= ONE_DAY ==> U32(now - now % ONE_DAY - (tm.wday - 1) * ONE_DAY) == now - now % ONE_DAY - (tm.wday - 1) * ONE_DAY
  {
    var days := now / ONE_DAY;
    DayOfWeek(now, tm);
    if days == 0 {
      MultipleDropped(-5 * ONE_DAY, 1);
      U32Small(TWO_32 - 5 * ONE_DAY);
    } else {
      WeekInRange(days, tm.wday);
      U32Small((days - tm.wday + 1) * ONE_DAY);
    }
  }

  lemma DayOfWeek(now: nat, tm: Tm)
    requires tm == BrokenDown(now)
    ensures tm.wday == (now / ONE_DAY + 6) % 7
  {
    var days := DayNumber(tm.year + 1900, tm.mon, tm.mday);
    BrokenDownIsConsistent(now);
    DaySplit(days, SecondOfDay(tm));
  }

  /** 32-bit time ends on a Tuesday, so that the midnight after its last Sunday has a stamp. */
  lemma WeekInRange(days: nat, wday: nat)
    requires 0 < days <= TWO_32 / ONE_DAY && wday == (days + 6) % 7
    ensures 0 <= (days - wday + 1) * ONE_DAY < TWO_32
  {
  }

  /** So the start is not in the future, except on a Sunday for periods of weeks, and on the very
      first day. */
  lemma AlignedNotLaterIff(kind: FieldType, now: Timestamp)
    ensures Aligned(kind, now) <= now <==> !(kind == Weeks && (BrokenDown(now).wday == 0 || now < ONE_DAY))
  {
    AlignedValue(kind, now);
    match kind
    case Years =>
      BrokenDownIsConsistent(now);
      NotLater(now, BrokenDown(now).yday);
    case Months =>
      BrokenDownIsConsistent(now);
      NotLater(now, BrokenDown(now).mday - 1);
    case Weeks =>
      WeekStart(now, BrokenDown(now));
      if now >= ONE_DAY {
        NotLater(now, BrokenDown(now).wday - 1);
      }
    case _ =>
  }

  lemma NotLater(now: nat, days: int)
    ensures now - now % ONE_DAY - days * ONE_DAY <= now <==> days >= 0
  {
  }

  /** On a Sunday a period of weeks begins at the next midnight. */
  lemma AlignedSunday(now: Timestamp, tm: Tm)
    requires Consistent(tm) && Stamp(tm) == now && tm.wday == 0
    ensures BrokenDown(now) == tm && Aligned(Weeks, now) == now - now % ONE_DAY + ONE_DAY
  {
    StampIsInverse(tm);
    MidnightAfter(now, tm);
  }

  lemma MidnightAfter(now: Timestamp, tm: Tm)
    requires tm == BrokenDown(now) && tm.wday == 0
    ensures Aligned(Weeks, now) == now - now % ONE_DAY + ONE_DAY
  {
    AlignedValue(Weeks, now);
    WeekStart(now, tm);
  }

  /** Such as on Sunday 9 January 2000 at noon. */
  lemma SundayBeginsTomorrow(now: Timestamp, tm: Tm)
    requires tm == Tm(0, 0, 12, 9, 0, 0, 100, 8) && now == 734400
    ensures BrokenDown(now) == tm && Aligned(Weeks, now) == 9 * ONE_DAY
  {
    SundayNoon(tm);
    AlignedSunday(now, tm);
  }

  lemma SundayNoon(tm: Tm)
    requires tm == Tm(0, 0, 12, 9, 0, 0, 100, 8)
    ensures Consistent(tm) && Stamp(tm) == 734400
  {
    JanuaryOfEpoch(9);
    assert MonthLength(2000, 1) == 31;
  }

  lemma JanuaryOfEpoch(mday: int)
    ensures DaysBeforeYear(EPOCH_YEAR) == 0 && DaysBeforeMonth(EPOCH_YEAR, 0) == 0 && DayNumber(EPOCH_YEAR, 0, mday) == mday - 1
  {
  }
}
