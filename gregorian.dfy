/** Calendar dates as the screens see them through `getFullYear`, `getMonth`
    and `getDate`: a year, a month index 0..11 and a day of the month, in the
    proleptic Gregorian calendar. Day numbers, weekdays and the normalisation
    done by `new Date(year, month, day)` and `setMonth` follow the date
    arithmetic of ECMA-262 (section 21.4.1, "Date Objects": DayFromYear,
    MonthFromTime, DateFromTime, WeekDay, MakeDay), in local time. */
module Gregorian {

  datatype Ymd = Ymd(year: int, month: int, day: int)

  /** Section 21.4.1 of ECMA-262: a year has 366 days when it is divisible by
      4, except centuries not divisible by 400. */
  predicate IsLeapYear(y: int)
  {
    (y % 4 == 0 && y % 100 != 0) || y % 400 == 0
  }

  function DaysInYear(y: int): (n: int)
    ensures n == 365 || n == 366
    ensures n == 366 <==> IsLeapYear(y)
  {
    if IsLeapYear(y) then 366 else 365
  }

  /** Length of month `m` (0 = January) of year `y`. */
  function DaysInMonth(y: int, m: int): (n: int)
    requires 0 <= m < 12
    ensures 28 <= n <= 31
    ensures m == 1 ==> (n == 29 <==> IsLeapYear(y))
  {
    if m == 1 then (if IsLeapYear(y) then 29 else 28)
    else if m == 3 || m == 5 || m == 8 || m == 10 then 30
    else 31
  }

  ghost predicate Valid(d: Ymd)
  {
    0 <= d.month < 12 && 1 <= d.day <= DaysInMonth(d.year, d.month)
  }

  /** A calendar date: what a JavaScript `Date` denotes once its time of day
      is ignored. */
  type Date = d: Ymd | Valid(d) witness Ymd(1970, 0, 1)

  /** Number of days in the months of `y` before month `m`. */
  function DaysBeforeMonth(y: int, m: int): (n: int)
    requires 0 <= m < 12
    ensures 0 <= n <= 335
  {
    (match m
      case 0 => 0 case 1 => 31 case 2 => 59 case 3 => 90
      case 4 => 120 case 5 => 151 case 6 => 181 case 7 => 212
      case 8 => 243 case 9 => 273 case 10 => 304 case _ => 334)
    + (if m >= 2 && IsLeapYear(y) then 1 else 0)
  }

  /** The day number of 1 January of `y`, counting 1 January 1970 as day 0:
      the lengths of the years in between, added going forward and taken
      away going back. `DayFromYearFormula` shows it is ECMA-262's
      DayFromYear. */
  function DayFromYear(y: int): int
    decreases if y < 1970 then 1970 - y else y - 1970
  {
    if y == 1970 then 0
    else if y > 1970 then DayFromYear(y - 1) + DaysInYear(y - 1)
    else DayFromYear(y + 1) - DaysInYear(y)
  }

  /** The day number of a date: days since 1 January 1970. */
  function DayNumber(d: Ymd): int
    requires 0 <= d.month < 12
  {
    DayFromYear(d.year) + DaysBeforeMonth(d.year, d.month) + d.day - 1
  }

  /** ECMA-262 WeekDay, `getDay()`: 0 is Sunday; 1 January 1970 was a
      Thursday. */
  function Weekday(d: Ymd): (w: int)
    requires 0 <= d.month < 12
    ensures 0 <= w < 7
  {
    (DayNumber(d) + 4) % 7
  }

  // ---------------------------------------------------------------------------
  // Month stepping and the day-number facts it rests on.

  function NextMonth(y: int, m: int): (r: (int, int))
    requires 0 <= m < 12
    ensures 0 <= r.1 < 12
  {
    if m == 11 then (y + 1, 0) else (y, m + 1)
  }

  function PrevMonth(y: int, m: int): (r: (int, int))
    requires 0 <= m < 12
    ensures 0 <= r.1 < 12
    ensures NextMonth(r.0, r.1) == (y, m)
  {
    if m == 0 then (y - 1, 11) else (y, m - 1)
  }

  lemma FloorStep(a: int, k: int)
    requires k == 4 || k == 100 || k == 400
    ensures (a + 1) / k - a / k == if (a + 1) % k == 0 then 1 else 0
  {
    var q, r := a / k, a % k;
    assert a == k * q + r && 0 <= r < k;
    if r + 1 < k {
      assert a + 1 == k * q + (r + 1);
    } else {
      assert a + 1 == k * (q + 1);
    }
  }

  /** Consecutive years start `DaysInYear` days apart. */
  lemma YearStep(y: int)
    ensures DayFromYear(y + 1) == DayFromYear(y) + DaysInYear(y)
  {
  }

  /** ECMA-262 DayFromYear, `365 * (y - 1970) + floor((y - 1969) / 4)
      - floor((y - 1901) / 100) + floor((y - 1601) / 400)`, agrees with the
      year-by-year count. */
  lemma {:induction false} DayFromYearFormula(y: int)
    ensures DayFromYear(y) == 365 * (y - 1970) + (y - 1969) / 4 - (y - 1901) / 100 + (y - 1601) / 400
    decreases if y < 1970 then 1970 - y else y - 1970
  {
    if y > 1970 {
      DayFromYearFormula(y - 1);
      LeapStep(y - 1);
    } else if y < 1970 {
      DayFromYearFormula(y + 1);
      LeapStep(y);
    }
  }

  /** The closed form grows by `DaysInYear(y)` from `y` to `y + 1`. */
  lemma LeapStep(y: int)
    ensures (365 * (y + 1 - 1970) + (y + 1 - 1969) / 4 - (y + 1 - 1901) / 100 + (y + 1 - 1601) / 400)
            - (365 * (y - 1970) + (y - 1969) / 4 - (y - 1901) / 100 + (y - 1601) / 400)
            == DaysInYear(y)
  {
    FloorStep(y - 1969, 4);
    FloorStep(y - 1901, 100);
    FloorStep(y - 1601, 400);
    ModShift(y);
    var f4 := (y + 1 - 1969) / 4 - (y - 1969) / 4;
    var f100 := (y + 1 - 1901) / 100 - (y - 1901) / 100;
    var f400 := (y + 1 - 1601) / 400 - (y - 1601) / 400;
    assert f4 == (if y % 4 == 0 then 1 else 0);
    assert f100 == (if y % 100 == 0 then 1 else 0);
    assert f400 == (if y % 400 == 0 then 1 else 0);
  }

  /** Shifting by a multiple of the divisor leaves the remainder alone. */
  lemma ModShift(y: int)
    ensures (y - 1968) % 4 == y % 4
    ensures (y - 1900) % 100 == y % 100
    ensures (y - 1600) % 400 == y % 400
  {
    assert y - 1968 == 4 * (y / 4 - 492) + y % 4;
    assert y - 1900 == 100 * (y / 100 - 19) + y % 100;
    assert y - 1600 == 400 * (y / 400 - 4) + y % 400;
  }

  /** Consecutive months start `DaysInMonth` days apart, across the year
      boundary too. */
  lemma MonthStep(y: int, m: int)
    requires 0 <= m < 12
    ensures var (ny, nm) := NextMonth(y, m);
            DayNumber(Ymd(ny, nm, 1)) == DayNumber(Ymd(y, m, 1)) + DaysInMonth(y, m)
  {
    if m == 11 {
      YearStep(y);
    }
  }

  // ---------------------------------------------------------------------------
  // `new Date(year, month, day)`: normalisation of out-of-range fields.

  /** A day >= 1 counted from the start of month `m` of `y`, carried forward
      through as many months as it overflows. */
  function CarryForward(y: int, m: int, day: int): (r: Date)
    requires 0 <= m < 12 && day >= 1
    ensures DayNumber(r) == DayNumber(Ymd(y, m, 1)) + day - 1
    decreases day
  {
    if day <= DaysInMonth(y, m) then Ymd(y, m, day)
    else
      var (ny, nm) := NextMonth(y, m);
      MonthStep(y, m);
      CarryForward(ny, nm, day - DaysInMonth(y, m))
  }

  /** A day <= 0 counted from the start of month `m` of `y`, borrowed back
      through as many earlier months as it needs. */
  function BorrowBack(y: int, m: int, day: int): (r: Date)
    requires 0 <= m < 12 && day <= 0
    ensures DayNumber(r) == DayNumber(Ymd(y, m, 1)) + day - 1
    decreases -day
  {
    var (py, pm) := PrevMonth(y, m);
    var dim := DaysInMonth(py, pm);
    var d := day + dim;
    if d >= 1 then
      var r: Date := Ymd(py, pm, d);
      PrevMonthStep(y, m, py, pm);
      r
    else
      PrevMonthStep(y, m, py, pm);
      BorrowBack(py, pm, d)
  }

  /** The month before starts as many days earlier as it has. */
  lemma PrevMonthStep(y: int, m: int, py: int, pm: int)
    requires 0 <= m < 12 && (py, pm) == PrevMonth(y, m)
    ensures DayNumber(Ymd(y, m, 1)) == DayNumber(Ymd(py, pm, 1)) + DaysInMonth(py, pm)
  {
    MonthStep(py, pm);
  }

  /** ECMA-262 MakeDay on a year, a month index and a day, which is what
      `setMonth(month)` does to a date whose day of the month is `day`, and
      what `new Date(year, month, day)` does once the year has been through
      `FullYear`: the month carries into the year (`year + floor(month / 12)`
      and `month modulo 12`), then the day counts from the first of that
      month, spilling into the months around it. The result is the date
      whose day number is the one MakeDay computes; `DayNumberInjective`
      shows only one date has it. */
  function MakeDate(year: int, month: int, day: int): (r: Date)
    ensures DayNumber(r) == DayFromYear(year + month / 12)
                            + DaysBeforeMonth(year + month / 12, month % 12) + day - 1
  {
    var y, m := year + month / 12, month % 12;
    if day >= 1 then CarryForward(y, m, day) else BorrowBack(y, m, day)
  }

  /** ECMA-262 MakeFullYear, which the `Date` constructor applies to its
      year argument (section 21.4.2.1): a year 0..99 stands for 1900..1999. */
  function FullYear(year: int): int
  {
    if 0 <= year <= 99 then 1900 + year else year
  }

  /** `new Date(year, month, day)`: MakeFullYear on the year, then MakeDay. */
  function NewDate(year: int, month: int, day: int): (r: Date)
    ensures DayNumber(r) == DayFromYear(FullYear(year) + month / 12)
                            + DaysBeforeMonth(FullYear(year) + month / 12, month % 12) + day - 1
  {
    MakeDate(FullYear(year), month, day)
  }

  /** An in-range month index carries nothing into the year. */
  lemma InRangeMonth(m: int)
    requires 0 <= m < 12
    ensures m / 12 == 0 && m % 12 == m
  {
  }

  // ---------------------------------------------------------------------------
  // Day numbers identify dates.

  /** Every date of year `y` has a day number in that year's range. */
  lemma DayNumberWithinYear(d: Date)
    ensures DayFromYear(d.year) <= DayNumber(d) < DayFromYear(d.year + 1)
  {
    YearStep(d.year);
  }

  lemma {:induction false} DayFromYearMonotone(a: int, b: int)
    requires a < b
    ensures DayFromYear(a + 1) <= DayFromYear(b)
    decreases b - a
  {
    if a + 1 < b {
      DayFromYearMonotone(a, b - 1);
      YearStep(b - 1);
    }
  }

  lemma DaysBeforeMonthMonotone(y: int, m1: int, m2: int)
    requires 0 <= m1 < m2 < 12
    ensures DaysBeforeMonth(y, m1) + DaysInMonth(y, m1) <= DaysBeforeMonth(y, m2)
  {
  }

  /** Dates with the same day number fall in the same year. */
  lemma SameYear(a: Date, b: Date)
    requires DayNumber(a) == DayNumber(b)
    ensures a.year == b.year
  {
    DayNumberWithinYear(a);
    DayNumberWithinYear(b);
    YearsApart(a.year, b.year, DayNumber(a));
  }

  /** A day number lies in the range of one year only. */
  lemma YearsApart(ya: int, yb: int, n: int)
    requires DayFromYear(ya) <= n < DayFromYear(ya + 1)
    requires DayFromYear(yb) <= n < DayFromYear(yb + 1)
    ensures ya == yb
  {
    if ya < yb {
      DayFromYearMonotone(ya, yb);
    } else if yb < ya {
      DayFromYearMonotone(yb, ya);
    }
  }

  /** Within one year, the offset from 1 January identifies the date. */
  lemma SameOffset(y: int, a: Date, b: Date)
    requires a.year == y && b.year == y
    requires DaysBeforeMonth(y, a.month) + a.day == DaysBeforeMonth(y, b.month) + b.day
    ensures a == b
  {
    if a.month < b.month {
      DaysBeforeMonthMonotone(y, a.month, b.month);
    } else if b.month < a.month {
      DaysBeforeMonthMonotone(y, b.month, a.month);
    }
  }

  /** Two dates with the same day number are the same date. */
  lemma DayNumberInjective(a: Date, b: Date)
    requires DayNumber(a) == DayNumber(b)
    ensures a == b
  {
    SameYear(a, b);
    SameOffset(a.year, a, b);
  }

  /** A date written out in range is left as it is by `new Date(y, m, d)`. */
  lemma MakeDateOfValid(d: Date)
    ensures MakeDate(d.year, d.month, d.day) == d
  {
    var r := MakeDate(d.year, d.month, d.day);
    InRangeMonth(d.month);
    assert DayNumber(r) == DayNumber(d);
    DayNumberInjective(r, d);
  }

  /** Day 0 of the next month is the last day of `month`, December
      included (the next month is then January of the following year). */
  lemma MonthEnd(year: int, month: int)
    requires 0 <= month < 12
    ensures MakeDate(year, month + 1, 0) == Ymd(year, month, DaysInMonth(year, month))
  {
    var last: Date := Ymd(year, month, DaysInMonth(year, month));
    var r := MakeDate(year, month + 1, 0);
    var (ny, nm) := NextMonth(year, month);
    NextMonthCarry(year, month);
    assert DayNumber(r) == DayNumber(Ymd(ny, nm, 1)) - 1;
    MonthStep(year, month);
    DayNumberInjective(r, last);
  }

  /** `new Date(year, month + 1, 0)` is the last day of `month` of the full
      year `FullYear(year)`. */
  lemma LastDayOfMonth(year: int, month: int)
    requires 0 <= month < 12
    ensures NewDate(year, month + 1, 0)
            == Ymd(FullYear(year), month, DaysInMonth(FullYear(year), month))
  {
    MonthEnd(FullYear(year), month);
  }

  /** `new Date(year, month, day)` of a day that the month of the full year
      has is that day of that month of the full year. */
  lemma NewDateOfDay(year: int, month: int, day: int)
    requires 0 <= month < 12 && 1 <= day <= DaysInMonth(FullYear(year), month)
    ensures NewDate(year, month, day) == Ymd(FullYear(year), month, day)
  {
    MakeDateOfValid(Ymd(FullYear(year), month, day));
  }

  /** Outside 0..99 the constructor leaves an in-range date as it is. */
  lemma NewDateKeepsDate(d: Date)
    requires d.year < 0 || d.year > 99
    ensures NewDate(d.year, d.month, d.day) == d
  {
    MakeDateOfValid(d);
  }

  /** Two-digit years are read as years of the 1900s: `new Date(50, 0, 1)` is
      1 January 1950, and `new Date(0, 2, 0)` is 28 February 1900 (no leap
      day, where year 0 would have one). */
  lemma TwoDigitYears()
    ensures NewDate(50, 0, 1) == Ymd(1950, 0, 1)
    ensures NewDate(0, 2, 0) == Ymd(1900, 1, 28)
    ensures IsLeapYear(0) && !IsLeapYear(1900)
  {
    assert FullYear(50) == 1950 && FullYear(0) == 1900;
    assert DaysInMonth(1900, 1) == 28;
    NewDateOfDay(50, 0, 1);
    LastDayOfMonth(0, 1);
  }

  /** Month index `month + 1` carries into the year exactly as `NextMonth`
      says. */
  lemma NextMonthCarry(year: int, month: int)
    requires 0 <= month < 12
    ensures (year + (month + 1) / 12, (month + 1) % 12) == NextMonth(year, month)
  {
    if month == 11 {
      assert (month + 1) / 12 == 1 && (month + 1) % 12 == 0;
    } else {
      assert (month + 1) / 12 == 0 && (month + 1) % 12 == month + 1;
    }
  }

  /** The day after a date, as MakeDay gives it, has the next day number and
      the next weekday. */
  lemma NextDayWeekday(d: Date)
    ensures DayNumber(MakeDate(d.year, d.month, d.day + 1)) == DayNumber(d) + 1
    ensures Weekday(MakeDate(d.year, d.month, d.day + 1)) == (Weekday(d) + 1) % 7
  {
    var e := MakeDate(d.year, d.month, d.day + 1);
    NextDayNumber(d);
    WeekdayStep(DayNumber(d), DayNumber(e));
  }

  lemma NextDayNumber(d: Date)
    ensures DayNumber(MakeDate(d.year, d.month, d.day + 1)) == DayNumber(d) + 1
  {
    InRangeMonth(d.month);
  }

  /** Day numbers one apart are one weekday apart. */
  lemma WeekdayStep(n: int, e: int)
    requires e == n + 1
    ensures (e + 4) % 7 == ((n + 4) % 7 + 1) % 7
  {
    ModSevenShift(n + 4, 1);
  }

  /** `(a + k) % 7` depends on `a` only through `a % 7`. */
  lemma ModSevenShift(a: int, k: int)
    ensures (a + k) % 7 == (a % 7 + k) % 7
  {
    var q := a / 7;
    assert a == 7 * q + a % 7;
    assert a + k == 7 * q + (a % 7 + k);
  }

  // ---------------------------------------------------------------------------
  // `date.setMonth(date.getMonth() + delta)`, as the calendar's month
  // navigation uses it.

  /** The month `delta` months after month `m` of `y` (before `delta` < 0). */
  function TargetMonth(y: int, m: int, delta: int): (r: (int, int))
    ensures 0 <= r.1 < 12
  {
    (y + (m + delta) / 12, (m + delta) % 12)
  }

  /** One month on and one month back are the neighbouring months. */
  lemma TargetNeighbours(y: int, m: int)
    requires 0 <= m < 12
    ensures TargetMonth(y, m, 1) == NextMonth(y, m)
    ensures TargetMonth(y, m, -1) == PrevMonth(y, m)
  {
  }

  /** `date.setMonth(month)`: ECMA-262 MakeDay on the date's own year (no
      two-digit year is remapped here), the new month index and the date's day
      of the month. The result is the date `day - 1` days after the first of
      the month the index carries to. */
  function SetMonth(d: Date, month: int): (r: Date)
    ensures DayNumber(r) == DayNumber(Ymd(d.year + month / 12, month % 12, 1)) + d.day - 1
  {
    MakeDate(d.year, month, d.day)
  }

  /** `setMonth(getMonth() + delta)`: the date `day - 1` days after the first
      of the month `delta` months away. */
  function ShiftMonth(d: Date, delta: int): (r: Date)
    ensures var t := TargetMonth(d.year, d.month, delta);
            DayNumber(r) == DayNumber(Ymd(t.0, t.1, 1)) + d.day - 1
  {
    var month := d.month + delta;
    assert TargetMonth(d.year, d.month, delta) == (d.year + month / 12, month % 12);
    SetMonth(d, month)
  }

  /** `setMonth(getMonth() + delta)` keeps the day of the month and moves to
      the target month, letting the day spill into the month after it when
      the target month is too short for it. */
  lemma ShiftCases(d: Date, delta: int)
    ensures var (ty, tm) := TargetMonth(d.year, d.month, delta);
            if d.day <= DaysInMonth(ty, tm) then ShiftMonth(d, delta) == Ymd(ty, tm, d.day)
            else ShiftMonth(d, delta) == Ymd(NextMonth(ty, tm).0, NextMonth(ty, tm).1, d.day - DaysInMonth(ty, tm))
  {
    var r := ShiftMonth(d, delta);
    var (ty, tm) := TargetMonth(d.year, d.month, delta);
    CountFromFirst(ty, tm, d.day, r);
  }

  /** The date `day - 1` days after the first of month `tm` of `ty`, for a
      day of the month up to 31: that day of the month if the month is long
      enough, otherwise the overflow into the next month. */
  lemma CountFromFirst(ty: int, tm: int, day: int, r: Date)
    requires 0 <= tm < 12 && 1 <= day <= 31
    requires DayNumber(r) == DayNumber(Ymd(ty, tm, 1)) + day - 1
    ensures if day <= DaysInMonth(ty, tm) then r == Ymd(ty, tm, day)
            else r == Ymd(NextMonth(ty, tm).0, NextMonth(ty, tm).1, day - DaysInMonth(ty, tm))
  {
    if day > DaysInMonth(ty, tm) {
      var (ny, nm) := NextMonth(ty, tm);
      MonthStep(ty, tm);
      DayNumberInjective(r, Ymd(ny, nm, day - DaysInMonth(ty, tm)));
    } else {
      DayNumberInjective(r, Ymd(ty, tm, day));
    }
  }

  /** A day that exists in the target month is kept. */
  lemma ShiftKeepsDay(d: Date, delta: int)
    requires d.day <= 28
    ensures ShiftMonth(d, delta) == Ymd(TargetMonth(d.year, d.month, delta).0,
                                        TargetMonth(d.year, d.month, delta).1, d.day)
  {
    ShiftCases(d, delta);
  }

  /** "next" from December is January of the following year. */
  lemma NextFromDecember(d: Date)
    requires d.month == 11
    ensures ShiftMonth(d, 1).year == d.year + 1 && ShiftMonth(d, 1).month == 0
    ensures ShiftMonth(d, 1).day == d.day
  {
    ShiftCases(d, 1);
    TargetNeighbours(d.year, d.month);
  }

  /** "prev" from January is December of the previous year. */
  lemma PrevFromJanuary(d: Date)
    requires d.month == 0
    ensures ShiftMonth(d, -1) == Ymd(d.year - 1, 11, d.day)
  {
    ShiftCases(d, -1);
    TargetNeighbours(d.year, d.month);
  }

  /** "next" then "prev" returns to the same date when the day of the month
      exists in every month (day <= 28). */
  lemma NextPrevRoundTrip(d: Date)
    requires d.day <= 28
    ensures ShiftMonth(ShiftMonth(d, 1), -1) == d
    ensures ShiftMonth(ShiftMonth(d, -1), 1) == d
  {
    TargetNeighbours(d.year, d.month);
    ShiftKeepsDay(d, 1);
    var n := ShiftMonth(d, 1);
    TargetNeighbours(n.year, n.month);
    ShiftKeepsDay(n, -1);
    ShiftKeepsDay(d, -1);
    var p := ShiftMonth(d, -1);
    TargetNeighbours(p.year, p.month);
    ShiftKeepsDay(p, 1);
  }

  /** The round trip fails for later days: in a leap year, 31 January steps
      forward to 2 March (February has 29 days), and back from there to
      2 February. */
  lemma LeapJanuaryOverflow(y: int)
    requires IsLeapYear(y)
    ensures ShiftMonth(Ymd(y, 0, 31), 1) == Ymd(y, 2, 2)
    ensures ShiftMonth(ShiftMonth(Ymd(y, 0, 31), 1), -1) == Ymd(y, 1, 2)
  {
    ShiftCases(Ymd(y, 0, 31), 1);
    ShiftCases(Ymd(y, 2, 2), -1);
  }

  /** 31 January 2024, for one. */
  lemma NextPrevNotRoundTrip()
    ensures ShiftMonth(Ymd(2024, 0, 31), 1) == Ymd(2024, 2, 2)
    ensures ShiftMonth(ShiftMonth(Ymd(2024, 0, 31), 1), -1) == Ymd(2024, 1, 2)
  {
    LeapJanuaryOverflow(2024);
  }

  /** 1 October 2024 was a Tuesday, and October has 31 days. */
  lemma October2024()
    ensures Weekday(Ymd(2024, 9, 1)) == 2
    ensures DaysInMonth(2024, 9) == 31
  {
    DayFromYearFormula(2024);
    assert DayFromYear(2024) == 19723;
    assert DayNumber(Ymd(2024, 9, 1)) == 19997;
  }
}
