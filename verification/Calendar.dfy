/** The proleptic Gregorian calendar, counted day by day: `DayNumber` counts days year by
    year and month by month and is the reference both clocks are measured against. */
module Calendar {

  datatype Date = Date(year: int, month: int, day: int)
  datatype Parts = Parts(date: Date, hour: int, minute: int, second: int)

  const TWO31 := 0x8000_0000
  const TWO32 := 0x1_0000_0000
  const TWO64 := 0x1_0000_0000_0000_0000

  type u64 = n: int | 0 <= n < TWO64

  /** A Rust `as i32` cast of a wider integer. */
  function AsI32(n: int): int {
    var r := n % TWO32;
    if r < TWO31 then r else r - TWO32
  }

  /** A Rust `as u32` cast of a signed integer. */
  function AsU32(n: int): int {
    n % TWO32
  }

  // ---------------------------------------------------------------- reference

  predicate IsLeapYear(year: int) {
    (year % 4 == 0 && year % 100 != 0) || year % 400 == 0
  }

  function DaysInYear(year: int): (r: int)
    ensures 365 <= r <= 366
  {
    if IsLeapYear(year) then 366 else 365
  }

  function DaysInMonth(leap: bool, month: int): int
    requires 1 <= month <= 12
  {
    if month == 2 then (if leap then 29 else 28)
    else if month == 4 || month == 6 || month == 9 || month == 11 then 30
    else 31
  }

  predicate ValidDate(date: Date) {
    1 <= date.month <= 12 && 1 <= date.day <= DaysInMonth(IsLeapYear(date.year), date.month)
  }

  /** Days from 1970-01-01 to January 1st of `year`, counted one year at a time. */
  function YearStart(year: int): int
    decreases if year < 1970 then 1970 - year else year - 1970
  {
    if year == 1970 then 0
    else if year > 1970 then YearStart(year - 1) + DaysInYear(year - 1)
    else YearStart(year + 1) - DaysInYear(year)
  }

  /** Days of the year before the first of `month`, counted one month at a time. */
  function MonthStart(leap: bool, month: int): int
    requires 1 <= month <= 13
    decreases month
  {
    if month == 1 then 0 else MonthStart(leap, month - 1) + DaysInMonth(leap, month - 1)
  }

  function DayNumber(date: Date): int
    requires ValidDate(date)
  {
    YearStart(date.year) + MonthStart(IsLeapYear(date.year), date.month) + date.day - 1
  }

  /** Days from 0000-03-01 to March 1st of `y`: the fact behind the closed form. */
  function MarchStart(y: int): int {
    365 * y + y / 4 - y / 100 + y / 400
  }

  lemma {:induction false} YearStartClosed(year: int)
    ensures YearStart(year) == MarchStart(year - 1) + 306 - 719_468
    decreases if year < 1970 then 1970 - year else year - 1970
  {
    if year > 1970 {
      YearStartClosed(year - 1);
      MarchStep(year - 1);
    } else if year < 1970 {
      YearStartClosed(year + 1);
      MarchStep(year);
    }
  }

  lemma MarchStep(y: int)
    ensures MarchStart(y) - MarchStart(y - 1) == DaysInYear(y)
  {
    StepBy4(y);
    StepBy100(y);
    StepBy400(y);
  }

  lemma StepBy4(y: int)
    ensures y / 4 - (y - 1) / 4 == if y % 4 == 0 then 1 else 0
  {
  }

  lemma StepBy100(y: int)
    ensures y / 100 - (y - 1) / 100 == if y % 100 == 0 then 1 else 0
    ensures y % 100 == 0 ==> y % 4 == 0
  {
    if y % 100 == 0 { assert y == 4 * (25 * (y / 100)); }
  }

  lemma StepBy400(y: int)
    ensures y / 400 - (y - 1) / 400 == if y % 400 == 0 then 1 else 0
    ensures y % 400 == 0 ==> y % 100 == 0
  {
    if y % 400 == 0 { assert y == 100 * (4 * (y / 400)); }
  }

  lemma MonthStarts(leap: bool)
    ensures MonthStart(leap, 2) == 31
    ensures var l := if leap then 1 else 0;
            && MonthStart(leap, 3) == 59 + l && MonthStart(leap, 4) == 90 + l
            && MonthStart(leap, 5) == 120 + l && MonthStart(leap, 6) == 151 + l
            && MonthStart(leap, 7) == 181 + l && MonthStart(leap, 8) == 212 + l
            && MonthStart(leap, 9) == 243 + l && MonthStart(leap, 10) == 273 + l
            && MonthStart(leap, 11) == 304 + l && MonthStart(leap, 12) == 334 + l
  {
    assert MonthStart(leap, 2) == 31;
    assert MonthStart(leap, 3) == MonthStart(leap, 2) + DaysInMonth(leap, 2);
    assert MonthStart(leap, 4) == MonthStart(leap, 3) + DaysInMonth(leap, 3);
    assert MonthStart(leap, 5) == MonthStart(leap, 4) + DaysInMonth(leap, 4);
    assert MonthStart(leap, 6) == MonthStart(leap, 5) + DaysInMonth(leap, 5);
    assert MonthStart(leap, 7) == MonthStart(leap, 6) + DaysInMonth(leap, 6);
    assert MonthStart(leap, 8) == MonthStart(leap, 7) + DaysInMonth(leap, 7);
    assert MonthStart(leap, 9) == MonthStart(leap, 8) + DaysInMonth(leap, 8);
    assert MonthStart(leap, 10) == MonthStart(leap, 9) + DaysInMonth(leap, 9);
    assert MonthStart(leap, 11) == MonthStart(leap, 10) + DaysInMonth(leap, 10);
    assert MonthStart(leap, 12) == MonthStart(leap, 11) + DaysInMonth(leap, 11);
  }

  // ------------------------------------------------------------ dates in order

  predicate DateLess(a: Date, b: Date) {
    || a.year < b.year
    || (a.year == b.year && a.month < b.month)
    || (a.year == b.year && a.month == b.month && a.day < b.day)
  }

  lemma {:induction false} MonthsInOrder(leap: bool, m: int, n: int)
    requires 1 <= m < n <= 12
    ensures MonthStart(leap, m) + DaysInMonth(leap, m) <= MonthStart(leap, n)
    decreases n
  {
    if m < n - 1 { MonthsInOrder(leap, m, n - 1); }
  }

  lemma {:induction false} YearsInOrder(y1: int, y2: int)
    requires y1 < y2
    ensures YearStart(y1) + DaysInYear(y1) <= YearStart(y2)
  {
    YearStartClosed(y1 + 1);
    YearStartClosed(y1);
    YearStartClosed(y2);
    MarchStep(y1);
  }

  lemma WithinYear(date: Date)
    requires ValidDate(date)
    ensures YearStart(date.year) <= DayNumber(date) < YearStart(date.year) + DaysInYear(date.year)
  {
    MonthStarts(IsLeapYear(date.year));
    if date.month > 1 { MonthsInOrder(IsLeapYear(date.year), 1, date.month); }
  }

  /** `DayNumber` counts strictly upwards through the calendar. */
  lemma DayNumberOrdered(a: Date, b: Date)
    requires ValidDate(a) && ValidDate(b) && DateLess(a, b)
    ensures DayNumber(a) < DayNumber(b)
  {
    if a.year < b.year {
      WithinYear(a);
      WithinYear(b);
      YearsInOrder(a.year, b.year);
    } else if a.month < b.month {
      MonthsInOrder(IsLeapYear(a.year), a.month, b.month);
    }
  }

  lemma DayNumberInjective(a: Date, b: Date)
    requires ValidDate(a) && ValidDate(b) && DayNumber(a) == DayNumber(b)
    ensures a == b
  {
    if DateLess(a, b) { DayNumberOrdered(a, b); }
    if DateLess(b, a) { DayNumberOrdered(b, a); }
  }

  lemma YearEnd(leap: bool)
    ensures MonthStart(leap, 13) == if leap then 366 else 365
  {
    MonthStarts(leap);
    assert MonthStart(leap, 13) == MonthStart(leap, 12) + DaysInMonth(leap, 12);
  }

  /** Scaled by 400, a day number is within two years of a straight line in its year. */
  lemma DayNumberLinear(date: Date)
    requires ValidDate(date)
    ensures var line := 146_097 * (date.year - 1) + 400 * (306 - 719_468);
            -2000 <= 400 * DayNumber(date) - line <= 150_000
  {
    var start, number := YearStart(date.year), DayNumber(date);
    assert start <= number < start + 366 by { WithinYear(date); }
    YearStartClosed(date.year);
    MarchLinear(date.year - 1);
  }

  lemma MarchLinear(y: int)
    ensures -1095 <= 400 * MarchStart(y) - 146_097 * y <= 1095
  {
  }
}
