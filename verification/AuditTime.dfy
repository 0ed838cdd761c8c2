/** The counting loops of the audit log, and the closed form compared with them. */
module AuditTime {
  import opened Calendar
  import opened CivilDays

  /** Where counting whole years from January 1st of `year` stops. */
  function YearLoop(year: int, remaining: int): (r: (int, int))
    ensures r.1 < DaysInYear(r.0)
    ensures remaining >= 0 ==> r.1 >= 0 && YearStart(r.0) + r.1 == YearStart(year) + remaining
    ensures remaining < 0 ==> r == (year, remaining)
    ensures remaining >= 0 ==> 0 <= 365 * (r.0 - year) <= remaining
    requires year >= 1970
    decreases if remaining < 0 then 0 else remaining
  {
    if remaining < DaysInYear(year) then (year, remaining)
    else YearLoop(year + 1, remaining - DaysInYear(year))
  }

  /** Where counting whole months stops; the loop has one round per month. */
  function MonthLoop(leap: bool, month: int, remaining: int): (r: (int, int))
    requires 1 <= month <= 13
    ensures month <= r.0 <= 13
    ensures r.0 <= 12 ==> r.1 < DaysInMonth(leap, r.0)
    ensures MonthStart(leap, r.0) + r.1 == MonthStart(leap, month) + remaining
    ensures remaining >= 0 ==> r.1 >= 0
    decreases 13 - month
  {
    if month == 13 || remaining < DaysInMonth(leap, month) then (month, remaining)
    else MonthLoop(leap, month + 1, remaining - DaysInMonth(leap, month))
  }

  function AuditDate(days: int): Date {
    var (year, inYear) := YearLoop(1970, days);
    var (month, inMonth) := MonthLoop(IsLeapYear(year), 1, inYear);
    Date(year, AsU32(month), AsU32(inMonth + 1))
  }

  function AuditParts(secs: u64): Parts {
    var daySecs := secs % 86_400;
    Parts(AuditDate(AsI32(secs / 86_400)), daySecs / 3600, (daySecs % 3600) / 60, daySecs % 60)
  }

  /** The counting loops stop inside the year and land on the valid date whose day
      number they were given. */
  lemma AuditCountsBack(days: int)
    requires 0 <= days < TWO31
    ensures ValidDate(AuditDate(days)) && DayNumber(AuditDate(days)) == days
    ensures 0 <= 365 * (AuditDate(days).year - 1970) <= days
  {
    var (year, inYear) := YearLoop(1970, days);
    var leap := IsLeapYear(year);
    YearEnd(leap);
    var (month, inMonth) := MonthLoop(leap, 1, inYear);
    SmallCasts(month, inMonth + 1);
    assert AuditDate(days) == Date(year, month, inMonth + 1);
    assert 365 * (year - 1970) <= days;
  }

  lemma SmallCasts(a: int, b: int)
    requires 0 <= a < 100 && 0 <= b < 100
    ensures AsU32(a) == a && AsU32(b) == b
  {
  }

  method TimestampParts(secs: u64) returns (parts: Parts)
    ensures parts == AuditParts(secs)
  {
    hide IsLeapYear, AsI32, AsU32;
    var days := AsI32(secs / 86_400);
    var daySecs := secs % 86_400;
    var hour, min, sec := daySecs / 3600, (daySecs % 3600) / 60, daySecs % 60;
    var year, inYear := CountYears(days);
    var month, inMonth := CountMonths(IsLeapYear(year), inYear);
    parts := Parts(Date(year, AsU32(month), AsU32(inMonth + 1)), hour, min, sec);
  }

  /** The year loop of `TimestampParts`. */
  method CountYears(days: int) returns (year: int, remaining: int)
    ensures (year, remaining) == YearLoop(1970, days)
  {
    hide IsLeapYear;
    year, remaining := 1970, days;
    while true
      invariant year >= 1970
      invariant YearLoop(year, remaining) == YearLoop(1970, days)
      invariant days >= 0 ==> remaining >= 0
      decreases if remaining < 0 then 0 else remaining
    {
      var daysInYear := DaysInYear(year);
      if remaining < daysInYear { break; }
      remaining := remaining - daysInYear;
      year := year + 1;
    }
  }

  /** The table the month loop walks. */
  function MonthLengths(leap: bool): (r: seq<int>)
    ensures |r| == 12 && forall i :: 0 <= i < 12 ==> r[i] == DaysInMonth(leap, i + 1)
  {
    if leap then [31, 29, 31, 30, 31, 30, 31, 31, 30, 31, 30, 31]
    else [31, 28, 31, 30, 31, 30, 31, 31, 30, 31, 30, 31]
  }

  /** The month loop of `TimestampParts`. */
  method CountMonths(leap: bool, inYear: int) returns (month: int, remaining: int)
    ensures (month, remaining) == MonthLoop(leap, 1, inYear)
    ensures 0 <= inYear < (if leap then 366 else 365) ==> month <= 12
  {
    var daysInMonths := MonthLengths(leap);
    month, remaining := 1, inYear;
    for i := 0 to 12
      invariant month == i + 1
      invariant MonthLoop(leap, month, remaining) == MonthLoop(leap, 1, inYear)
    {
      if remaining < daysInMonths[i] { break; }
      remaining := remaining - daysInMonths[i];
      month := month + 1;
    }
    YearEnd(leap);
  }

  // --------------------------------------------------- the two forms compared

  /** The closed form refines the counting loops exactly as long as the day count
      fits in the `i32` the loops start from. */
  lemma FastFormRefinesLoops(secs: u64)
    ensures UtcParts(secs) == AuditParts(secs) <==> secs / 86_400 < TWO31
  {
    var days := secs / 86_400;
    if days < TWO31 {
      FittingDatesAgree(days);
    } else {
      WrappedDatesDiffer(days);
    }
  }

  lemma FittingDatesAgree(days: int)
    requires 0 <= days < TWO31
    ensures AsI32(days) == days && CivilFromDays(days) == AuditDate(days)
  {
    AuditCountsBack(days);
    CivilCountsBack(days, CivilWide(days));
    var date := AuditDate(days);
    DayNumberInjective(CivilWide(days), date);
    NarrowYear(date.year, days);
  }

  lemma NarrowYear(year: int, days: int)
    requires 1970 <= year && 365 * (year - 1970) <= days < TWO31
    ensures AsI32(year) == year && AsI32(days) == days
  {
  }

  lemma CoprimeWrap(j: int, k: int)
    requires 400 * k == 146_097 * j
    ensures k % 146_097 == 0
  {
    assert j == 400 * (33 * k - 12_053 * j);
    var i := 33 * k - 12_053 * j;
    assert k == 146_097 * i;
  }

  /** No wrap of the year can make up for a wrap of the day count below 2^64 seconds. */
  lemma NoCoincidence(k: int, j: int)
    requires 1 <= k < 146_097
    ensures !(-200_000 < 400 * (k * TWO32) - 146_097 * (j * TWO32) < 200_000)
  {
    var gap := 400 * k - 146_097 * j;
    assert gap * TWO32 == 400 * (k * TWO32) - 146_097 * (j * TWO32);
    if gap == 0 { CoprimeWrap(j, k); }
  }

  lemma WrappedBy(n: int) returns (k: int)
    ensures n - AsI32(n) == k * TWO32
    ensures n >= TWO31 ==> k >= 1
    ensures n < TWO64 / 86_400 + 1 ==> k < 146_097
  {
    var r := n % TWO32;
    k := n / TWO32 + (if r < TWO31 then 0 else 1);
    assert n == n / TWO32 * TWO32 + r;
  }

  lemma WrappedDatesDiffer(days: int)
    requires TWO31 <= days < TWO64 / 86_400 + 1
    ensures CivilFromDays(days) != AuditDate(AsI32(days))
  {
    var wrapped := AsI32(days);
    var wide, narrow := CivilWide(days), AuditDate(wrapped);
    CivilCountsBack(days, CivilWide(days));
    if wrapped < 0 {
      CommentedRanges(days);
      NegativeDay(wrapped);
    } else if AsI32(wide.year) == narrow.year {
      AuditCountsBack(wrapped);
      DayNumberLinear(wide);
      DayNumberLinear(narrow);
      var k := WrappedBy(days);
      var j := WrappedBy(wide.year);
      NoCoincidence(k, j);
    }
  }

  /** A wrapped negative day count never enters the loops and prints a day no month has. */
  lemma NegativeDay(wrapped: int)
    requires -TWO31 <= wrapped < 0
    ensures !(1 <= AuditDate(wrapped).day <= 31)
  {
  }
}
