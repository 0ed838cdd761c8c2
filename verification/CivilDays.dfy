/** The closed form of the log-file formatter: a day count turned into a date by division
    and remainder alone. */
module CivilDays {
  import opened Calendar

  function Doe(z: int): int { z % 146_097 }
  function Era(z: int): int { z / 146_097 }
  function Yoe(doe: int): int { (doe - doe / 1460 + doe / 36_524 - doe / 146_096) / 365 }
  function Doy(doe: int): int { doe - (365 * Yoe(doe) + Yoe(doe) / 4 - Yoe(doe) / 100) }
  function Mp(doy: int): int { (5 * doy + 2) / 153 }

  /** The date `civil_from_days` computes, before the final `as i32` on the year. */
  function CivilWide(days: int): Date {
    var z := days + 719_468;
    var doe := Doe(z);
    DateInMarchYear(Yoe(doe) + Era(z) * 400, Doy(doe))
  }

  /** The date `doy` days into the year that starts on March 1st of `y`. */
  function DateInMarchYear(y: int, doy: int): Date {
    var mp := Mp(doy);
    var d := doy - (153 * mp + 2) / 5 + 1;
    var m := if mp < 10 then mp + 3 else mp - 9;
    Date(if m <= 2 then y + 1 else y, m, d)
  }

  function CivilFromDays(days: int): Date {
    var wide := CivilWide(days);
    wide.(year := AsI32(wide.year))
  }

  function UtcParts(secs: u64): Parts {
    var timeOfDay := secs % 86_400;
    Parts(CivilFromDays(secs / 86_400), timeOfDay / 3600, (timeOfDay % 3600) / 60, timeOfDay % 60)
  }

  /** The digits of a day-of-era in the mixed radix century / four years / year / day. */
  lemma YoeDigits(doe: int) returns (c: int, k: int, r: int, t: int)
    requires 0 <= doe <= 146_096
    ensures 0 <= c <= 3 && 0 <= k <= 24 && 0 <= r <= 3 && 0 <= t <= 365
    ensures doe == 36_524 * c + 1461 * k + 365 * r + t
    ensures t == 365 ==> r == 3 && (k < 24 || c == 3)
    ensures Yoe(doe) == 100 * c + 4 * k + r
    ensures Doy(doe) == t
    ensures doe - doe / 1460 >= 0 && doe + doe / 36_524 >= doe / 1460 + doe / 146_096
  {
    c := if doe / 36_524 < 3 then doe / 36_524 else 3;
    var rem := doe - 36_524 * c;
    k := rem / 1461;
    var rem4 := rem - 1461 * k;
    r := if rem4 / 365 < 3 then rem4 / 365 else 3;
    t := rem4 - 365 * r;
    assert doe / 1460 == 25 * c + k + (24 * c + k + 365 * r + t) / 1460;
    assert doe / 146_096 == if doe == 146_096 then 1 else 0;
    assert doe / 36_524 == if doe == 146_096 then 4 else c;
    var n := 100 * c + 4 * k + r;
    assert 365 * n <= doe - doe / 1460 + doe / 36_524 - doe / 146_096 < 365 * n + 365;
    assert Yoe(doe) == n;
    assert n / 4 == 25 * c + k && n / 100 == c;
  }

  /** Month lengths in the March-based year used by the closed form. */
  lemma MonthOfDay(doy: int)
    requires 0 <= doy <= 365
    ensures 0 <= Mp(doy) <= 11
    ensures var mp := Mp(doy); var d := doy - (153 * mp + 2) / 5 + 1;
            && 1 <= d <= (if mp == 11 then 29 else DaysInMonth(true, if mp < 10 then mp + 3 else mp - 9))
            && (mp == 11 && d == 29 ==> doy == 365)
  {
    var mp := Mp(doy);
    assert 153 * mp <= 5 * doy + 2 < 153 * mp + 153;
    assert mp == 0 || mp == 1 || mp == 2 || mp == 3 || mp == 4 || mp == 5 || mp == 6 || mp == 7
      || mp == 8 || mp == 9 || mp == 10 || mp == 11;
  }

  /** Every intermediate value stays in the range its comment gives, so no unsigned
      subtraction of the closed form underflows. */
  lemma CommentedRanges(days: int)
    ensures var doe := Doe(days + 719_468); var doy := Doy(doe); var mp := Mp(doy);
            && 0 <= doe <= 146_096
            && 0 <= doe - doe / 1460
            && 0 <= doe - doe / 1460 + doe / 36_524 - doe / 146_096
            && 0 <= Yoe(doe) <= 399
            && 0 <= 365 * Yoe(doe) + Yoe(doe) / 4 - Yoe(doe) / 100
            && 0 <= doy <= 365
            && 0 <= mp <= 11
            && 0 <= doy - (153 * mp + 2) / 5
            && 1 <= CivilWide(days).day <= 31
            && 1 <= CivilWide(days).month <= 12
  {
    var doe := Doe(days + 719_468);
    var c, k, r, t := YoeDigits(doe);
    MonthOfDay(Doy(doe));
  }

  /** The March-based month offsets against the January-based month counts. */
  lemma MonthShift(leap: bool, mp: int)
    requires 0 <= mp <= 11
    ensures var start := MonthStart(leap, if mp < 10 then mp + 3 else mp - 9);
            start == (153 * mp + 2) / 5 + (if mp < 10 then (if leap then 60 else 59) else -306)
  {
    MonthStarts(leap);
    assert mp == 0 || mp == 1 || mp == 2 || mp == 3 || mp == 4 || mp == 5 || mp == 6 || mp == 7
      || mp == 8 || mp == 9 || mp == 10 || mp == 11;
  }

  /** Counting days to the closed form's date gives back the input, for every day
      number, negative ones included. */
  lemma CivilCountsBack(days: int, date: Date)
    requires date == CivilWide(days)
    ensures ValidDate(date) && DayNumber(date) == days
  {
    var y, t := MarchParts(days);
    ShiftedDate(y, t);
  }

  /** The March-based year the closed form picks, and the day within it. */
  lemma MarchParts(days: int) returns (y: int, t: int)
    ensures CivilWide(days) == DateInMarchYear(y, t)
    ensures days + 719_468 == MarchStart(y) + t
    ensures 0 <= t <= 365 && (t == 365 ==> IsLeapYear(y + 1))
  {
    var z := days + 719_468;
    var era, doe := Era(z), Doe(z);
    assert z == era * 146_097 + doe && 0 <= doe <= 146_096;
    hide DateInMarchYear, MarchStart, IsLeapYear, Yoe, Doy;
    var c, k, r;
    c, k, r, t := YoeDigits(doe);
    y := Yoe(doe) + era * 400;
    MarchOfEra(era, c, k, r, y);
    if t == 365 { LeapAtEraEnd(era, c, k, y + 1); }
  }

  lemma ShiftedDate(y: int, doy: int)
    requires 0 <= doy <= 365
    requires doy == 365 ==> IsLeapYear(y + 1)
    ensures var date := DateInMarchYear(y, doy);
            ValidDate(date) && DayNumber(date) == MarchStart(y) + doy - 719_468
  {
    MonthOfDay(doy);
    var date := DateInMarchYear(y, doy);
    MonthShift(IsLeapYear(date.year), Mp(doy));
    YearStartClosed(date.year);
    MarchStep(y);
  }

  lemma MarchOfEra(era: int, c: int, k: int, r: int, y: int)
    requires 0 <= c <= 3 && 0 <= k <= 24 && 0 <= r <= 3
    requires y == 100 * c + 4 * k + r + era * 400
    ensures MarchStart(y) == era * 146_097 + 36_524 * c + 1461 * k + 365 * r
  {
    assert y / 4 == era * 100 + 25 * c + k;
    assert y / 100 == era * 4 + c;
    assert y / 400 == era;
  }

  lemma LeapAtEraEnd(era: int, c: int, k: int, y: int)
    requires 0 <= c <= 3 && 0 <= k <= 24 && (k < 24 || c == 3)
    requires y == 100 * c + 4 * k + 4 + era * 400
    ensures IsLeapYear(y)
  {
    hide IsLeapYear;
    if k < 24 {
      LeapInCentury(25 * c + k + 1 + era * 100, c + era * 4, 4 * k + 4, y);
    } else {
      LeapCentury(era + 1, y);
    }
  }

  lemma LeapCentury(q: int, y: int)
    requires y == 400 * q
    ensures IsLeapYear(y)
  {
  }

  lemma LeapInCentury(fours: int, centuries: int, rest: int, y: int)
    requires 0 < rest < 100 && y == 4 * fours == 100 * centuries + rest
    ensures IsLeapYear(y)
  {
    hide IsLeapYear;
    CenturyMod(y, centuries, rest);
    FourMod(fours);
    assert IsLeapYear(y) by {
      assert y % 100 == rest && y % 4 == 0;
      LeapByFour(y);
    }
  }

  lemma LeapByFour(y: int)
    requires y % 4 == 0 && y % 100 != 0
    ensures IsLeapYear(y)
  {
  }

  lemma FourMod(q: int)
    ensures 4 * q % 4 == 0
  {
  }

  lemma CenturyMod(year: int, q: int, rest: int)
    requires 0 <= rest < 100 && year == 100 * q + rest
    ensures year % 100 == rest
  {
  }

  /** With `CivilCountsBack`: the closed form is a bijection between all day numbers
      and all valid dates. */
  lemma CivilInvertsCount(date: Date)
    requires ValidDate(date)
    ensures CivilWide(DayNumber(date)) == date
  {
    CivilCountsBack(DayNumber(date), CivilWide(DayNumber(date)));
    DayNumberInjective(CivilWide(DayNumber(date)), date);
  }

  /** Later day numbers are later dates. */
  lemma CivilOrdered(d1: int, d2: int)
    requires d1 < d2
    ensures DateLess(CivilWide(d1), CivilWide(d2))
  {
    CivilCountsBack(d1, CivilWide(d1));
    CivilCountsBack(d2, CivilWide(d2));
    if DateLess(CivilWide(d2), CivilWide(d1)) { DayNumberOrdered(CivilWide(d2), CivilWide(d1)); }
  }
}
