/** The sortable UTC stamp of log-file names: `YYYYMMDDTHHMMSSZ`, the basic format
    of section 4.3.2 of ISO 8601:2004. */
module UtcStamp {
  import opened Prelude
  import opened Calendar
  import opened CivilDays

  const NANOS := 1_000_000_000

  /** The first second of the year 10000. */
  const YEAR_10000 := 253_402_300_800

  function Zeros(k: int): string {
    seq(if k < 0 then 0 else k, _ => '0')
  }

  /** Rust's `{:0width}` for an integer; the sign counts towards the width. */
  function Padded(n: int, width: int): string
    decreases n < 0
  {
    if n < 0 then "-" + Padded(-n, width - 1)
    else Zeros(width - |Decimal(n)|) + Decimal(n)
  }

  function Stamp(p: Parts): string {
    Padded(p.date.year, 4) + (Padded(p.date.month, 2) + (Padded(p.date.day, 2) + ("T" +
      (Padded(p.hour, 2) + (Padded(p.minute, 2) + (Padded(p.second, 2) + "Z"))))))
  }

  /** Seconds since the epoch of a `SystemTime`; times before the epoch saturate. */
  function SecondsSinceEpoch(nanos: int): u64
    requires nanos < TWO64 * NANOS
  {
    if nanos < 0 then 0 else nanos / NANOS
  }

  /** `nanos` is the time's signed distance from the Unix epoch. */
  function FormatUtcTimestamp(nanos: int): string
    requires nanos < TWO64 * NANOS
  {
    Stamp(UtcParts(SecondsSinceEpoch(nanos)))
  }

  // -------------------------------------------------------- fixed-width fields

  function Pow10(w: nat): nat {
    if w == 0 then 1 else 10 * Pow10(w - 1)
  }

  /** The last `w` decimal digits of `n`. */
  function Fixed(n: nat, w: nat): (s: string)
    ensures |s| == w
  {
    if w == 0 then "" else Fixed(n / 10, w - 1) + [Digit(n % 10)]
  }

  lemma {:induction false} FixedZero(w: nat)
    ensures Fixed(0, w) == Zeros(w)
  {
    if w > 0 {
      FixedZero(w - 1);
      assert Zeros(w) == Zeros(w - 1) + ['0'];
    }
  }

  lemma {:induction false} PaddedIsFixed(n: nat, w: nat)
    requires w >= 1 && n < Pow10(w)
    ensures Padded(n, w) == Fixed(n, w)
  {
    if n < 10 {
      FixedZero(w - 1);
    } else {
      assert w != 1;
      PaddedIsFixed(n / 10, w - 1);
      assert Zeros(w - |Decimal(n)|) == Zeros(w - 1 - |Decimal(n / 10)|);
    }
  }

  lemma {:induction false} FixedOrdered(a: nat, b: nat, w: nat)
    requires a < b < Pow10(w)
    ensures LexLess(Fixed(a, w), Fixed(b, w))
  {
    var p, q := Fixed(a / 10, w - 1), Fixed(b / 10, w - 1);
    if a / 10 < b / 10 {
      FixedOrdered(a / 10, b / 10, w - 1);
      LexExtend(p, q, [Digit(a % 10)], [Digit(b % 10)]);
    } else {
      assert a / 10 == b / 10 && a % 10 < b % 10;
      LexPrepend(p, [Digit(a % 10)], [Digit(b % 10)]);
    }
  }

  lemma PaddedOrdered(a: nat, b: nat, w: nat)
    requires w >= 1 && a < b < Pow10(w)
    ensures LexLess(Padded(a, w), Padded(b, w)) && |Padded(a, w)| == |Padded(b, w)| == w
  {
    PaddedIsFixed(a, w);
    PaddedIsFixed(b, w);
    FixedOrdered(a, b, w);
  }

  /** A smaller leading field decides, whatever follows. */
  lemma FieldLess(a: nat, b: nat, w: nat, x: string, y: string)
    requires w >= 1 && a < b < Pow10(w)
    ensures LexLess(Padded(a, w) + x, Padded(b, w) + y)
  {
    PaddedOrdered(a, b, w);
    LexExtend(Padded(a, w), Padded(b, w), x, y);
  }

  lemma Widths()
    ensures Pow10(2) == 100 && Pow10(4) == 10_000
  {
    assert Pow10(1) == 10;
    assert Pow10(3) == 10 * Pow10(2);
  }

  // -------------------------------------------------------------- stamp order

  predicate InRange(p: Parts) {
    && ValidDate(p.date) && 0 <= p.date.year < 10_000
    && 0 <= p.hour < 24 && 0 <= p.minute < 60 && 0 <= p.second < 60
  }

  function TimeOfDay(p: Parts): string {
    Padded(p.hour, 2) + (Padded(p.minute, 2) + (Padded(p.second, 2) + "Z"))
  }

  lemma StampOfDates(p: Parts, q: Parts)
    requires InRange(p) && InRange(q) && DateLess(p.date, q.date)
    ensures LexLess(Stamp(p), Stamp(q))
  {
    Widths();
    var a, b := p.date, q.date;
    var pTail, qTail := "T" + TimeOfDay(p), "T" + TimeOfDay(q);
    var pDays, qDays := Padded(a.day, 2) + pTail, Padded(b.day, 2) + qTail;
    var pRest, qRest := Padded(a.month, 2) + pDays, Padded(b.month, 2) + qDays;
    if a.year < b.year {
      FieldLess(a.year, b.year, 4, pRest, qRest);
    } else {
      if a.month < b.month {
        FieldLess(a.month, b.month, 2, pDays, qDays);
      } else {
        FieldLess(a.day, b.day, 2, pTail, qTail);
        LexPrepend(Padded(a.month, 2), pDays, qDays);
      }
      LexPrepend(Padded(a.year, 4), pRest, qRest);
    }
  }

  lemma StampOfTimes(p: Parts, q: Parts)
    requires InRange(p) && InRange(q) && p.date == q.date
    requires LexLess(TimeOfDay(p), TimeOfDay(q))
    ensures LexLess(Stamp(p), Stamp(q))
  {
    var a := p.date;
    LexPrepend("T", TimeOfDay(p), TimeOfDay(q));
    var pTail, qTail := "T" + TimeOfDay(p), "T" + TimeOfDay(q);
    LexPrepend(Padded(a.day, 2), pTail, qTail);
    LexPrepend(Padded(a.month, 2), Padded(a.day, 2) + pTail, Padded(a.day, 2) + qTail);
    LexPrepend(Padded(a.year, 4), Padded(a.month, 2) + (Padded(a.day, 2) + pTail),
      Padded(a.month, 2) + (Padded(a.day, 2) + qTail));
  }

  lemma TimesInOrder(p: Parts, q: Parts, t1: int, t2: int)
    requires 0 <= t1 < t2 < 86_400
    requires p.hour == t1 / 3600 && p.minute == t1 % 3600 / 60 && p.second == t1 % 60
    requires q.hour == t2 / 3600 && q.minute == t2 % 3600 / 60 && q.second == t2 % 60
    ensures LexLess(TimeOfDay(p), TimeOfDay(q))
  {
    hide Padded, LexLess;
    Widths();
    var pSec, qSec := Padded(p.second, 2) + "Z", Padded(q.second, 2) + "Z";
    var pMin, qMin := Padded(p.minute, 2) + pSec, Padded(q.minute, 2) + qSec;
    TimeFields(t1, p.hour, p.minute, p.second);
    TimeFields(t2, q.hour, q.minute, q.second);
    if p.hour < q.hour {
      FieldLess(p.hour, q.hour, 2, pMin, qMin);
    } else {
      if p.minute < q.minute {
        FieldLess(p.minute, q.minute, 2, pSec, qSec);
      } else {
        FieldLess(p.second, q.second, 2, "Z", "Z");
        LexPrepend(Padded(p.minute, 2), pSec, qSec);
      }
      LexPrepend(Padded(p.hour, 2), pMin, qMin);
    }
  }

  lemma TimeFields(t: int, hour: int, minute: int, second: int)
    requires 0 <= t < 86_400
    requires hour == t / 3600 && minute == t % 3600 / 60 && second == t % 60
    ensures t == 3600 * hour + 60 * minute + second
    ensures 0 <= hour < 24 && 0 <= minute < 60 && 0 <= second < 60
  {
    assert t % 3600 == 60 * minute + t % 3600 % 60;
    assert t % 3600 % 60 == t % 60 by {
      assert t == 60 * (60 * hour + minute) + t % 3600 % 60;
    }
  }

  lemma YearFits(days: int)
    requires 0 <= days < 2_932_897
    ensures 1970 <= CivilWide(days).year < 10_000
  {
    hide IsLeapYear, CivilWide;
    var date := CivilWide(days);
    CivilCountsBack(days, date);
    YearStartClosed(10_000);
    YearStartClosed(1970);
    assert YearStart(10_000) == 2_932_897;
    WithinYear(date);
    if date.year > 10_000 { YearsInOrder(10_000, date.year); }
    if date.year < 1970 { YearsInOrder(date.year, 1970); }
  }

  /** Below the year 10000 nothing is lost in narrowing the year. */
  lemma SameDate(secs: u64)
    requires secs < YEAR_10000
    ensures UtcParts(secs).date == CivilWide(secs / 86_400)
  {
    hide CivilWide;
    YearFits(secs / 86_400);
  }

  /** Below the year 10000 every field fits its width. */
  lemma PartsInRange(secs: u64)
    requires secs < YEAR_10000
    ensures InRange(UtcParts(secs))
  {
    hide IsLeapYear, CivilWide, ValidDate;
    SameDate(secs);
    YearFits(secs / 86_400);
    CivilCountsBack(secs / 86_400, CivilWide(secs / 86_400));
    var t := secs % 86_400;
    TimeFields(t, t / 3600, t % 3600 / 60, t % 60);
  }

  /** Chronological order and the order of the printed stamps are the same order. */
  lemma StampsSortChronologically(s1: u64, s2: u64)
    requires s1 < YEAR_10000 && s2 < YEAR_10000
    ensures s1 < s2 <==> LexLess(Stamp(UtcParts(s1)), Stamp(UtcParts(s2)))
  {
    if s1 < s2 {
      EarlierSortsFirst(s1, s2);
    } else if s2 < s1 {
      EarlierSortsFirst(s2, s1);
      LexAsymmetric(Stamp(UtcParts(s2)), Stamp(UtcParts(s1)));
    } else {
      LexIrreflexive(Stamp(UtcParts(s1)));
    }
  }

  lemma EarlierSortsFirst(s1: u64, s2: u64)
    requires s1 < s2 < YEAR_10000
    ensures LexLess(Stamp(UtcParts(s1)), Stamp(UtcParts(s2)))
  {
    hide CivilWide, IsLeapYear, Stamp;
    PartsInRange(s1);
    PartsInRange(s2);
    SameDate(s1);
    SameDate(s2);
    var p, q := UtcParts(s1), UtcParts(s2);
    if s1 / 86_400 < s2 / 86_400 {
      CivilOrdered(s1 / 86_400, s2 / 86_400);
      StampOfDates(p, q);
    } else {
      TimesInOrder(p, q, s1 % 86_400, s2 % 86_400);
      StampOfTimes(p, q);
    }
  }

  /** A negative number keeps its width, the sign included. */
  lemma NegativePadded(n: nat, w: nat)
    requires w >= 2 && 0 < n < Pow10(w - 1)
    ensures Padded(0 - (n as int), w) == "-" + Fixed(n, w - 1)
  {
    PaddedIsFixed(n, w - 1);
  }

  /** The value of a numeral. */
  function Value(s: string): int {
    if s == "" then 0 else 10 * Value(s[..|s| - 1]) + (s[|s| - 1] as int - '0' as int)
  }

  lemma {:induction false} FixedValue(n: nat, w: nat)
    requires n < Pow10(w)
    ensures Value(Fixed(n, w)) == n
  {
    if w > 0 {
      FixedValue(n / 10, w - 1);
      assert Fixed(n, w)[..w - 1] == Fixed(n / 10, w - 1);
    }
  }

  /** What a reader of the basic format sees. */
  function ReadStamp(s: string): Parts
    requires |s| == 16
  {
    Parts(Date(Value(s[..4]), Value(s[4..6]), Value(s[6..8])), Value(s[9..11]), Value(s[11..13]), Value(s[13..15]))
  }

  /** All six fields read back from their places, around a `T` and before a `Z`. */
  lemma StampReadsBack(p: Parts)
    requires InRange(p)
    ensures var s := Stamp(p);
            |s| == 16 && s[8] == 'T' && s[15] == 'Z' && ReadStamp(s) == p
  {
    hide Padded, Fixed, Value, ValidDate;
    assert 1 <= p.date.month <= 12 && 1 <= p.date.day <= 31 by { DateBounds(p.date); }
    Widths();
    var y, mo, d := Padded(p.date.year, 4), Padded(p.date.month, 2), Padded(p.date.day, 2);
    var h, mi, s := Padded(p.hour, 2), Padded(p.minute, 2), Padded(p.second, 2);
    PaddedReadsBack(p.date.year, 4);
    PaddedReadsBack(p.date.month, 2);
    PaddedReadsBack(p.date.day, 2);
    PaddedReadsBack(p.hour, 2);
    PaddedReadsBack(p.minute, 2);
    PaddedReadsBack(p.second, 2);
    var stamp := Stamp(p);
    assert stamp == y + mo + d + "T" + h + mi + s + "Z";
    assert stamp[..4] == y && stamp[4..6] == mo && stamp[6..8] == d;
    assert stamp[9..11] == h && stamp[11..13] == mi && stamp[13..15] == s;
  }

  lemma DateBounds(date: Date)
    requires ValidDate(date)
    ensures 1 <= date.month <= 12 && 1 <= date.day <= 31
  {
  }

  lemma PaddedReadsBack(n: nat, w: nat)
    requires w >= 1 && n < Pow10(w)
    ensures |Padded(n, w)| == w && Value(Padded(n, w)) == n
  {
    PaddedIsFixed(n, w);
    FixedValue(n, w);
  }

  lemma StampLength(secs: u64)
    requires secs < YEAR_10000
    ensures |Stamp(UtcParts(secs))| == 16
  {
    PartsInRange(secs);
    Widths();
    var p := UtcParts(secs);
    PaddedIsFixed(p.date.year, 4);
    PaddedIsFixed(p.date.month, 2);
    PaddedIsFixed(p.date.day, 2);
    PaddedIsFixed(p.hour, 2);
    PaddedIsFixed(p.minute, 2);
    PaddedIsFixed(p.second, 2);
  }

  /** Distinct seconds print distinct stamps. */
  lemma StampInjective(s1: u64, s2: u64)
    requires s1 < YEAR_10000 && s2 < YEAR_10000
    ensures Stamp(UtcParts(s1)) == Stamp(UtcParts(s2)) ==> s1 == s2
  {
    LexIrreflexive(Stamp(UtcParts(s1)));
    if s1 < s2 { EarlierSortsFirst(s1, s2); }
    if s2 < s1 { EarlierSortsFirst(s2, s1); }
  }

  /** The year bound is tight: one second later the stamp grows by a digit and sorts
      before its predecessor. */
  lemma OrderFailsAtYear10000()
    ensures LexLess(Stamp(UtcParts(YEAR_10000)), Stamp(UtcParts(YEAR_10000 - 1)))
  {
    hide UtcParts, Padded;
    YearsAtBoundary();
    YearTexts();
    assert Stamp(UtcParts(YEAR_10000 - 1))[0] == '9' && Stamp(UtcParts(YEAR_10000))[0] == '1';
  }

  lemma YearsAtBoundary()
    ensures UtcParts(YEAR_10000 - 1).date.year == 9999 && UtcParts(YEAR_10000).date.year == 10_000
  {
    YearBoundary();
    hide CivilWide, IsLeapYear;
    assert YEAR_10000 / 86_400 == 2_932_897 && (YEAR_10000 - 1) / 86_400 == 2_932_896;
  }

  lemma YearTexts()
    ensures Padded(9999, 4) == "9999" && Padded(10_000, 4) == "10000"
  {
    assert Decimal(9999) == Decimal(999) + ['9'] && Decimal(999) == Decimal(99) + ['9'];
    assert Decimal(10_000) == Decimal(1000) + ['0'] && Decimal(1000) == Decimal(100) + ['0'];
    assert Decimal(99) == ['9', '9'] && Decimal(100) == Decimal(10) + ['0'];
  }

  /** All pairs of distinct seconds below `bound` print in chronological order. */
  ghost predicate SortsBelow(bound: int) {
    forall s1: u64, s2: u64 :: s1 < s2 < bound ==> LexLess(Stamp(UtcParts(s1)), Stamp(UtcParts(s2)))
  }

  /** The stamps below a bound sort exactly if the bound is at most the year 10000. */
  lemma SortsExactlyBelowYear10000(bound: int)
    requires bound <= TWO64
    ensures SortsBelow(bound) <==> bound <= YEAR_10000
  {
    hide Stamp, UtcParts, LexLess;
    if bound <= YEAR_10000 {
      forall s1: u64, s2: u64 | s1 < s2 < bound ensures LexLess(Stamp(UtcParts(s1)), Stamp(UtcParts(s2))) {
        EarlierSortsFirst(s1, s2);
      }
    } else {
      OrderFailsAtYear10000();
      LexAsymmetric(Stamp(UtcParts(YEAR_10000)), Stamp(UtcParts(YEAR_10000 - 1)));
    }
  }

  lemma YearBoundary()
    ensures CivilWide(2_932_897) == Date(10_000, 1, 1)
    ensures CivilWide(2_932_896).year == 9999
  {
    hide CivilWide;
    YearStartClosed(10_000);
    CivilInvertsCount(Date(10_000, 1, 1));
    YearStartClosed(9999);
    MonthStarts(false);
    CivilInvertsCount(Date(9999, 12, 31));
  }

  /** Any time before the epoch prints as the epoch itself. */
  lemma PreEpochSaturates(nanos: int)
    requires nanos < NANOS
    ensures FormatUtcTimestamp(nanos) == "19700101T000000Z"
  {
    hide UtcParts, Padded;
    EpochDate();
    EpochFields();
  }

  lemma EpochDate()
    ensures UtcParts(0) == Parts(Date(1970, 1, 1), 0, 0, 0)
  {
    hide CivilWide, IsLeapYear;
    assert CivilWide(0) == Date(1970, 1, 1) by { CivilInvertsCount(Date(1970, 1, 1)); }
  }

  lemma EpochFields()
    ensures Padded(1970, 4) == "1970" && Padded(1, 2) == "01" && Padded(0, 2) == "00"
  {
    assert Decimal(1970) == Decimal(197) + ['0'] && Decimal(197) == Decimal(19) + ['7'];
    assert Zeros(1) == "0";
  }
}
