/** Proleptic Gregorian dates as Python's `datetime` module handles them:
    validity, ordinals (`date.toordinal()`), ordering, the instants a
    `datetime` denotes, and `datetime.strptime(s, "%Y-%m-%d")`. */
module Calendar {
  import opened Text
  import opened Values

  datatype Date = Date(year: int, month: int, day: int)

  predicate IsLeapYear(y: int) {
    y % 4 == 0 && (y % 100 != 0 || y % 400 == 0)
  }

  function DaysInYear(y: int): int {
    if IsLeapYear(y) then 366 else 365
  }

  function DaysInMonth(y: int, m: int): int
    requires 1 <= m <= 12
  {
    if m == 2 then (if IsLeapYear(y) then 29 else 28)
    else if m == 4 || m == 6 || m == 9 || m == 11 then 30
    else 31
  }

  /** A date `datetime.date` can hold: years MINYEAR = 1 to MAXYEAR = 9999. */
  predicate ValidDate(d: Date) {
    1 <= d.year <= 9999 && 1 <= d.month <= 12 && 1 <= d.day <= DaysInMonth(d.year, d.month)
  }

  /** Days in the years before `y` (CPython's `_days_before_year`). */
  function DaysBeforeYear(y: int): int
    requires y >= 1
  {
    var p := y - 1;
    p * 365 + p / 4 - p / 100 + p / 400
  }

  /** Days in the months of year `y` before month `m` (CPython's `_days_before_month`). */
  function DaysBeforeMonth(y: int, m: int): int
    requires 1 <= m <= 12
  {
    var leap := if m > 2 && IsLeapYear(y) then 1 else 0;
    leap + (match m
      case 1 => 0 case 2 => 31 case 3 => 59 case 4 => 90 case 5 => 120 case 6 => 151
      case 7 => 181 case 8 => 212 case 9 => 243 case 10 => 273 case 11 => 304 case _ => 334)
  }

  /** `date.toordinal()`: 0001-01-01 is day 1. */
  function Ordinal(d: Date): int
    requires ValidDate(d)
  {
    DaysBeforeYear(d.year) + DaysBeforeMonth(d.year, d.month) + d.day
  }

  /** Ordinal of 9999-12-31, the last day `datetime` can represent. */
  const MaxOrdinal: int := 3652059

  lemma MaxOrdinalIsLastDay()
    ensures ValidDate(Date(9999, 12, 31)) && Ordinal(Date(9999, 12, 31)) == MaxOrdinal
  {
  }

  lemma {:induction false} DaysBeforeYearStep(y: int)
    requires y >= 1
    ensures DaysBeforeYear(y + 1) == DaysBeforeYear(y) + DaysInYear(y)
  {
    DivStep(y - 1);
    if y % 400 == 0 {
      CenturyOfEra(y);
      LeapOfCentury(y);
    } else if y % 100 == 0 {
      LeapOfCentury(y);
    }
  }

  lemma CenturyOfEra(y: int)
    requires y % 400 == 0
    ensures y % 100 == 0
  {
    assert y == 100 * (4 * (y / 400));
  }

  lemma LeapOfCentury(y: int)
    requires y % 100 == 0
    ensures y % 4 == 0
  {
    assert y == 4 * (25 * (y / 100));
  }

  lemma DivStep(p: int)
    requires p >= 0
    ensures (p + 1) / 4 == p / 4 + (if (p + 1) % 4 == 0 then 1 else 0)
    ensures (p + 1) / 100 == p / 100 + (if (p + 1) % 100 == 0 then 1 else 0)
    ensures (p + 1) / 400 == p / 400 + (if (p + 1) % 400 == 0 then 1 else 0)
  {
  }

  lemma {:induction false} DaysBeforeYearGrows(y1: int, y2: int)
    requires 1 <= y1 < y2
    ensures DaysBeforeYear(y1) + DaysInYear(y1) <= DaysBeforeYear(y2)
    decreases y2 - y1
  {
    DaysBeforeYearStep(y1);
    if y1 + 1 < y2 {
      DaysBeforeYearGrows(y1 + 1, y2);
    }
  }

  lemma MonthsFitInYear(y: int, m1: int, m2: int)
    requires 1 <= m1 <= 12 && 1 <= m2 <= 12
    ensures m1 < m2 ==> DaysBeforeMonth(y, m1) + DaysInMonth(y, m1) <= DaysBeforeMonth(y, m2)
    ensures DaysBeforeMonth(y, m1) + DaysInMonth(y, m1) <= DaysInYear(y)
  {
  }

  /** Python's order on dates: by year, then month, then day. */
  predicate DateBefore(a: Date, b: Date) {
    a.year < b.year
    || (a.year == b.year && (a.month < b.month || (a.month == b.month && a.day < b.day)))
  }

  lemma OrdinalIncreasing(a: Date, b: Date)
    requires ValidDate(a) && ValidDate(b) && DateBefore(a, b)
    ensures Ordinal(a) < Ordinal(b)
  {
    MonthsFitInYear(a.year, a.month, b.month);
    if a.year < b.year {
      DaysBeforeYearGrows(a.year, b.year);
    }
  }

  /** Comparing ordinals is comparing dates, and distinct dates have distinct ordinals. */
  lemma OrdinalOrder(a: Date, b: Date)
    requires ValidDate(a) && ValidDate(b)
    ensures DateBefore(a, b) <==> Ordinal(a) < Ordinal(b)
    ensures a == b <==> Ordinal(a) == Ordinal(b)
  {
    if DateBefore(a, b) {
      OrdinalIncreasing(a, b);
    } else if DateBefore(b, a) {
      OrdinalIncreasing(b, a);
    }
  }

  lemma OrdinalRange(d: Date)
    requires ValidDate(d)
    ensures 1 <= Ordinal(d) <= MaxOrdinal
  {
    if DateBefore(d, Date(9999, 12, 31)) {
      OrdinalIncreasing(d, Date(9999, 12, 31));
    }
  }

  /** Microseconds in a day: `timedelta(days=1)` in its finest unit. */
  const DayMicros: int := 86_400_000_000

  /** A naive `datetime`: a date and the microseconds elapsed since its midnight. */
  datatype DateTime = DateTime(date: Date, micros: int)

  predicate ValidDateTime(t: DateTime) {
    ValidDate(t.date) && 0 <= t.micros < DayMicros
  }

  /** The instant a datetime denotes, in microseconds since 0001-01-01 00:00 minus one day;
      the difference of two instants is what `datetime - datetime` returns. */
  function Instant(t: DateTime): int
    requires ValidDateTime(t)
  {
    Ordinal(t.date) * DayMicros + t.micros
  }

  /** One matched directive: the number read and how many characters it used. */
  datatype Piece = Piece(value: int, width: nat)

  /** `%m` (`1[0-2]|0[1-9]|[1-9]`) at the start of `t`, followed by the literal `-`
      of the format; the regular expression backtracks over the alternatives. */
  function MatchMonth(t: string): (r: Option<Piece>)
    ensures r.Some? ==> 1 <= r.value.width <= 2 && r.value.width < |t| && t[r.value.width] == '-'
    ensures r.Some? ==> 1 <= r.value.value <= 12
  {
    if |t| >= 3 && t[0] == '1' && '0' <= t[1] <= '2' && t[2] == '-' then Some(Piece(10 + DigitValue(t[1]), 2))
    else if |t| >= 3 && t[0] == '0' && '1' <= t[1] <= '9' && t[2] == '-' then Some(Piece(DigitValue(t[1]), 2))
    else if |t| >= 2 && '1' <= t[0] <= '9' && t[1] == '-' then Some(Piece(DigitValue(t[0]), 1))
    else None
  }

  /** `%d` (`3[01]|[12]\d|0[1-9]|[1-9]| [1-9]`) at the start of `t`: the first
      alternative that matches is taken, since nothing follows it in the format. */
  function MatchDay(t: string): (r: Option<Piece>)
    ensures r.Some? ==> 1 <= r.value.width <= 2 && r.value.width <= |t|
    ensures r.Some? ==> 1 <= r.value.value <= 31
  {
    if |t| >= 2 && t[0] == '3' && '0' <= t[1] <= '1' then Some(Piece(30 + DigitValue(t[1]), 2))
    else if |t| >= 2 && '1' <= t[0] <= '2' && IsDigit(t[1]) then Some(Piece(DigitValue(t[0]) * 10 + DigitValue(t[1]), 2))
    else if |t| >= 2 && t[0] == '0' && '1' <= t[1] <= '9' then Some(Piece(DigitValue(t[1]), 2))
    else if |t| >= 1 && '1' <= t[0] <= '9' then Some(Piece(DigitValue(t[0]), 1))
    else if |t| >= 2 && t[0] == ' ' && '1' <= t[1] <= '9' then Some(Piece(DigitValue(t[1]), 2))
    else None
  }

  /** `datetime.strptime(s, "%Y-%m-%d").date()`, or None where it raises ValueError:
      `%Y` is exactly four digits, the whole string must be consumed ("unconverted
      data remains" otherwise), and the date must exist (year 0 is out of range). */
  function ParseDate(s: string): (r: Option<Date>)
    ensures r.Some? ==> ValidDate(r.value)
  {
    if |s| < 5 || !AllDigits(s[..4]) || s[4] != '-' then None
    else
      match MatchMonth(s[5..])
      case None => None
      case Some(month) =>
        var rest := s[5 + month.width + 1..];
        match MatchDay(rest)
        case None => None
        case Some(day) =>
          var d := Date(DigitsValue(s[..4]), month.value, day.value);
          if day.width == |rest| && ValidDate(d) then Some(d) else None
  }

  /** An RFC 3339 full-date: `date-fullyear "-" date-month "-" date-mday`
      (section 5.6 of RFC 3339), judged by shape only. */
  predicate IsFullDate(s: string) {
    |s| == 10 && AllDigits(s[..4]) && s[4] == '-' && AllDigits(s[5..7]) && s[7] == '-' && AllDigits(s[8..])
  }

  /** The year, month and day a full-date spells, whether or not they exist. */
  function FullDateFields(s: string): Date
    requires IsFullDate(s)
  {
    Date(DigitsValue(s[..4]), DigitsValue(s[5..7]), DigitsValue(s[8..]))
  }

  lemma TwoDigits(t: string)
    requires |t| == 2 && AllDigits(t)
    ensures DigitsValue(t) == DigitValue(t[0]) * 10 + DigitValue(t[1])
  {
    DigitsValueAppend([], t[0]);
    DigitsValueAppend([t[0]], t[1]);
    assert [] + [t[0]] == [t[0]] && [t[0]] + [t[1]] == t;
  }

  /** On a full-date the lenient parser agrees with RFC 3339: it accepts exactly
      the calendar-valid dates (with a year of at least 1), read digit by digit. */
  lemma ParseFullDate(s: string)
    requires IsFullDate(s)
    ensures ParseDate(s) == if ValidDate(FullDateFields(s)) then Some(FullDateFields(s)) else None
  {
    var f := FullDateFields(s);
    TwoDigits(s[5..7]);
    TwoDigits(s[8..]);
    assert s[5..][..3] == s[5..8];
    var m := MatchMonth(s[5..]);
    if 1 <= f.month <= 12 {
      assert m == Some(Piece(f.month, 2));
      assert s[5 + 2 + 1..] == s[8..];
      var d := MatchDay(s[8..]);
      if 1 <= f.day <= 31 {
        assert d == Some(Piece(f.day, 2));
      } else {
        assert d.None? || d.value.width == 1;
      }
    } else {
      assert m.None?;
    }
  }

  /** `date.isoformat()`: `YYYY-MM-DD` with zero padding. */
  function FormatDate(d: Date): (r: string)
    requires ValidDate(d)
    ensures IsFullDate(r) && FullDateFields(r) == d
  {
    var r := Pad4(d.year) + "-" + Pad2(d.month) + "-" + Pad2(d.day);
    assert r[..4] == Pad4(d.year);
    assert r[5..7] == Pad2(d.month);
    assert r[8..] == Pad2(d.day);
    r
  }

  /** Parsing the ISO rendering of a date gives the date back. */
  lemma ParseFormatDate(d: Date)
    requires ValidDate(d)
    ensures ParseDate(FormatDate(d)) == Some(d)
  {
    ParseFullDate(FormatDate(d));
  }

  lemma DigitsValue2024()
    ensures AllDigits("2024") && DigitsValue("2024") == 2024
  {
    assert "2024" == "20" + "24";
    TwoDigits("20");
    TwoDigits("24");
    DigitsValueConcat2("20", "24");
  }

  /** strptime is laxer than the full-date shape: one-digit months and days pass. */
  lemma ParseDateAcceptsShortFields()
    ensures ParseDate("2024-1-5") == Some(Date(2024, 1, 5))
  {
    var s := "2024-1-5";
    assert s[..4] == "2024";
    DigitsValue2024();
    assert s[5..] == "1-5";
    assert s[5 + 1 + 1..] == "5";
  }

  /** The 30th of February does not exist. */
  lemma ParseDateRejectsFebruary30()
    ensures ParseDate("2024-02-30") == None
  {
    var t := "2024-02-30";
    assert IsFullDate(t);
    ParseFullDate(t);
    TwoDigits(t[5..7]);
  }

  /** The 29th of February exists only in leap years. */
  lemma ParseDateRejectsFebruary29()
    ensures ParseDate("2023-02-29") == None
  {
    var u := "2023-02-29";
    assert IsFullDate(u);
    ParseFullDate(u);
    TwoDigits(u[5..7]);
  }

  /** Year 0 is below MINYEAR. */
  lemma ParseDateRejectsYearZero()
    ensures ParseDate("0000-01-01") == None
  {
    var z := "0000-01-01";
    assert IsFullDate(z);
    ParseFullDate(z);
    assert z[..4] == "00" + "00";
    TwoDigits("00");
    DigitsValueConcat2("00", "00");
  }
}
