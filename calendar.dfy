/** Naive calendar dates of the proleptic Gregorian calendar, as Python's
    datetime.date has them: years 1 to 9999, comparison, day ordinals for
    subtraction, replace(year=...) and ISO formatting. */
module Calendar {
  import opened Wrappers
  import opened Errors
  import opened Decimal

  const MinYear := 1
  const MaxYear := 9999

  datatype Date = Date(year: int, month: int, day: int)

  predicate IsLeap(y: int) {
    y % 4 == 0 && (y % 100 != 0 || y % 400 == 0)
  }

  function DaysInMonth(y: int, m: int): int {
    if m == 2 then (if IsLeap(y) then 29 else 28)
    else if m == 4 || m == 6 || m == 9 || m == 11 then 30
    else 31
  }

  function DaysInYear(y: int): int {
    if IsLeap(y) then 366 else 365
  }

  /** A date the datetime.date constructor accepts. */
  predicate ValidDate(d: Date) {
    && MinYear <= d.year <= MaxYear
    && 1 <= d.month <= 12
    && 1 <= d.day <= DaysInMonth(d.year, d.month)
  }

  /** Days in the years before y, counted from 1 January of year 1. */
  function DaysBeforeYear(y: int): int
    requires y >= 1
  {
    var p := y - 1;
    365 * p + p / 4 - p / 100 + p / 400
  }

  /** Days in a common year before the first of month m (month 13 is the
      end of the year). */
  function CommonDaysBeforeMonth(m: int): int
    requires 1 <= m <= 13
  {
    match m
    case 1 => 0
    case 2 => 31
    case 3 => 59
    case 4 => 90
    case 5 => 120
    case 6 => 151
    case 7 => 181
    case 8 => 212
    case 9 => 243
    case 10 => 273
    case 11 => 304
    case 12 => 334
    case _ => 365
  }

  function DaysBeforeMonth(y: int, m: int): int
    requires 1 <= m <= 13
  {
    CommonDaysBeforeMonth(m) + (if m > 2 && IsLeap(y) then 1 else 0)
  }

  /** date.toordinal(): 1 January of year 1 is day 1, and a date's day
      number lies within its own year's range of days. */
  function Ordinal(d: Date): (n: int)
    requires ValidDate(d)
    ensures d == Date(MinYear, 1, 1) ==> n == 1
    ensures DaysBeforeYear(d.year) < n <= DaysBeforeYear(d.year) + DaysInYear(d.year)
  {
    MonthStep(d.year, 12);
    if d.month < 12 then
      MonthsGrow(d.year, d.month, 13);
      DaysBeforeYear(d.year) + DaysBeforeMonth(d.year, d.month) + d.day
    else
      DaysBeforeYear(d.year) + DaysBeforeMonth(d.year, d.month) + d.day
  }

  /** a < b for dates: lexicographic on (year, month, day), a strict total
      order. */
  predicate Before(a: Date, b: Date): (r: bool)
    ensures r ==> a != b
    ensures a.year < b.year ==> r
    ensures b.year < a.year ==> !r
  {
    || a.year < b.year
    || (a.year == b.year && (a.month < b.month || (a.month == b.month && a.day < b.day)))
  }

  /** date.replace(year=y): the same month and day in year y; the
      constructor checks the year first, then the day. */
  function Replace(d: Date, y: int): (r: Result<Date, Error>)
    requires 1 <= d.month <= 12
    ensures r.Success? <==> ValidDate(Date(y, d.month, d.day))
    ensures r.Success? ==> r.value == Date(y, d.month, d.day)
  {
    if y < MinYear || y > MaxYear then Failure(YearOutOfRange)
    else if d.day < 1 || d.day > DaysInMonth(y, d.month) then Failure(DayOutOfRange)
    else Success(Date(y, d.month, d.day))
  }

  /** strftime('%Y-%m-%d'). */
  function FormatIso(d: Date): (s: string)
    requires ValidDate(d)
    ensures |s| == 10
  {
    Pad(d.year, 4) + "-" + Pad(d.month, 2) + "-" + Pad(d.day, 2)
  }

  /** The ISO text is ten characters, dashes at 4 and 7, and its three
      digit fields read back as the year, the month and the day. */
  lemma FormatIsoFields(d: Date)
    requires ValidDate(d)
    ensures var s := FormatIso(d);
      && |s| == 10 && s[4] == '-' && s[7] == '-'
      && AllDigits(s[..4]) && AllDigits(s[5..7]) && AllDigits(s[8..])
      && Value(s[..4]) == d.year && Value(s[5..7]) == d.month && Value(s[8..]) == d.day
  {
    var s := FormatIso(d);
    assert s[..4] == Pad(d.year, 4);
    assert s[5..7] == Pad(d.month, 2);
    assert s[8..] == Pad(d.day, 2);
    ValuePad(d.year, 4);
    ValuePad(d.month, 2);
    ValuePad(d.day, 2);
  }

  /** Distinct dates print differently. */
  lemma FormatIsoInjective(a: Date, b: Date)
    requires ValidDate(a) && ValidDate(b) && FormatIso(a) == FormatIso(b)
    ensures a == b
  {
    FormatIsoFields(a);
    FormatIsoFields(b);
  }

  lemma DaysBeforeYearStep(y: int)
    requires y >= 1
    ensures DaysBeforeYear(y + 1) == DaysBeforeYear(y) + DaysInYear(y)
  {
    var p := y - 1;
    assert (p + 1) / 4 == p / 4 + (if y % 4 == 0 then 1 else 0);
    assert (p + 1) / 100 == p / 100 + (if y % 100 == 0 then 1 else 0);
    assert (p + 1) / 400 == p / 400 + (if y % 400 == 0 then 1 else 0);
  }

  /** Later years start at least a year's worth of days later. */
  lemma {:induction false} DaysBeforeYearGrows(y1: int, y2: int)
    requires 1 <= y1 < y2
    ensures DaysBeforeYear(y2) >= DaysBeforeYear(y1) + DaysInYear(y1) + 365 * (y2 - y1 - 1)
    decreases y2 - y1
  {
    DaysBeforeYearStep(y1);
    if y1 + 1 < y2 {
      DaysBeforeYearGrows(y1 + 1, y2);
    }
  }

  lemma MonthStep(y: int, m: int)
    requires 1 <= m <= 12
    ensures DaysBeforeMonth(y, m + 1) == DaysBeforeMonth(y, m) + DaysInMonth(y, m)
  {
  }

  lemma {:induction false} MonthsGrow(y: int, m1: int, m2: int)
    requires 1 <= m1 < m2 <= 13
    ensures DaysBeforeMonth(y, m1) + DaysInMonth(y, m1) <= DaysBeforeMonth(y, m2)
    decreases m2 - m1
  {
    MonthStep(y, m1);
    if m1 + 1 < m2 {
      MonthsGrow(y, m1 + 1, m2);
      MonthStep(y, m1 + 1);
    }
  }

  lemma BeforeMeansSmallerOrdinal(a: Date, b: Date)
    requires ValidDate(a) && ValidDate(b) && Before(a, b)
    ensures Ordinal(a) < Ordinal(b)
  {
    if a.year < b.year {
      DaysBeforeYearGrows(a.year, b.year);
    } else if a.month < b.month {
      MonthsGrow(a.year, a.month, b.month);
    }
  }

  /** Comparing dates is comparing their ordinals, so the whole-day
      difference of two dates is negative exactly when the first is earlier. */
  lemma BeforeIffOrdinal(a: Date, b: Date)
    requires ValidDate(a) && ValidDate(b)
    ensures Before(a, b) <==> Ordinal(a) < Ordinal(b)
    ensures a == b <==> Ordinal(a) == Ordinal(b)
  {
    if Before(a, b) {
      BeforeMeansSmallerOrdinal(a, b);
    } else if Before(b, a) {
      BeforeMeansSmallerOrdinal(b, a);
    }
  }

  /** The same month and day in two different years are at least 365 days
      apart. */
  lemma YearsApart(a: Date, b: Date)
    requires ValidDate(a) && ValidDate(b)
    requires a.month == b.month && a.day == b.day && a.year < b.year
    ensures Ordinal(b) - Ordinal(a) >= 365
  {
    DaysBeforeYearGrows(a.year, b.year);
  }

  /** Which years hold a given month and day: every year for an ordinary
      day, leap years only for 29 February. */
  lemma ValidInYear(d: Date, y: int)
    requires ValidDate(d)
    ensures ValidDate(Date(y, d.month, d.day)) <==>
      MinYear <= y <= MaxYear && (d.month != 2 || d.day != 29 || IsLeap(y))
  {
  }
}
