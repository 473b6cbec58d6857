/** The proleptic Gregorian calendar of Python's `date`, with the leap-year rule of
    Appendix C of RFC 3339 and the month lengths of its section 5.7. */
module Calendar {

  const MAX_YEAR := 9999

  datatype Date = Date(year: int, month: int, day: int)

  predicate IsLeap(year: int) {
    year % 4 == 0 && (year % 100 != 0 || year % 400 == 0)
  }

  function MonthLength(year: int, month: int): (n: int)
    requires 1 <= month <= 12
    ensures 28 <= n <= 31
  {
    if month == 2 then (if IsLeap(year) then 29 else 28)
    else if month == 4 || month == 6 || month == 9 || month == 11 then 30
    else 31
  }

  /** A day of the calendar; Python additionally refuses years past `MAX_YEAR`. */
  predicate Valid(d: Date) {
    1 <= d.year && 1 <= d.month <= 12 && 1 <= d.day <= MonthLength(d.year, d.month)
  }

  /** Python's `<` on dates: lexicographic on (year, month, day). */
  predicate Before(a: Date, b: Date) {
    || a.year < b.year
    || (a.year == b.year && a.month < b.month)
    || (a.year == b.year && a.month == b.month && a.day < b.day)
  }

  function YearLength(year: int): int {
    if IsLeap(year) then 366 else 365
  }

  /** Days before 1 January: the lengths of all earlier years added up. */
  function DaysBeforeYear(year: int): (n: nat) {
    if year <= 1 then 0 else DaysBeforeYear(year - 1) + YearLength(year - 1)
  }

  /** Days of a year before one of its months. */
  function DaysBeforeMonth(year: int, month: int): nat
    requires 1 <= month <= 12
  {
    if month == 1 then 0 else DaysBeforeMonth(year, month - 1) + MonthLength(year, month - 1)
  }

  /** The day number, 1 for 0001-01-01. */
  function Ordinal(d: Date): nat
    requires Valid(d)
  {
    DaysBeforeYear(d.year) + DaysBeforeMonth(d.year, d.month) + d.day
  }

  lemma {:induction false} LaterMonthStartsLater(year: int, a: int, b: int)
    requires 1 <= a < b <= 12
    ensures DaysBeforeMonth(year, a) + MonthLength(year, a) <= DaysBeforeMonth(year, b)
    decreases b - a
  {
    if a + 1 < b {
      LaterMonthStartsLater(year, a, b - 1);
    }
  }

  lemma MonthsFillYear(year: int)
    ensures DaysBeforeMonth(year, 12) + 31 == YearLength(year)
  {
    assert DaysBeforeMonth(year, 3) == DaysBeforeMonth(year, 2) + MonthLength(year, 2);
    assert DaysBeforeMonth(year, 5) == DaysBeforeMonth(year, 3) + 61;
    assert DaysBeforeMonth(year, 7) == DaysBeforeMonth(year, 5) + 61;
    assert DaysBeforeMonth(year, 9) == DaysBeforeMonth(year, 7) + 62;
    assert DaysBeforeMonth(year, 11) == DaysBeforeMonth(year, 9) + 61;
  }

  lemma DayWithinYear(d: Date)
    requires Valid(d)
    ensures DaysBeforeYear(d.year) < Ordinal(d) <= DaysBeforeYear(d.year + 1)
  {
    MonthsFillYear(d.year);
    if d.month < 12 {
      LaterMonthStartsLater(d.year, d.month, 12);
    }
  }

  lemma {:induction false} LaterYearStartsLater(a: int, b: int)
    requires 1 <= a < b
    ensures DaysBeforeYear(a + 1) <= DaysBeforeYear(b)
    decreases b - a
  {
    if a + 1 < b {
      LaterYearStartsLater(a, b - 1);
    }
  }

  lemma BeforeCountsUp(a: Date, b: Date)
    requires Valid(a) && Valid(b) && Before(a, b)
    ensures Ordinal(a) < Ordinal(b)
  {
    if a.year < b.year {
      DayWithinYear(a);
      DayWithinYear(b);
      LaterYearStartsLater(a.year, b.year);
    } else if a.month < b.month {
      LaterMonthStartsLater(a.year, a.month, b.month);
    }
  }

  /** The lexicographic order on dates is the order of their day numbers. */
  lemma OrdinalOrder(a: Date, b: Date)
    requires Valid(a) && Valid(b)
    ensures Before(a, b) <==> Ordinal(a) < Ordinal(b)
    ensures Ordinal(a) == Ordinal(b) <==> a == b
  {
    if Before(a, b) {
      BeforeCountsUp(a, b);
    } else if Before(b, a) {
      BeforeCountsUp(b, a);
    }
  }

  lemma QuotientStep(y: nat, n: int)
    requires y > 0 && n > 0
    ensures y / n == (y - 1) / n + if y % n == 0 then 1 else 0
  {
    var q, r := (y - 1) / n, (y - 1) % n;
    assert y - 1 == n * q + r;
    if r == n - 1 {
      assert y == n * (q + 1) + 0 by { assert n * (q + 1) == n * q + n; }
      QuotientUnique(y, n, q + 1, 0);
    } else {
      QuotientUnique(y, n, q, r + 1);
    }
  }

  lemma QuotientUnique(y: int, n: int, q: int, r: int)
    requires n > 0 && y == n * q + r && 0 <= r < n
    ensures y / n == q && y % n == r
  {
    var d := y / n - q;
    assert n * d == r - y % n by {
      assert n * (y / n) == n * q + n * d;
    }
    assert d >= 1 ==> n * d >= n;
    assert d <= -1 ==> n * d <= -n;
  }

  /** The leap years counted by divisibility: every 4th, less every 100th, plus every 400th. */
  lemma LeapCount(y: int)
    requires y >= 0
    ensures YearLength(y) == 365 + (if y % 4 == 0 then 1 else 0)
                                 - (if y % 100 == 0 then 1 else 0)
                                 + (if y % 400 == 0 then 1 else 0)
  {
    if y % 400 == 0 {
      QuotientUnique(y, 100, 4 * (y / 400), 0);
    }
    if y % 100 == 0 {
      QuotientUnique(y, 4, 25 * (y / 100), 0);
    }
  }

  /** Adding up year lengths gives the closed Gregorian count of days before a year. */
  lemma {:induction false} DaysBeforeYearClosedForm(year: int)
    requires year >= 1
    ensures var y := year - 1; DaysBeforeYear(year) == 365 * y + y / 4 - y / 100 + y / 400
  {
    if year > 1 {
      DaysBeforeYearClosedForm(year - 1);
      LeapCount(year - 1);
      QuotientStep(year - 1, 4);
      QuotientStep(year - 1, 100);
      QuotientStep(year - 1, 400);
    }
  }

  /** Days before a month by the count from March, whose lengths repeat 31, 30, 31, 30, 31. */
  function MonthStart(year: int, month: int): int
    requires 1 <= month <= 13
  {
    if month <= 2 then 31 * (month - 1)
    else (153 * (month - 3) + 2) / 5 + 59
         + if year % 400 == 0 || (year % 4 == 0 && year % 100 != 0) then 1 else 0
  }

  lemma MonthGap(year: int, month: int)
    requires 1 <= month <= 12
    ensures MonthLength(year, month) == MonthStart(year, month + 1) - MonthStart(year, month)
  {
    match month {
      case 1 => case 2 => case 3 => case 4 => case 5 => case 6 =>
      case 7 => case 8 => case 9 => case 10 => case 11 => case 12 =>
    }
  }

  /** Adding up month lengths gives that closed form, and each month fills the gap to the next. */
  lemma {:induction false} DaysBeforeMonthClosedForm(year: int, month: int)
    requires 1 <= month <= 12
    ensures DaysBeforeMonth(year, month) == MonthStart(year, month)
    ensures MonthLength(year, month) == MonthStart(year, month + 1) - MonthStart(year, month)
    decreases month
  {
    MonthGap(year, month);
    if month > 1 {
      DaysBeforeMonthClosedForm(year, month - 1);
      hide MonthStart, MonthLength;
      MonthGap(year, month - 1);
    } else {
      assert MonthStart(year, 1) == 0;
    }
  }

  /** The day number of every date, in closed form: the proleptic Gregorian count, with the first
      day of 1970 as its 719163rd. */
  lemma OrdinalClosedForm(d: Date)
    requires Valid(d)
    ensures var y := d.year - 1;
            Ordinal(d) == 365 * y + y / 4 - y / 100 + y / 400 + MonthStart(d.year, d.month) + d.day
    ensures d == Date(1970, 1, 1) ==> Ordinal(d) == 719163
  {
    DaysBeforeYearClosedForm(d.year);
    DaysBeforeMonthClosedForm(d.year, d.month);
  }

  /** The first day there is, the leap days of three kinds of year, and days that are none. */
  lemma ValidExamples()
    ensures Valid(Date(1, 1, 1)) && !Valid(Date(0, 12, 31)) && MAX_YEAR == 9999
    ensures Valid(Date(2024, 2, 29)) && Valid(Date(2000, 2, 29))
    ensures !Valid(Date(2023, 2, 29)) && !Valid(Date(1900, 2, 29))
    ensures Valid(Date(2026, 12, 31)) && !Valid(Date(2026, 13, 1)) && !Valid(Date(2026, 0, 31))
    ensures !Valid(Date(2026, 4, 31)) && !Valid(Date(2026, 4, 0))
  {
    hide Ordinal, DaysBeforeYear, DaysBeforeMonth;
  }
}
