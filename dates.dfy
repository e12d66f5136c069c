/**
 * Calendar dates as the backend stores them (Python `datetime.date`), their
 * order, and month addition as the `monthdelta` library performs it.
 */
module Dates {

  datatype Date = Date(year: int, month: int, day: int)

  /** Gregorian leap years. */
  predicate IsLeapYear(y: int)
  {
    y % 4 == 0 && (y % 100 != 0 || y % 400 == 0)
  }

  /** The length of month `m` of year `y` in the Gregorian calendar. */
  function DaysInMonth(y: int, m: int): (n: int)
    requires 1 <= m <= 12
    ensures 28 <= n <= 31
    ensures n == 29 <==> m == 2 && IsLeapYear(y)
    ensures n == 30 <==> m in {4, 6, 9, 11}
    ensures n == 31 <==> m in {1, 3, 5, 7, 8, 10, 12}
  {
    if m == 2 then (if IsLeapYear(y) then 29 else 28)
    else if m in {4, 6, 9, 11} then 30
    else 31
  }

  /** A real calendar day: month 1 to 12, day within that month. */
  predicate ValidDate(d: Date)
  {
    1 <= d.month <= 12 && 1 <= d.day <= DaysInMonth(d.year, d.month)
  }

  /** Python dates lie between MINYEAR 1 and MAXYEAR 9999. */
  predicate InPythonRange(d: Date)
  {
    1 <= d.year <= 9999
  }

  /** Chronological order: year, then month, then day. */
  predicate DateLe(a: Date, b: Date)
  {
    a.year < b.year || (a.year == b.year && (a.month < b.month || (a.month == b.month && a.day <= b.day)))
  }

  /** Any two dates are comparable. */
  lemma DateLeTotal(a: Date, b: Date)
    ensures DateLe(a, b) || DateLe(b, a)
  {
  }

  lemma DateLeAntisymmetric(a: Date, b: Date)
    requires DateLe(a, b) && DateLe(b, a)
    ensures a == b
  {
  }

  lemma DateLeTransitive(a: Date, b: Date, c: Date)
    requires DateLe(a, b) && DateLe(b, c)
    ensures DateLe(a, c)
  {
  }

  /** Months elapsed since January of year 0. */
  function MonthIndex(d: Date): int
  {
    d.year * 12 + d.month - 1
  }

  /**
   * `date + monthdelta(n)`: move `n` months forward (backward when `n` is
   * negative) and keep the day of the month, clamped to the last day of the
   * target month when that month is shorter.
   */
  function AddMonths(d: Date, n: int): (r: Date)
    requires ValidDate(d)
    ensures ValidDate(r)
    ensures MonthIndex(r) == MonthIndex(d) + n
    ensures d.day <= DaysInMonth(r.year, r.month) ==> r.day == d.day
    ensures d.day > DaysInMonth(r.year, r.month) ==> r.day == DaysInMonth(r.year, r.month)
  {
    var t := d.year * 12 + (d.month - 1) + n;
    var y := t / 12;
    var m := t % 12 + 1;
    var last := DaysInMonth(y, m);
    Date(y, m, if d.day <= last then d.day else last)
  }

  /** Two valid dates in the same month index agree on year and month. */
  lemma MonthIndexDetermines(a: Date, b: Date)
    requires 1 <= a.month <= 12 && 1 <= b.month <= 12
    ensures MonthIndex(a) == MonthIndex(b) ==> a.year == b.year && a.month == b.month
    ensures MonthIndex(a) < MonthIndex(b) ==> a.year < b.year || (a.year == b.year && a.month < b.month)
  {
  }

  /** Adding no months changes nothing. */
  lemma AddZeroMonths(d: Date)
    requires ValidDate(d)
    ensures AddMonths(d, 0) == d
  {
    MonthIndexDetermines(AddMonths(d, 0), d);
  }

  /**
   * Adding the same number of months keeps the order of dates: a later
   * appointment never yields an earlier reminder.
   */
  lemma AddMonthsMonotone(a: Date, b: Date, n: int)
    requires ValidDate(a) && ValidDate(b) && DateLe(a, b)
    ensures DateLe(AddMonths(a, n), AddMonths(b, n))
  {
    var ra, rb := AddMonths(a, n), AddMonths(b, n);
    MonthIndexDetermines(a, b);
    MonthIndexDetermines(ra, rb);
    assert MonthIndex(a) <= MonthIndex(b);
  }

  /** Month addition lands on the last valid day when the target month is short. */
  lemma ClampExamples()
    ensures AddMonths(Date(2024, 1, 31), 1) == Date(2024, 2, 29)
    ensures AddMonths(Date(2024, 1, 31), 13) == Date(2025, 2, 28)
    ensures AddMonths(Date(2023, 3, 31), -1) == Date(2023, 2, 28)
  {
  }

  /**
   * Because of the clamp, adding months in two steps is not the same as
   * adding them at once.
   */
  lemma AddMonthsNotAdditive()
    ensures AddMonths(AddMonths(Date(2024, 1, 31), 1), 1) == Date(2024, 3, 29)
    ensures AddMonths(Date(2024, 1, 31), 2) == Date(2024, 3, 31)
  {
  }
}
