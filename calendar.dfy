/**
 * Gregorian calendar dates as pandas and Python's datetime see them,
 * without a time of day.
 */
module Calendar {

  /** A (year, month, day) triple; `IsValid` says when it names a real day. */
  datatype Date = Date(year: int, month: int, day: int)

  predicate IsLeapYear(y: int) {
    y % 4 == 0 && (y % 100 != 0 || y % 400 == 0)
  }

  function DaysInMonth(y: int, m: int): (n: int)
    requires 1 <= m <= 12
    ensures 28 <= n <= 31
  {
    if m == 2 then (if IsLeapYear(y) then 29 else 28)
    else if m == 4 || m == 6 || m == 9 || m == 11 then 30
    else 31
  }

  predicate IsValid(d: Date) {
    1 <= d.month <= 12 && 1 <= d.day <= DaysInMonth(d.year, d.month)
  }

  /** A date that exists in the calendar: what a parsed timestamp always is. */
  type CalendarDate = d: Date | IsValid(d) witness Date(1970, 1, 1)

  /** Chronological order, strict. */
  predicate Before(a: Date, b: Date) {
    a.year < b.year
    || (a.year == b.year && (a.month < b.month || (a.month == b.month && a.day < b.day)))
  }

  predicate IsMonthEnd(d: Date) {
    IsValid(d) && d.day == DaysInMonth(d.year, d.month)
  }

  /** Months elapsed since January of year 0: consecutive months differ by one. */
  function MonthCount(y: int, m: int): int {
    12 * y + m - 1
  }

  function NextMonth(y: int, m: int): (r: (int, int))
    requires 1 <= m <= 12
    ensures 1 <= r.1 <= 12
    ensures MonthCount(r.0, r.1) == MonthCount(y, m) + 1
  {
    if m == 12 then (y + 1, 1) else (y, m + 1)
  }

  function LastDayOf(y: int, m: int): (d: CalendarDate)
    requires 1 <= m <= 12
    ensures d.year == y && d.month == m && IsMonthEnd(d)
  {
    Date(y, m, DaysInMonth(y, m))
  }

  /** The last days of the `n` calendar months that follow month (y, m). */
  function MonthEndsAfter(y: int, m: int, n: nat): seq<CalendarDate>
    requires 1 <= m <= 12
    decreases n
  {
    if n == 0 then []
    else
      var next := NextMonth(y, m);
      [LastDayOf(next.0, next.1)] + MonthEndsAfter(next.0, next.1, n - 1)
  }

  /** A later month means a later date, whatever the days. */
  lemma LaterMonthIsLater(a: Date, b: Date)
    requires 1 <= a.month <= 12 && 1 <= b.month <= 12
    requires MonthCount(a.year, a.month) < MonthCount(b.year, b.month)
    ensures Before(a, b)
  {
  }

  lemma {:induction false} MonthEndsAfterSpec(y: int, m: int, n: nat)
    requires 1 <= m <= 12
    ensures |MonthEndsAfter(y, m, n)| == n
    ensures forall i :: 0 <= i < n ==>
      IsMonthEnd(MonthEndsAfter(y, m, n)[i])
      && MonthCount(MonthEndsAfter(y, m, n)[i].year, MonthEndsAfter(y, m, n)[i].month) == MonthCount(y, m) + i + 1
    decreases n
  {
    if n > 0 {
      var next := NextMonth(y, m);
      MonthEndsAfterSpec(next.0, next.1, n - 1);
      var r := MonthEndsAfter(y, m, n);
      assert r == [LastDayOf(next.0, next.1)] + MonthEndsAfter(next.0, next.1, n - 1);
      forall i | 0 <= i < n
        ensures IsMonthEnd(r[i]) && MonthCount(r[i].year, r[i].month) == MonthCount(y, m) + i + 1
      {
        if i > 0 {
          assert r[i] == MonthEndsAfter(next.0, next.1, n - 1)[i - 1];
        }
      }
    }
  }
}
