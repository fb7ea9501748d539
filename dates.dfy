/** Calendar dates as (year, month, day), their order, the end-date clamp of the
    price query and the calendar months that monthly resampling works in. */
module Dates {
  import opened Wrappers
  import opened Order

  datatype Date = Date(year: int, month: int, day: int)

  /** The default start date of a handler (2010-01-01). */
  const FirstDate: Date := Date(2010, 1, 1)

  predicate IsLeapYear(y: int)
  {
    y % 4 == 0 && (y % 100 != 0 || y % 400 == 0)
  }

  function DaysInMonth(y: int, m: int): (n: int)
    ensures 28 <= n <= 31
  {
    if m == 2 then (if IsLeapYear(y) then 29 else 28)
    else if m == 4 || m == 6 || m == 9 || m == 11 then 30
    else 31
  }

  predicate ValidDate(d: Date)
  {
    1 <= d.month <= 12 && 1 <= d.day <= DaysInMonth(d.year, d.month)
  }

  /** Chronological order; on 'YYYY-MM-DD' strings it is also the text order SQL compares by. */
  predicate DateLess(a: Date, b: Date)
  {
    a.year < b.year || (a.year == b.year && (a.month < b.month || (a.month == b.month && a.day < b.day)))
  }

  predicate NotAfter(a: Date, b: Date)
  {
    !DateLess(b, a)
  }

  lemma DateLessIsOrder()
    ensures IsStrictTotalOrder(DateLess)
  {
  }

  /** The end date the price query uses: a missing end date or one after today
      becomes today, so the result is the earlier of the two. */
  function ClampEndDate(end: Option<Date>, today: Date): (r: Date)
    ensures NotAfter(r, today)
    ensures end.Some? ==> NotAfter(r, end.value)
    ensures r == today || end == Some(r)
  {
    if end.None? || DateLess(today, end.value) then today else end.value
  }

  /** Clamping an already clamped date changes nothing, and a date that is not
      in the future survives the clamp. */
  lemma ClampEndDateStable(end: Option<Date>, today: Date)
    ensures ClampEndDate(Some(ClampEndDate(end, today)), today) == ClampEndDate(end, today)
    ensures end.Some? && NotAfter(end.value, today) ==> ClampEndDate(end, today) == end.value
  {
  }

  /** SQL's `date BETWEEN start AND end`: both ends included. */
  predicate InRange(d: Date, start: Date, end: Date)
  {
    NotAfter(start, d) && NotAfter(d, end)
  }

  /** The months counted from year 0: January of year y is 12 * y. */
  function MonthIndex(d: Date): int
  {
    d.year * 12 + (d.month - 1)
  }

  /** The label pandas gives a monthly bin: the last day of month k. */
  function MonthEnd(k: int): (d: Date)
    ensures ValidDate(d) && MonthIndex(d) == k
    ensures forall e :: ValidDate(e) && MonthIndex(e) == k ==> NotAfter(e, d)
  {
    var y, m := k / 12, k % 12 + 1;
    Date(y, m, DaysInMonth(y, m))
  }

  lemma MonthIndexMonotone(a: Date, b: Date)
    requires ValidDate(a) && ValidDate(b) && NotAfter(a, b)
    ensures MonthIndex(a) <= MonthIndex(b)
  {
  }
}
