/**
 * Calendar dates and the parts of Carbon's date arithmetic that the cost
 * report relies on: start and end of a month or year, and adding whole
 * months (with Carbon's default day overflow, and without it).
 */
module Calendar {

  datatype Date = Date(year: int, month: int, day: int)

  predicate IsLeapYear(y: int) {
    (y % 4 == 0 && y % 100 != 0) || y % 400 == 0
  }

  function DaysInMonth(y: int, m: int): (n: int)
    requires 1 <= m <= 12
    ensures 28 <= n <= 31
    ensures n == 28 <==> m == 2 && !IsLeapYear(y)
  {
    if m == 2 then (if IsLeapYear(y) then 29 else 28)
    else if m == 4 || m == 6 || m == 9 || m == 11 then 30
    else 31
  }

  predicate IsValidDate(d: Date) {
    1 <= d.month <= 12 && 1 <= d.day <= DaysInMonth(d.year, d.month)
  }

  /** A date that exists in the proleptic Gregorian calendar (what a SQL DATE column holds). */
  type CalDate = d: Date | IsValidDate(d) witness Date(1970, 1, 1)

  /** Microseconds since midnight: Carbon keeps microsecond precision. */
  type TimeOfDay = t: int | 0 <= t < 86_400_000_000

  /** The time Carbon's endOfDay() / endOfMonth() set: 23:59:59.999999. */
  const EndOfDay: TimeOfDay := 86_399_999_999

  /** A point in time, as a Carbon instance holds it (time zones left out). */
  datatype Moment = Moment(date: CalDate, time: TimeOfDay)

  predicate DateLe(a: Date, b: Date) {
    a.year < b.year || (a.year == b.year && (a.month < b.month || (a.month == b.month && a.day <= b.day)))
  }

  /** Carbon's lte(): chronological order of instants. */
  predicate MomentLe(a: Moment, b: Moment) {
    DateLe(a.date, b.date) && (a.date == b.date ==> a.time <= b.time)
  }

  /** Months counted from January of year 0: consecutive calendar months get consecutive numbers. */
  function MonthIndex(d: Date): int {
    d.year * 12 + (d.month - 1)
  }

  /** The first day of the month numbered `k`. */
  function MonthStart(k: int): (d: CalDate)
    ensures MonthIndex(d) == k && d.day == 1
  {
    Date(k / 12, k % 12 + 1, 1)
  }

  /** The last day of the month numbered `k`. */
  function MonthEnd(k: int): (d: CalDate)
    ensures MonthIndex(d) == k && d.day == DaysInMonth(d.year, d.month)
  {
    var s := MonthStart(k);
    Date(s.year, s.month, DaysInMonth(s.year, s.month))
  }

  /** A valid date is determined by its month number and its day. */
  lemma MonthIndexDetermines(a: CalDate, b: CalDate)
    requires MonthIndex(a) == MonthIndex(b)
    ensures a.year == b.year && a.month == b.month
  {
  }

  /** The month numbered `y * 12 + m - 1` starts on the first of month `m` of year `y`. */
  lemma MonthStartOf(y: int, m: int)
    requires 1 <= m <= 12
    ensures MonthStart(y * 12 + m - 1) == Date(y, m, 1)
  {
    MonthIndexDetermines(MonthStart(y * 12 + m - 1), Date(y, m, 1));
  }

  /** On valid dates, chronological order refines the order of month numbers. */
  lemma DateLeMonthIndex(a: CalDate, b: CalDate)
    ensures DateLe(a, b) ==> MonthIndex(a) <= MonthIndex(b)
    ensures MonthIndex(a) < MonthIndex(b) ==> DateLe(a, b) && a != b
  {
  }

  lemma FirstOfMonthLe(k: int, d: CalDate)
    ensures DateLe(MonthStart(k), d) <==> k <= MonthIndex(d)
  {
    var s := MonthStart(k);
    DateLeMonthIndex(s, d);
    DateLeMonthIndex(d, s);
    if k == MonthIndex(d) {
      MonthIndexDetermines(s, d);
    }
  }

  lemma LastOfMonthGe(k: int, d: CalDate)
    ensures DateLe(d, MonthEnd(k)) <==> MonthIndex(d) <= k
  {
    var e := MonthEnd(k);
    DateLeMonthIndex(e, d);
    DateLeMonthIndex(d, e);
    if k == MonthIndex(d) {
      MonthIndexDetermines(e, d);
    }
  }

  /** Carbon's startOfMonth(): midnight of the first day of the month. */
  function StartOfMonth(m: Moment): Moment {
    Moment(MonthStart(MonthIndex(m.date)), 0)
  }

  /** Carbon's endOfMonth(): 23:59:59.999999 on the last day of the month. */
  function EndOfMonth(m: Moment): Moment {
    Moment(MonthEnd(MonthIndex(m.date)), EndOfDay)
  }

  /** Carbon's startOfYear(). */
  function StartOfYear(m: Moment): Moment {
    Moment(Date(m.date.year, 1, 1), 0)
  }

  /** Carbon's endOfYear(). */
  function EndOfYear(m: Moment): Moment {
    Moment(Date(m.date.year, 12, 31), EndOfDay)
  }

  /**
   * Carbon's addMonths(n) under its default month overflow: the day of
   * the month is kept, and a day the target month does not have spills
   * over into the following month (31 January + 1 month is 3 March).
   */
  function AddMonthsOverflow(d: CalDate, n: int): (r: CalDate)
    ensures MonthIndex(r) == MonthIndex(d) + n || (MonthIndex(r) == MonthIndex(d) + n + 1 && r.day <= 3)
    ensures d.day <= 28 ==> MonthIndex(r) == MonthIndex(d) + n && r.day == d.day
    ensures var t := MonthStart(MonthIndex(d) + n); var len := DaysInMonth(t.year, t.month);
      && (d.day <= len ==> MonthIndex(r) == MonthIndex(d) + n && r.day == d.day)
      && (d.day > len ==> MonthIndex(r) == MonthIndex(d) + n + 1 && r.day == d.day - len)
  {
    var t := MonthStart(MonthIndex(d) + n);
    var len := DaysInMonth(t.year, t.month);
    if d.day <= len then Date(t.year, t.month, d.day)
    else
      var u := MonthStart(MonthIndex(d) + n + 1);
      Date(u.year, u.month, d.day - len)
  }

  /**
   * Carbon's addMonthsNoOverflow(n): the day is clamped to the length of
   * the target month (31 January + 1 month is the last day of February).
   */
  function AddMonthsNoOverflow(d: CalDate, n: int): (r: CalDate)
    ensures MonthIndex(r) == MonthIndex(d) + n
    ensures r.day == if d.day <= DaysInMonth(r.year, r.month) then d.day else DaysInMonth(r.year, r.month)
  {
    var t := MonthStart(MonthIndex(d) + n);
    var len := DaysInMonth(t.year, t.month);
    Date(t.year, t.month, if d.day <= len then d.day else len)
  }
}
