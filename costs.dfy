/**
 * The cost report: resolving a named period to a date range, the labour
 * and part totals, the month-by-month series for the chart, and the five
 * most expensive services. Services and their items are the in-memory
 * rows the SQL queries would read; sums treat NULL as 0, as SQL's SUM
 * (which skips NULL) followed by the `?? 0` defaults does.
 */
module Costs {
  import opened Wrappers
  import opened Calendar
  import opened Ranking

  /** A `decimal(10,2)` column value, in cents. */
  type Money = c: int | -9_999_999_999 <= c <= 9_999_999_999

  datatype Vehicle = Vehicle(id: int, plateNo: string, brand: string, model: string)

  datatype ServiceItem = ServiceItem(partCost: Option<Money>, completed: bool)

  /** A service visit with the items that belong to it (the service_items rows joined on service_id). */
  datatype Service = Service(id: int, serviceDate: CalDate, laborCost: Option<Money>, vehicle: Vehicle, items: seq<ServiceItem>)

  /** The `[$startDate, $endDate]` pair handed to every query. */
  datatype Period = Period(start: Moment, end: Moment)

  // ---------------------------------------------------------------------
  // Period resolution (the switch at the top of index)
  // ---------------------------------------------------------------------

  /** The `period` query parameter, `current_month` when absent. */
  function PeriodToken(query: Option<string>): (t: string)
    ensures query.Some? ==> t == query.value
    ensures query.None? ==> t == "current_month"
  {
    query.GetOr("current_month")
  }

  /** `subMonths(n)` on an instant: the time of day is kept. */
  function SubMonths(m: Moment, n: nat, overflow: bool): Moment {
    Moment(if overflow then AddMonthsOverflow(m.date, -(n as int)) else AddMonthsNoOverflow(m.date, -(n as int)), m.time)
  }

  /**
   * The period switch, with the month subtraction either overflowing
   * (Carbon's default, what the controller gets) or clamping.
   * `startParam` / `endParam` are the already parsed `start_date` /
   * `end_date` parameters, `None` when the parameter is not filled.
   * `None` as the result: no case matched and both dates stay null.
   */
  function ResolveWith(token: string, now: Moment, startParam: Option<Moment>, endParam: Option<Moment>, overflow: bool): Option<Period> {
    if token == "current_month" then Some(Period(StartOfMonth(now), EndOfMonth(now)))
    else if token == "last_month" then
      Some(Period(StartOfMonth(SubMonths(now, 1, overflow)), EndOfMonth(SubMonths(now, 1, overflow))))
    else if token == "last_3_months" then Some(Period(StartOfMonth(SubMonths(now, 3, overflow)), EndOfMonth(now)))
    else if token == "last_6_months" then Some(Period(StartOfMonth(SubMonths(now, 6, overflow)), EndOfMonth(now)))
    else if token == "current_year" then Some(Period(StartOfYear(now), EndOfYear(now)))
    else if token == "custom" then Some(Period(startParam.GetOr(SubMonths(now, 1, overflow)), endParam.GetOr(now)))
    else None
  }

  /** The controller's period switch as written: Carbon's subMonth() overflows into the next month. */
  function ResolvePeriod(token: string, now: Moment, startParam: Option<Moment>, endParam: Option<Moment>): Option<Period> {
    ResolveWith(token, now, startParam, endParam, true)
  }

  /** The period switch as evidently intended: one month back is the previous calendar month. */
  function ResolvePeriodIntended(token: string, now: Moment, startParam: Option<Moment>, endParam: Option<Moment>): Option<Period> {
    ResolveWith(token, now, startParam, endParam, false)
  }

  predicate IsKnownToken(token: string) {
    token in {"current_month", "last_month", "last_3_months", "last_6_months", "current_year", "custom"}
  }

  /** A token no case matches leaves both dates null; every listed token yields a period. */
  lemma UnknownTokenHasNoPeriod(token: string, now: Moment, startParam: Option<Moment>, endParam: Option<Moment>)
    ensures ResolvePeriod(token, now, startParam, endParam).None? <==> !IsKnownToken(token)
    ensures ResolvePeriodIntended(token, now, startParam, endParam).None? <==> !IsKnownToken(token)
  {
  }

  /** The instant as a query binding: Laravel formats dates as `Y-m-d H:i:s`, dropping microseconds. */
  function Binding(m: Moment): Moment {
    Moment(m.date, m.time / 1_000_000 * 1_000_000)
  }

  /**
   * `whereBetween('service_date', [start, end])`: both ends inclusive; the
   * DATE column compares as midnight of its day.
   */
  predicate InPeriod(d: CalDate, p: Period) {
    MomentLe(Binding(p.start), Moment(d, 0)) && MomentLe(Moment(d, 0), Binding(p.end))
  }

  /** A period from the start of month `lo` to the end of month `hi` holds exactly the days of those months. */
  lemma WholeMonthsPeriod(lo: int, hi: int, d: CalDate)
    ensures InPeriod(d, Period(Moment(MonthStart(lo), 0), Moment(MonthEnd(hi), EndOfDay))) <==> lo <= MonthIndex(d) <= hi
  {
    FirstOfMonthLe(lo, d);
    LastOfMonthGe(hi, d);
  }

  /** `current_month` covers exactly the days of the current calendar month. */
  lemma CurrentMonthCovers(now: Moment, startParam: Option<Moment>, endParam: Option<Moment>, d: CalDate)
    ensures ResolvePeriod("current_month", now, startParam, endParam).Some?
    ensures InPeriod(d, ResolvePeriod("current_month", now, startParam, endParam).value)
            <==> d.year == now.date.year && d.month == now.date.month
  {
    WholeMonthsPeriod(MonthIndex(now.date), MonthIndex(now.date), d);
    if MonthIndex(d) == MonthIndex(now.date) {
      MonthIndexDetermines(d, now.date);
    }
  }

  /** `current_year` covers exactly 1 January to 31 December of the current year. */
  lemma CurrentYearCovers(now: Moment, startParam: Option<Moment>, endParam: Option<Moment>, d: CalDate)
    ensures ResolvePeriod("current_year", now, startParam, endParam).Some?
    ensures InPeriod(d, ResolvePeriod("current_year", now, startParam, endParam).value) <==> d.year == now.date.year
  {
    var y := now.date.year;
    assert MonthStart(12 * y) == Date(y, 1, 1);
    assert MonthEnd(12 * y + 11) == Date(y, 12, 31);
    WholeMonthsPeriod(12 * y, 12 * y + 11, d);
  }

  /**
   * With the intended month arithmetic, `last_3_months` / `last_6_months`
   * run from the first day of the month 3 or 6 months back to the end of
   * the current month, and `last_month` is the previous calendar month.
   */
  lemma LastMonthsCover(now: Moment, startParam: Option<Moment>, endParam: Option<Moment>, d: CalDate)
    ensures var k := MonthIndex(now.date);
      && (InPeriod(d, ResolvePeriodIntended("last_month", now, startParam, endParam).value) <==> MonthIndex(d) == k - 1)
      && (InPeriod(d, ResolvePeriodIntended("last_3_months", now, startParam, endParam).value) <==> k - 3 <= MonthIndex(d) <= k)
      && (InPeriod(d, ResolvePeriodIntended("last_6_months", now, startParam, endParam).value) <==> k - 6 <= MonthIndex(d) <= k)
  {
    TokenCovers("last_month", now, startParam, endParam, d, 1, 1);
    TokenCovers("last_3_months", now, startParam, endParam, d, 3, 0);
    TokenCovers("last_6_months", now, startParam, endParam, d, 6, 0);
  }

  /** One of the three tokens: the months `back` to `upTo` before the current one. */
  lemma TokenCovers(token: string, now: Moment, startParam: Option<Moment>, endParam: Option<Moment>, d: CalDate, back: int, upTo: int)
    requires (token, back, upTo) in {("last_month", 1, 1), ("last_3_months", 3, 0), ("last_6_months", 6, 0)}
    ensures var k := MonthIndex(now.date);
      InPeriod(d, ResolvePeriodIntended(token, now, startParam, endParam).value) <==> k - back <= MonthIndex(d) <= k - upTo
  {
    var k := MonthIndex(now.date);
    WholeMonthsPeriod(k - back, k - upTo, d);
  }

  /** `custom` takes the parameters that are filled and defaults to one month ago and now. */
  lemma CustomPeriodDefaults(now: Moment, startParam: Option<Moment>, endParam: Option<Moment>)
    ensures var p := ResolvePeriod("custom", now, startParam, endParam);
      && p.Some?
      && p.value.start == (if startParam.Some? then startParam.value else Moment(AddMonthsOverflow(now.date, -1), now.time))
      && p.value.end == (if endParam.Some? then endParam.value else now)
  {
  }

  lemma OverflowOnlyAfterDay28(d: CalDate, n: int)
    requires d.day <= 28
    ensures AddMonthsOverflow(d, n) == AddMonthsNoOverflow(d, n)
  {
    MonthIndexDetermines(AddMonthsOverflow(d, n), AddMonthsNoOverflow(d, n));
  }

  /** Overflow only matters on days 29 to 31: before that the two resolvers agree. */
  lemma ResolversAgreeBeforeDay29(token: string, now: Moment, startParam: Option<Moment>, endParam: Option<Moment>)
    requires now.date.day <= 28
    ensures ResolvePeriod(token, now, startParam, endParam) == ResolvePeriodIntended(token, now, startParam, endParam)
  {
    OverflowOnlyAfterDay28(now.date, -1);
    OverflowOnlyAfterDay28(now.date, -3);
    OverflowOnlyAfterDay28(now.date, -6);
    assert SubMonths(now, 1, true) == SubMonths(now, 1, false);
    assert SubMonths(now, 3, true) == SubMonths(now, 3, false);
    assert SubMonths(now, 6, true) == SubMonths(now, 6, false);
  }

  /**
   * As written, `last_month` on 31 March 2025 is March itself: subMonth()
   * lands on "31 February", which overflows to 3 March.
   */
  lemma LastMonthOverflow(startParam: Option<Moment>, endParam: Option<Moment>)
    ensures var now := Moment(Date(2025, 3, 31), 43_200_000_000);
      ResolvePeriod("last_month", now, startParam, endParam)
      == Some(Period(Moment(Date(2025, 3, 1), 0), Moment(Date(2025, 3, 31), EndOfDay)))
  {
    var now := Moment(Date(2025, 3, 31), 43_200_000_000);
    MarchOverflow();
    assert SubMonths(now, 1, true) == Moment(Date(2025, 3, 3), 43_200_000_000);
  }

  lemma MarchOverflow()
    ensures AddMonthsOverflow(Date(2025, 3, 31), -1) == Date(2025, 3, 3)
    ensures MonthStart(MonthIndex(Date(2025, 3, 3))) == Date(2025, 3, 1)
    ensures MonthEnd(MonthIndex(Date(2025, 3, 3))) == Date(2025, 3, 31)
  {
    assert !IsLeapYear(2025);
    MarchEndMinusMonth(2025);
    MonthStartOf(2025, 3);
  }

  /** In a common year, 31 March minus one month overflows to 3 March. */
  lemma MarchEndMinusMonth(y: int)
    requires !IsLeapYear(y)
    ensures AddMonthsOverflow(Date(y, 3, 31), -1) == Date(y, 3, 3)
  {
    MonthStartOf(y, 2);
    MonthStartOf(y, 3);
  }

  // ---------------------------------------------------------------------
  // Totals (getTotals)
  // ---------------------------------------------------------------------

  /** A nullable cost as SUM and `?? 0` see it. */
  function Cost(c: Option<Money>): int {
    c.GetOr(0)
  }

  /** The services the `whereBetween` filter keeps, in their original order. */
  function InRange(ss: seq<Service>, p: Period): seq<Service> {
    if ss == [] then []
    else (if InPeriod(ss[0].serviceDate, p) then [ss[0]] else []) + InRange(ss[1..], p)
  }

  /** Sum of the part costs of a service's items. */
  function PartCosts(items: seq<ServiceItem>): int {
    if items == [] then 0 else Cost(items[0].partCost) + PartCosts(items[1..])
  }

  datatype Column = Labor | Parts

  /** What a service contributes to the labour or to the part column. */
  function Amount(s: Service, c: Column): int {
    match c
    case Labor => Cost(s.laborCost)
    case Parts => PartCosts(s.items)
  }

  function ColumnSum(ss: seq<Service>, c: Column): int {
    if ss == [] then 0 else Amount(ss[0], c) + ColumnSum(ss[1..], c)
  }

  datatype Totals = Totals(laborCosts: int, partCosts: int, totalCosts: int)

  function GetTotals(ss: seq<Service>, p: Period): (t: Totals)
    ensures t.totalCosts == t.laborCosts + t.partCosts
  {
    var r := InRange(ss, p);
    Totals(ColumnSum(r, Labor), ColumnSum(r, Parts), ColumnSum(r, Labor) + ColumnSum(r, Parts))
  }

  lemma {:induction false} ColumnSumAppend(a: seq<Service>, b: seq<Service>, c: Column)
    ensures ColumnSum(a + b, c) == ColumnSum(a, c) + ColumnSum(b, c)
  {
    if a == [] {
      assert a + b == b;
    } else {
      ColumnSumAppend(a[1..], b, c);
      assert (a + b)[1..] == a[1..] + b;
      assert (a + b)[0] == a[0];
    }
  }

  /**
   * Only services dated inside the period count: adding a service dated
   * outside it changes no total, adding one inside adds its costs.
   */
  lemma {:induction false} TotalsCountOnlyThePeriod(ss: seq<Service>, s: Service, p: Period)
    ensures var before, after := GetTotals(ss, p), GetTotals(ss + [s], p);
      if InPeriod(s.serviceDate, p) then
        after.laborCosts == before.laborCosts + Cost(s.laborCost) && after.partCosts == before.partCosts + PartCosts(s.items)
      else after == before
  {
    InRangeAppend(ss, [s], p);
    ColumnSumAppend(InRange(ss, p), InRange([s], p), Labor);
    ColumnSumAppend(InRange(ss, p), InRange([s], p), Parts);
  }

  /** The filter keeps exactly the services dated inside the period. */
  lemma {:induction false} InRangeMembers(ss: seq<Service>, p: Period)
    ensures forall s :: s in InRange(ss, p) <==> s in ss && InPeriod(s.serviceDate, p)
  {
    if ss != [] {
      InRangeMembers(ss[1..], p);
      assert ss == [ss[0]] + ss[1..];
    }
  }

  lemma InRangeCons(x: Service, rest: seq<Service>, p: Period)
    ensures InRange([x] + rest, p) == (if InPeriod(x.serviceDate, p) then [x] else []) + InRange(rest, p)
  {
    assert ([x] + rest)[0] == x;
    assert ([x] + rest)[1..] == rest;
  }

  lemma {:induction false} InRangeAppend(a: seq<Service>, b: seq<Service>, p: Period)
    ensures InRange(a + b, p) == InRange(a, p) + InRange(b, p)
  {
    if a == [] {
      assert a + b == b;
    } else {
      var x, rest := a[0], a[1..];
      var kept := if InPeriod(x.serviceDate, p) then [x] else [];
      assert a == [x] + rest;
      assert a + b == [x] + (rest + b);
      InRangeCons(x, rest + b, p);
      InRangeCons(x, rest, p);
      InRangeAppend(rest, b, p);
      assert kept + (InRange(rest, p) + InRange(b, p)) == (kept + InRange(rest, p)) + InRange(b, p);
    }
  }

  // ---------------------------------------------------------------------
  // Month-by-month series (getMonthlyCosts)
  // ---------------------------------------------------------------------

  /** A chart entry; the month label is left out, the month is given as a (year, month) pair. */
  datatype MonthBucket = MonthBucket(year: int, month: int, labor: int, parts: int, total: int)

  /** The grouped query's SUM for one (year, month) group, 0 when there is no row. */
  function MonthTotal(ss: seq<Service>, c: Column, year: int, month: int): int {
    if ss == [] then 0
    else (if ss[0].serviceDate.year == year && ss[0].serviceDate.month == month then Amount(ss[0], c) else 0)
         + MonthTotal(ss[1..], c, year, month)
  }

  /** The number of buckets: the months from the start's month to the end's month, inclusive. */
  function MonthCount(p: Period): nat {
    var lo, hi := MonthIndex(p.start.date), MonthIndex(p.end.date);
    if lo <= hi then hi - lo + 1 else 0
  }

  /** The bucket for the month numbered `k`, from the services `r` the period keeps. */
  function BucketFor(r: seq<Service>, k: int): MonthBucket {
    var m := MonthStart(k);
    var labor, parts := MonthTotal(r, Labor, m.year, m.month), MonthTotal(r, Parts, m.year, m.month);
    MonthBucket(m.year, m.month, labor, parts, labor + parts)
  }

  function BucketAmount(b: MonthBucket, c: Column): int {
    match c
    case Labor => b.labor
    case Parts => b.parts
  }

  function BucketSum(bs: seq<MonthBucket>, c: Column): int {
    if bs == [] then 0
    else BucketSum(bs[..|bs| - 1], c) + BucketAmount(bs[|bs| - 1], c)
  }

  lemma MonthStartOrder(a: int, b: int)
    ensures MomentLe(Moment(MonthStart(a), 0), Moment(MonthStart(b), 0)) <==> a <= b
  {
    DateLeMonthIndex(MonthStart(a), MonthStart(b));
    DateLeMonthIndex(MonthStart(b), MonthStart(a));
  }

  lemma NextMonthStart(k: int)
    ensures AddMonthsOverflow(MonthStart(k), 1) == MonthStart(k + 1)
  {
    MonthIndexDetermines(AddMonthsOverflow(MonthStart(k), 1), MonthStart(k + 1));
  }

  /** The first `n` buckets of the series over the services `r`, one per month from month `lo` on. */
  function Buckets(r: seq<Service>, lo: int, n: nat): (bs: seq<MonthBucket>)
    ensures |bs| == n
  {
    if n == 0 then [] else Buckets(r, lo, n - 1) + [BucketFor(r, lo + n - 1)]
  }

  /** getMonthlyCosts: the buckets from the month of the start date to the month of the end date. */
  method GetMonthlyCosts(ss: seq<Service>, p: Period) returns (months: seq<MonthBucket>)
    ensures months == Buckets(InRange(ss, p), MonthIndex(p.start.date), MonthCount(p))
  {
    var inRange := InRange(ss, p);
    var lo := MonthIndex(p.start.date);
    ghost var hi := MonthIndex(p.end.date);
    months := [];
    var cursor := StartOfMonth(p.start);
    var endMonth := StartOfMonth(p.end);
    while MomentLe(cursor, endMonth)
      invariant cursor == Moment(MonthStart(lo + |months|), 0)
      invariant lo + |months| <= hi + 1 || months == []
      invariant months == Buckets(inRange, lo, |months|)
      decreases hi - (lo + |months|)
    {
      ghost var n := |months|;
      MonthStartOrder(lo + n, hi);
      var year, month := cursor.date.year, cursor.date.month;
      var laborTotal := MonthTotal(inRange, Labor, year, month);
      var partTotal := MonthTotal(inRange, Parts, year, month);
      var bucket := MonthBucket(year, month, laborTotal, partTotal, laborTotal + partTotal);
      CursorStep(inRange, lo, n, year, month);
      months := months + [bucket];
      cursor := Moment(AddMonthsOverflow(cursor.date, 1), cursor.time);
    }
    MonthStartOrder(lo + |months|, hi);
    CountAtExit(p, |months|);
  }

  /** One turn of the loop: the bucket for the cursor's month extends the series, and the cursor moves one month on. */
  lemma CursorStep(r: seq<Service>, lo: int, n: nat, year: int, month: int)
    requires year == MonthStart(lo + n).year && month == MonthStart(lo + n).month
    ensures var labor, parts := MonthTotal(r, Labor, year, month), MonthTotal(r, Parts, year, month);
      Buckets(r, lo, n) + [MonthBucket(year, month, labor, parts, labor + parts)] == Buckets(r, lo, n + 1)
    ensures AddMonthsOverflow(MonthStart(lo + n), 1) == MonthStart(lo + n + 1)
  {
    CursorBucket(r, lo + n, year, month);
    BucketsSnoc(r, lo, n);
    NextMonthStart(lo + n);
  }

  lemma CountAtExit(p: Period, n: nat)
    requires MonthIndex(p.start.date) + n <= MonthIndex(p.end.date) + 1 || n == 0
    requires MonthIndex(p.start.date) + n > MonthIndex(p.end.date)
    ensures n == MonthCount(p)
  {
  }

  lemma BucketsSnoc(r: seq<Service>, lo: int, n: nat)
    ensures Buckets(r, lo, n + 1) == Buckets(r, lo, n) + [BucketFor(r, lo + n)]
  {
  }

  /** The bucket the loop builds for the month under the cursor. */
  lemma CursorBucket(r: seq<Service>, k: int, year: int, month: int)
    requires year == MonthStart(k).year && month == MonthStart(k).month
    ensures var labor, parts := MonthTotal(r, Labor, year, month), MonthTotal(r, Parts, year, month);
      MonthBucket(year, month, labor, parts, labor + parts) == BucketFor(r, k)
  {
  }

  lemma BucketSumSnoc(bs: seq<MonthBucket>, x: MonthBucket, c: Column)
    ensures BucketSum(bs + [x], c) == BucketSum(bs, c) + BucketAmount(x, c)
  {
    assert (bs + [x])[..|bs|] == bs;
  }

  lemma BucketForAmount(r: seq<Service>, k: int, c: Column)
    ensures BucketAmount(BucketFor(r, k), c) == MonthTotal(r, c, MonthStart(k).year, MonthStart(k).month)
  {
  }

  lemma {:induction false} BucketsAt(r: seq<Service>, lo: int, n: nat, i: nat)
    requires i < n
    ensures Buckets(r, lo, n)[i] == BucketFor(r, lo + i)
  {
    if i < n - 1 {
      BucketsAt(r, lo, n - 1, i);
      assert Buckets(r, lo, n)[i] == Buckets(r, lo, n - 1)[i];
    }
  }

  lemma {:induction false} BucketsSum(r: seq<Service>, lo: int, n: nat, c: Column)
    ensures BucketSum(Buckets(r, lo, n), c) == SeriesSum(r, c, lo, n)
  {
    if n > 0 {
      BucketsSum(r, lo, n - 1, c);
      BucketSumSnoc(Buckets(r, lo, n - 1), BucketFor(r, lo + n - 1), c);
      BucketForAmount(r, lo + n - 1, c);
    }
  }

  /**
   * One bucket per calendar month from the month of the start date to the
   * month of the end date, inclusive, in ascending order; none when the
   * start month is after the end month. A month without services is kept,
   * with zeros. Summed over the buckets, labour and parts equal the totals.
   */
  lemma MonthlySeries(ss: seq<Service>, p: Period)
    ensures var r, lo := InRange(ss, p), MonthIndex(p.start.date);
      var months := Buckets(r, lo, MonthCount(p));
      && |months| == MonthCount(p)
      && (forall i :: 0 <= i < |months| ==> months[i] == BucketFor(r, lo + i))
      && BucketSum(months, Labor) == GetTotals(ss, p).laborCosts
      && BucketSum(months, Parts) == GetTotals(ss, p).partCosts
  {
    var r, lo := InRange(ss, p), MonthIndex(p.start.date);
    var months := Buckets(r, lo, MonthCount(p));
    forall i | 0 <= i < |months|
      ensures months[i] == BucketFor(r, lo + i)
    {
      BucketsAt(r, lo, MonthCount(p), i);
    }
    BucketsSum(r, lo, MonthCount(p), Labor);
    BucketsSum(r, lo, MonthCount(p), Parts);
    SeriesCoversPeriod(ss, p, Labor);
    SeriesCoversPeriod(ss, p, Parts);
  }

  /** The sum of the `n` monthly totals starting at month `lo`. */
  function SeriesSum(ss: seq<Service>, c: Column, lo: int, n: nat): int {
    if n == 0 then 0
    else SeriesSum(ss, c, lo, n - 1) + MonthTotal(ss, c, MonthStart(lo + n - 1).year, MonthStart(lo + n - 1).month)
  }

  lemma {:induction false} SeriesOfNothing(c: Column, lo: int, n: nat)
    ensures SeriesSum([], c, lo, n) == 0
  {
    if n > 0 {
      SeriesOfNothing(c, lo, n - 1);
    }
  }

  lemma {:induction false} SeriesSumCons(s: Service, rest: seq<Service>, c: Column, lo: int, n: nat)
    ensures SeriesSum([s] + rest, c, lo, n) == SeriesSum([s], c, lo, n) + SeriesSum(rest, c, lo, n)
  {
    if n > 0 {
      SeriesSumCons(s, rest, c, lo, n - 1);
      var m := MonthStart(lo + n - 1);
      assert ([s] + rest)[1..] == rest;
      assert ([s] + rest)[0] == s;
      assert [s][1..] == [];
      assert MonthTotal([], c, m.year, m.month) == 0;
      assert MonthTotal([s] + rest, c, m.year, m.month) == MonthTotal([s], c, m.year, m.month) + MonthTotal(rest, c, m.year, m.month);
    }
  }

  /** A single service shows up in exactly one month of a series that covers its month. */
  lemma {:induction false} SeriesSumSingle(s: Service, c: Column, lo: int, n: nat)
    ensures SeriesSum([s], c, lo, n) == if lo <= MonthIndex(s.serviceDate) < lo + n then Amount(s, c) else 0
  {
    if n > 0 {
      SeriesSumSingle(s, c, lo, n - 1);
      var m := MonthStart(lo + n - 1);
      assert [s][1..] == [];
      assert MonthTotal([], c, m.year, m.month) == 0;
      if MonthIndex(s.serviceDate) == lo + n - 1 {
        MonthIndexDetermines(s.serviceDate, m);
      }
      assert (s.serviceDate.year == m.year && s.serviceDate.month == m.month) <==> MonthIndex(s.serviceDate) == lo + n - 1;
    }
  }

  /** A series spanning the months of all services adds up to their column total. */
  lemma {:induction false} SeriesOfCovered(rs: seq<Service>, c: Column, lo: int, n: nat)
    requires forall s :: s in rs ==> lo <= MonthIndex(s.serviceDate) < lo + n
    ensures SeriesSum(rs, c, lo, n) == ColumnSum(rs, c)
  {
    if rs == [] {
      SeriesOfNothing(c, lo, n);
    } else {
      assert rs == [rs[0]] + rs[1..];
      SeriesSumCons(rs[0], rs[1..], c, lo, n);
      SeriesSumSingle(rs[0], c, lo, n);
      SeriesOfCovered(rs[1..], c, lo, n);
    }
  }

  /**
   * The months of a period enclose every service the period keeps, so the
   * series over those months adds up to the total: both use the same filter.
   */
  lemma SeriesCoversPeriod(ss: seq<Service>, p: Period, c: Column)
    ensures SeriesSum(InRange(ss, p), c, MonthIndex(p.start.date), MonthCount(p)) == ColumnSum(InRange(ss, p), c)
  {
    var r := InRange(ss, p);
    var lo := MonthIndex(p.start.date);
    InRangeMembers(ss, p);
    forall s | s in r
      ensures lo <= MonthIndex(s.serviceDate) < lo + MonthCount(p)
    {
      DateLeMonthIndex(p.start.date, s.serviceDate);
      DateLeMonthIndex(s.serviceDate, p.end.date);
    }
    SeriesOfCovered(r, c, lo, MonthCount(p));
  }

  // ---------------------------------------------------------------------
  // Top five services (getTopServices)
  // ---------------------------------------------------------------------

  /** SQL's SUM(part_cost) over a service's items: NULL when no item carries a cost. */
  function PartCostsSum(items: seq<ServiceItem>): Option<int> {
    if items == [] then None
    else
      var rest := PartCostsSum(items[1..]);
      match items[0].partCost
      case None => rest
      case Some(c) => Some(c + rest.GetOr(0))
  }

  /** Read back through `(float)`, where NULL becomes 0, the SQL sum is the sum with NULL as 0. */
  lemma {:induction false} PartCostsSumOrZero(items: seq<ServiceItem>)
    ensures PartCostsSum(items).GetOr(0) == PartCosts(items)
    ensures PartCostsSum(items).None? <==> forall i :: 0 <= i < |items| ==> items[i].partCost.None?
  {
    if items != [] {
      PartCostsSumOrZero(items[1..]);
      assert forall i :: 1 <= i < |items| ==> items[i] == items[1..][i - 1];
    }
  }

  /**
   * The ORDER BY key `labor_cost + part_costs_sum` under SQL arithmetic:
   * NULL when the labour cost is NULL or no item has a part cost.
   */
  function SqlSortKey(s: Service): Key {
    var parts := PartCostsSum(s.items);
    if s.laborCost.Some? && parts.Some? then Val(s.laborCost.value + parts.value) else Null
  }

  /** The total cost the page displays, as a sort key. */
  function TotalCostKey(s: Service): Key {
    Val(Cost(s.laborCost) + PartCosts(s.items))
  }

  /** One row of the top list, with the vehicle summary (id, plate, brand, model). */
  datatype RankedService = RankedService(id: int, serviceDate: CalDate, vehicle: Vehicle, laborCost: int, partCosts: int, totalCost: int)

  function Ranked(s: Service): RankedService {
    var labor, parts := Cost(s.laborCost), PartCostsSum(s.items).GetOr(0);
    RankedService(s.id, s.serviceDate, s.vehicle, labor, parts, labor + parts)
  }

  function RankAll(ts: seq<Service>): (r: seq<RankedService>)
    ensures |r| == |ts|
    ensures forall i :: 0 <= i < |ts| ==> r[i] == Ranked(ts[i])
  {
    if ts == [] then [] else [Ranked(ts[0])] + RankAll(ts[1..])
  }

  /** The services the query returns: in-range services ordered by `key`, descending, limited to 5. */
  function TopFive(ss: seq<Service>, p: Period, key: Service -> Key): seq<Service> {
    Take(SortDesc(InRange(ss, p), key), 5)
  }

  /** getTopServices as written: ordered by the SQL key, in which NULL sorts last. */
  function GetTopServicesAsWritten(ss: seq<Service>, p: Period): seq<RankedService> {
    RankAll(TopFive(ss, p, SqlSortKey))
  }

  /** getTopServices as evidently intended: ordered by the total cost it displays. */
  function GetTopServices(ss: seq<Service>, p: Period): seq<RankedService> {
    RankAll(TopFive(ss, p, TotalCostKey))
  }

  /**
   * Whatever the key: at most five services, all dated inside the period,
   * none twice, ordered by the key, and every in-range service left out
   * has a key no larger than that of any service listed.
   */
  lemma TopFiveIsTop(ss: seq<Service>, p: Period, key: Service -> Key)
    ensures var r, all := TopFive(ss, p, key), InRange(ss, p);
      && |r| == (if |all| < 5 then |all| else 5)
      && SortedDesc(r, key)
      && multiset(r) <= multiset(all)
      && (forall i :: 0 <= i < |r| ==> InPeriod(r[i].serviceDate, p))
      && (forall x, i :: x in multiset(all) - multiset(r) && 0 <= i < |r| ==> KeyLe(key(x), key(r[i])))
  {
    var all := InRange(ss, p);
    var r := TopFive(ss, p, key);
    TopOfSortDesc(all, 5, key);
    InRangeMembers(ss, p);
    forall i | 0 <= i < |r|
      ensures InPeriod(r[i].serviceDate, p)
    {
      assert r[i] in multiset(all);
    }
  }

  /**
   * The intended top list: at most five rows, highest displayed total
   * first, each total the sum of its labour and part costs, each row an
   * in-range service, and no in-range service left out costs more than a
   * listed one.
   */
  lemma TopServicesByTotal(ss: seq<Service>, p: Period)
    ensures var t, top := GetTopServices(ss, p), TopFive(ss, p, TotalCostKey);
      && |t| <= 5
      && (forall i :: 0 <= i < |t| ==> t[i].totalCost == t[i].laborCost + t[i].partCosts)
      && (forall i, j :: 0 <= i < j < |t| ==> t[j].totalCost <= t[i].totalCost)
      && (forall i :: 0 <= i < |t| ==> t[i] == Ranked(top[i]) && top[i] in InRange(ss, p))
      && (forall x, i :: x in multiset(InRange(ss, p)) - multiset(top) && 0 <= i < |t|
            ==> Cost(x.laborCost) + PartCosts(x.items) <= t[i].totalCost)
  {
    TopRowsAreRanked(ss, p);
    TopRowsByTotalOrdered(ss, p);
    TopRowsByTotalDominate(ss, p);
  }

  lemma TopRowsAreRanked(ss: seq<Service>, p: Period)
    ensures var t, top := GetTopServices(ss, p), TopFive(ss, p, TotalCostKey);
      && |t| == |top| <= 5
      && (forall i :: 0 <= i < |t| ==> t[i] == Ranked(top[i]) && top[i] in InRange(ss, p))
      && (forall i :: 0 <= i < |t| ==> t[i].totalCost == t[i].laborCost + t[i].partCosts)
      && (forall i :: 0 <= i < |t| ==> t[i].totalCost == Cost(top[i].laborCost) + PartCosts(top[i].items))
  {
    var t, top := GetTopServices(ss, p), TopFive(ss, p, TotalCostKey);
    TopFiveIsTop(ss, p, TotalCostKey);
    forall i | 0 <= i < |t|
      ensures t[i].totalCost == Cost(top[i].laborCost) + PartCosts(top[i].items)
    {
      RankedTotal(top[i]);
    }
    forall i | 0 <= i < |top|
      ensures top[i] in InRange(ss, p)
    {
      assert top[i] in multiset(top);
    }
  }

  /** A row's displayed total is the service's labour cost plus its part costs. */
  lemma RankedTotal(s: Service)
    ensures Ranked(s).totalCost == Cost(s.laborCost) + PartCosts(s.items)
  {
    PartCostsSumOrZero(s.items);
  }

  lemma TopRowsByTotalOrdered(ss: seq<Service>, p: Period)
    ensures var t := GetTopServices(ss, p);
      forall i, j :: 0 <= i < j < |t| ==> t[j].totalCost <= t[i].totalCost
  {
    var t, top := GetTopServices(ss, p), TopFive(ss, p, TotalCostKey);
    TopFiveIsTop(ss, p, TotalCostKey);
    forall i, j | 0 <= i < j < |t|
      ensures t[j].totalCost <= t[i].totalCost
    {
      RankedTotal(top[i]);
      RankedTotal(top[j]);
      assert KeyLe(TotalCostKey(top[j]), TotalCostKey(top[i]));
    }
  }

  lemma TopRowsByTotalDominate(ss: seq<Service>, p: Period)
    ensures var t, top := GetTopServices(ss, p), TopFive(ss, p, TotalCostKey);
      forall x, i :: x in multiset(InRange(ss, p)) - multiset(top) && 0 <= i < |t|
        ==> Cost(x.laborCost) + PartCosts(x.items) <= t[i].totalCost
  {
    var t, top := GetTopServices(ss, p), TopFive(ss, p, TotalCostKey);
    TopFiveDominates(ss, p, TotalCostKey);
    forall x, i | x in multiset(InRange(ss, p)) - multiset(top) && 0 <= i < |t|
      ensures Cost(x.laborCost) + PartCosts(x.items) <= t[i].totalCost
    {
      TotalKeyLe(x, top[i]);
    }
  }

  lemma TopFiveDominates(ss: seq<Service>, p: Period, key: Service -> Key)
    ensures var r, all := TopFive(ss, p, key), InRange(ss, p);
      forall x, i :: x in multiset(all) - multiset(r) && 0 <= i < |r| ==> KeyLe(key(x), key(r[i]))
  {
    TopFiveIsTop(ss, p, key);
  }

  /** A service whose total key is no larger than another's costs no more than that one's row shows. */
  lemma TotalKeyLe(x: Service, y: Service)
    requires KeyLe(TotalCostKey(x), TotalCostKey(y))
    ensures Cost(x.laborCost) + PartCosts(x.items) <= Ranked(y).totalCost
  {
    RankedTotal(y);
  }

  /** The top list as written is ordered by the SQL key, NULL keys last; its rows still add up. */
  lemma TopServicesAsWrittenBySqlKey(ss: seq<Service>, p: Period)
    ensures var t, top := GetTopServicesAsWritten(ss, p), TopFive(ss, p, SqlSortKey);
      && |t| <= 5
      && (forall i :: 0 <= i < |t| ==> t[i] == Ranked(top[i]) && t[i].totalCost == t[i].laborCost + t[i].partCosts)
      && (forall i, j :: 0 <= i < j < |t| ==> KeyLe(SqlSortKey(top[j]), SqlSortKey(top[i])))
  {
    TopFiveIsTop(ss, p, SqlSortKey);
  }

  /**
   * As written, a service with a NULL sort key ranks below every other one
   * whatever it costs: a 1000.00 labour-only service with no part costs is
   * listed after a service of 0.02, so the displayed totals are not in
   * descending order.
   */
  lemma NullKeyRanksLast()
    ensures var v := Vehicle(1, "34 ABC 12", "Renault", "Clio");
      var day := Date(2025, 4, 10);
      var p := Period(Moment(Date(2025, 4, 1), 0), Moment(Date(2025, 4, 30), EndOfDay));
      var laborOnly := Service(1, day, Some(100000), v, []);
      var small := Service(2, day, Some(1), v, [ServiceItem(Some(1), true)]);
      var t := GetTopServicesAsWritten([laborOnly, small], p);
      |t| == 2 && t[0].totalCost == 2 && t[1].totalCost == 100000
  {
    var v := Vehicle(1, "34 ABC 12", "Renault", "Clio");
    var day := Date(2025, 4, 10);
    var p := Period(Moment(Date(2025, 4, 1), 0), Moment(Date(2025, 4, 30), EndOfDay));
    var laborOnly := Service(1, day, Some(100000), v, []);
    var small := Service(2, day, Some(1), v, [ServiceItem(Some(1), true)]);
    assert InPeriod(day, p);
    assert [laborOnly, small][1..] == [small] && [small][1..] == [];
    assert InRange([small], p) == [small];
    assert InRange([laborOnly, small], p) == [laborOnly, small];
    assert SqlSortKey(laborOnly) == Null;
    assert PartCostsSum(small.items) == Some(1) by {
      assert small.items[1..] == [];
    }
    assert SqlSortKey(small) == Val(2);
    assert SortDesc([small], SqlSortKey) == [small];
    assert Insert(laborOnly, [small], SqlSortKey) == [small, laborOnly];
    assert SortDesc([laborOnly, small], SqlSortKey) == [small, laborOnly];
    assert PartCostsSum(laborOnly.items) == None;
  }

  // ---------------------------------------------------------------------
  // The report (index)
  // ---------------------------------------------------------------------

  datatype CostReport = CostReport(period: Period, totals: Totals, monthlyCosts: seq<MonthBucket>, topServices: seq<RankedService>)

  /** With no period, getMonthlyCosts clones a null start date and the request fails. */
  datatype ReportError = NoPeriod

  /**
   * The cost page as the controller computes it: resolve the period with
   * Carbon's overflowing month subtraction, then compute the totals, the
   * monthly series and the top list (ordered by the SQL key) over the same
   * period.
   */
  method Index(ss: seq<Service>, query: Option<string>, now: Moment, startParam: Option<Moment>, endParam: Option<Moment>)
    returns (r: Result<CostReport, ReportError>)
    ensures r.Err? <==> !IsKnownToken(PeriodToken(query))
    ensures r.Ok? ==>
      var p := r.value.period;
      && Some(p) == ResolvePeriod(PeriodToken(query), now, startParam, endParam)
      && r.value.totals == GetTotals(ss, p)
      && r.value.monthlyCosts == Buckets(InRange(ss, p), MonthIndex(p.start.date), MonthCount(p))
      && |r.value.monthlyCosts| == MonthCount(p)
      && BucketSum(r.value.monthlyCosts, Labor) == r.value.totals.laborCosts
      && BucketSum(r.value.monthlyCosts, Parts) == r.value.totals.partCosts
      && r.value.topServices == GetTopServicesAsWritten(ss, p)
  {
    var token := PeriodToken(query);
    UnknownTokenHasNoPeriod(token, now, startParam, endParam);
    var period := ResolvePeriod(token, now, startParam, endParam);
    if period.None? {
      return Err(NoPeriod);
    }
    var p := period.value;
    var totals := GetTotals(ss, p);
    var monthly := GetMonthlyCosts(ss, p);
    MonthlySeries(ss, p);
    var top := GetTopServicesAsWritten(ss, p);
    r := Ok(CostReport(p, totals, monthly, top));
  }

  /**
   * The cost page as evidently intended: one month back is the previous
   * calendar month, and the top list is ordered by the total it displays.
   */
  method IndexIntended(ss: seq<Service>, query: Option<string>, now: Moment, startParam: Option<Moment>, endParam: Option<Moment>)
    returns (r: Result<CostReport, ReportError>)
    ensures r.Err? <==> !IsKnownToken(PeriodToken(query))
    ensures r.Ok? ==>
      var p := r.value.period;
      && Some(p) == ResolvePeriodIntended(PeriodToken(query), now, startParam, endParam)
      && r.value.totals == GetTotals(ss, p)
      && r.value.monthlyCosts == Buckets(InRange(ss, p), MonthIndex(p.start.date), MonthCount(p))
      && |r.value.monthlyCosts| == MonthCount(p)
      && BucketSum(r.value.monthlyCosts, Labor) == r.value.totals.laborCosts
      && BucketSum(r.value.monthlyCosts, Parts) == r.value.totals.partCosts
      && r.value.topServices == GetTopServices(ss, p)
  {
    var token := PeriodToken(query);
    UnknownTokenHasNoPeriod(token, now, startParam, endParam);
    var period := ResolvePeriodIntended(token, now, startParam, endParam);
    if period.None? {
      return Err(NoPeriod);
    }
    var p := period.value;
    var totals := GetTotals(ss, p);
    var monthly := GetMonthlyCosts(ss, p);
    MonthlySeries(ss, p);
    var top := GetTopServices(ss, p);
    r := Ok(CostReport(p, totals, monthly, top));
  }
}
