/**
 * `ContributionCalculator` (stokvel/utils.py): the candidate payment periods
 * for a date range, monthly or quarterly.
 */
module ContributionCalculator
{
  import opened Common
  import opened Strings
  import opened Dates

  /** One candidate period: `month` is set for monthly periods, `quarter` for quarterly ones. */
  datatype PeriodCandidate = PeriodCandidate(
    year: int,
    month: Option<int>,
    quarter: Option<int>,
    periodStart: Date,
    periodEnd: Date,
    dueDate: Date,
    name: string)

  /** `calendar.month_name[m]`. */
  function MonthName(m: int): string
    requires 1 <= m <= 12
  {
    if m == 1 then "January" else if m == 2 then "February" else if m == 3 then "March"
    else if m == 4 then "April" else if m == 5 then "May" else if m == 6 then "June"
    else if m == 7 then "July" else if m == 8 then "August" else if m == 9 then "September"
    else if m == 10 then "October" else if m == 11 then "November" else "December"
  }

  /** Months counted from January of year 0, so consecutive months differ by one. */
  function MonthIndex(y: int, m: int): int
  {
    y * 12 + m - 1
  }

  function MonthlyCandidate(y: int, m: int, start: Date, end: Date, dueDay: int): PeriodCandidate
    requires ValidYear(y) && 1 <= m <= 12 && dueDay >= 1
  {
    PeriodCandidate(y, Some(m), None, Max(MonthStart(y, m), start), Min(MonthEnd(y, m), end),
                    DueDateForMonth(y, m, dueDay), MonthName(m) + " " + NatToString(y))
  }

  /** The candidate for the month with index `i`. */
  function MonthlyCandidateAt(i: int, start: Date, end: Date, dueDay: int): PeriodCandidate
    requires ValidYear(i / 12) && dueDay >= 1
  {
    MonthlyCandidate(i / 12, i % 12 + 1, start, end, dueDay)
  }

  lemma MonthIndexRoundTrip(y: int, m: int)
    requires 1 <= m <= 12
    ensures MonthIndex(y, m) / 12 == y && MonthIndex(y, m) % 12 + 1 == m
  {
  }

  /**
   * What the monthly generator promises: for a range that is not reversed, one
   * candidate per calendar month from the month of `start` to the month of `end`.
   */
  function MonthlyPeriods(start: Date, end: Date, dueDay: int): seq<PeriodCandidate>
    requires dueDay >= 1
  {
    if Lt(end, start) then []
    else
      var first, last := MonthIndex(start.year, start.month), MonthIndex(end.year, end.month);
      seq(last - first + 1, k requires 0 <= k < last - first + 1 => MonthlyCandidateAt(first + k, start, end, dueDay))
  }

  /**
   * `calculate_monthly_periods`: walks month by month from `start` while the
   * current day is not after `end`, keeping each month that overlaps the range,
   * clipped to it. Stepping on from December 9999 calls `date(10000, 1, 1)`,
   * which raises ValueError: a range that is not reversed and ends in that
   * month fails after its last period is built.
   */
  method CalculateMonthlyPeriods(start: Date, end: Date, dueDay: int) returns (r: Result<seq<PeriodCandidate>>)
    requires dueDay >= 1
    ensures r == if Le(start, end) && end.year == MAX_YEAR && end.month == 12
                 then Err(ValueError("year 10000 is out of range"))
                 else Ok(MonthlyPeriods(start, end, dueDay))
  {
    ghost var first, target := MonthIndex(start.year, start.month), MonthlyPeriods(start, end, dueDay);
    var periods := [];
    var current: Date := start;
    while Le(current, end)
      invariant Le(start, current)
      invariant periods == [] ==> current == start
      invariant periods != [] ==> current.day == 1 && Le(start, end)
      invariant Le(start, end) ==> |periods| == MonthIndex(current.year, current.month) - first <= |target|
      invariant periods == target[..|periods|]
      invariant Le(start, end) && end.year == MAX_YEAR && end.month == 12 ==> Le(current, end)
      decreases MonthIndex(end.year, end.month) - MonthIndex(current.year, current.month)
    {
      var year, month := current.year, current.month;
      MonthStepFits(current, start, end, dueDay);
      if Le(start, MonthEnd(year, month)) && Le(MonthStart(year, month), end) {
        periods := periods + [MonthlyCandidate(year, month, start, end, dueDay)];
      }
      if month == 12 {
        if year == MAX_YEAR {
          LeTransitive(start, current, end);
          return Err(ValueError("year 10000 is out of range"));
        }
        current := CalendarDate(year + 1, 1, 1);
      } else {
        current := CalendarDate(year, month + 1, 1);
      }
    }
    assert !(Le(start, end) && end.year == MAX_YEAR && end.month == 12);
    assert periods == target;
    r := Ok(periods);
  }

  /**
   * The month being walked overlaps the range, and its candidate is the next one
   * the specification lists.
   */
  lemma MonthStepFits(current: Date, start: Date, end: Date, dueDay: int)
    requires dueDay >= 1
    requires Le(start, current) && Le(current, end)
    ensures Le(start, MonthEnd(current.year, current.month))
    ensures Le(MonthStart(current.year, current.month), end)
    ensures var n := MonthIndex(current.year, current.month) - MonthIndex(start.year, start.month);
      0 <= n < |MonthlyPeriods(start, end, dueDay)|
      && MonthlyPeriods(start, end, dueDay)[n] == MonthlyCandidate(current.year, current.month, start, end, dueDay)
  {
    MonthBounds(current);
    LeTransitive(start, current, MonthEnd(current.year, current.month));
    LeTransitive(MonthStart(current.year, current.month), current, end);
    LeTransitive(start, current, end);
    MonthlyPeriodsAt(current.year, current.month, start, end, dueDay);
  }

  /** The specified candidate for a month of the range sits at that month's offset. */
  lemma MonthlyPeriodsAt(y: int, m: int, start: Date, end: Date, dueDay: int)
    requires ValidYear(y) && 1 <= m <= 12 && dueDay >= 1 && Le(start, end)
    requires MonthIndex(start.year, start.month) <= MonthIndex(y, m) <= MonthIndex(end.year, end.month)
    ensures var n := MonthIndex(y, m) - MonthIndex(start.year, start.month);
      0 <= n < |MonthlyPeriods(start, end, dueDay)|
      && MonthlyPeriods(start, end, dueDay)[n] == MonthlyCandidate(y, m, start, end, dueDay)
  {
    MonthIndexRoundTrip(y, m);
    var i := MonthIndex(y, m);
    assert MonthlyPeriods(start, end, dueDay)[i - MonthIndex(start.year, start.month)] == MonthlyCandidateAt(i, start, end, dueDay);
  }

  predicate MonthlyEntryFits(p: PeriodCandidate, start: Date, end: Date, dueDay: int)
    requires dueDay >= 1
  {
    p.month.Some? && p.quarter.None? && 1 <= p.month.value <= 12 && ValidYear(p.year)
    && Le(start, p.periodStart) && Le(p.periodStart, p.periodEnd) && Le(p.periodEnd, end)
    && p.periodStart.year == p.year && p.periodStart.month == p.month.value
    && p.periodEnd.year == p.year && p.periodEnd.month == p.month.value
    && p.dueDate == DueDateForMonth(p.year, p.month.value, dueDay)
  }

  lemma MonthlyCandidateFits(i: int, start: Date, end: Date, dueDay: int)
    requires dueDay >= 1 && Le(start, end)
    requires MonthIndex(start.year, start.month) <= i <= MonthIndex(end.year, end.month)
    ensures ValidYear(i / 12)
    ensures MonthlyEntryFits(MonthlyCandidateAt(i, start, end, dueDay), start, end, dueDay)
    ensures MonthIndex(MonthlyCandidateAt(i, start, end, dueDay).year,
                       MonthlyCandidateAt(i, start, end, dueDay).month.value) == i
  {
    var y, m := i / 12, i % 12 + 1;
    var first, last := MonthStart(y, m), MonthEnd(y, m);
    assert Le(first, end) by {
      assert first.day == 1;
    }
    assert Le(start, last);
    assert Le(first, last);
  }

  /**
   * Over a non-empty range the monthly generator yields exactly one candidate per
   * calendar month from the month of `start` to the month of `end`, in order; each
   * is clipped to the range, lies within its own month, and is due on that month's
   * due date.
   */
  lemma MonthlyPeriodsOnePerMonth(start: Date, end: Date, dueDay: int)
    requires dueDay >= 1
    requires Le(start, end)
    ensures var ps := MonthlyPeriods(start, end, dueDay);
      |ps| == MonthIndex(end.year, end.month) - MonthIndex(start.year, start.month) + 1
      && forall k :: 0 <= k < |ps| ==>
           MonthlyEntryFits(ps[k], start, end, dueDay)
           && MonthIndex(ps[k].year, ps[k].month.value) == MonthIndex(start.year, start.month) + k
  {
    var ps := MonthlyPeriods(start, end, dueDay);
    var first := MonthIndex(start.year, start.month);
    forall k | 0 <= k < |ps|
      ensures MonthlyEntryFits(ps[k], start, end, dueDay) && MonthIndex(ps[k].year, ps[k].month.value) == first + k
    {
      MonthlyCandidateFits(first + k, start, end, dueDay);
    }
  }

  /** Quarters counted from the first quarter of year 0. */
  function QuarterIndex(d: Date): int
  {
    d.year * 4 + (d.month - 1) / 3
  }

  function QuarterlyCandidate(y: int, q: int, start: Date, end: Date): PeriodCandidate
    requires ValidYear(y) && 1 <= q <= 4
  {
    var bounds := QuarterDates(y, q).value;
    PeriodCandidate(y, None, Some(q), Max(bounds.0, start), Min(bounds.1, end), bounds.1,
                    "Q" + NatToString(q) + " " + NatToString(y))
  }

  function QuarterlyCandidateAt(i: int, start: Date, end: Date): PeriodCandidate
    requires ValidYear(i / 4)
  {
    QuarterlyCandidate(i / 4, i % 4 + 1, start, end)
  }

  /** The quarter shares at least one day with the range, as the generator tests it. */
  predicate QuarterTouches(y: int, q: int, start: Date, end: Date)
    requires ValidYear(y) && 1 <= q <= 4
  {
    var bounds := QuarterDates(y, q).value;
    Le(start, bounds.1) && Le(bounds.0, end)
  }

  /**
   * A quarter passes the generator's test exactly when its index lies between the
   * quarter of `start` and the quarter of `end`.
   */
  lemma QuarterTouchesIffBetween(y: int, q: int, start: Date, end: Date)
    requires ValidYear(y) && 1 <= q <= 4
    ensures QuarterTouches(y, q, start, end) <==> QuarterIndex(start) <= y * 4 + q - 1 <= QuarterIndex(end)
  {
  }

  /**
   * What the quarterly generator promises: the candidate of every quarter from the
   * quarter of `start` to the quarter of `end`, in order.
   */
  function QuarterlyPeriods(start: Date, end: Date): seq<PeriodCandidate>
  {
    var first, last := QuarterIndex(start), QuarterIndex(end);
    if last < first then []
    else seq(last - first + 1, k requires 0 <= k < last - first + 1 => QuarterlyCandidateAt(first + k, start, end))
  }

  /**
   * `calculate_quarterly_periods`: for each year of the range and each quarter,
   * keeps the quarters that touch the range, clipped to it; the due date is the
   * quarter's own last day, not clipped.
   */
  method CalculateQuarterlyPeriods(start: Date, end: Date) returns (periods: seq<PeriodCandidate>)
    ensures periods == QuarterlyPeriods(start, end)
  {
    ghost var target := QuarterlyPeriods(start, end);
    periods := [];
    var year := start.year;
    while year <= end.year
      invariant start.year <= year
      invariant |periods| == QuartersBefore(year * 4, start, end)
      invariant periods == target[..|periods|]
      decreases end.year - year
    {
      for quarter := 1 to 5
        invariant |periods| == QuartersBefore(year * 4 + quarter - 1, start, end)
        invariant periods == target[..|periods|]
      {
        var bounds := QuarterDates(year, quarter);
        var quarterStart, quarterEnd := bounds.value.0, bounds.value.1;
        QuarterStep(year, quarter, start, end);
        if Le(start, quarterEnd) && Le(quarterStart, end) {
          periods := periods + [QuarterlyCandidate(year, quarter, start, end)];
        }
      }
      year := year + 1;
    }
  }

  /** How many of the specified candidates come from quarters with index below `i`. */
  function QuartersBefore(i: int, start: Date, end: Date): nat
  {
    var first, last := QuarterIndex(start), QuarterIndex(end);
    if last < first || i <= first then 0 else if i > last + 1 then last + 1 - first else i - first
  }

  /** One step of the quarterly walk: a quarter is kept exactly when it is the next one specified. */
  lemma QuarterStep(y: int, q: int, start: Date, end: Date)
    requires ValidYear(y) && 1 <= q <= 4
    ensures var i, n := y * 4 + q - 1, QuartersBefore(y * 4 + q - 1, start, end);
      && (QuarterTouches(y, q, start, end) ==>
            n < |QuarterlyPeriods(start, end)| && QuarterlyPeriods(start, end)[n] == QuarterlyCandidate(y, q, start, end))
      && QuartersBefore(i + 1, start, end) == n + (if QuarterTouches(y, q, start, end) then 1 else 0)
      && QuartersBefore(i + 1, start, end) <= |QuarterlyPeriods(start, end)|
  {
    QuarterTouchesIffBetween(y, q, start, end);
    if QuarterTouches(y, q, start, end) {
      QuarterlyPeriodsAt(y, q, start, end);
    }
  }

  /** The specified candidate for a quarter of the range sits at that quarter's offset. */
  lemma QuarterlyPeriodsAt(y: int, q: int, start: Date, end: Date)
    requires ValidYear(y) && 1 <= q <= 4
    requires QuarterIndex(start) <= y * 4 + q - 1 <= QuarterIndex(end)
    ensures var n := y * 4 + q - 1 - QuarterIndex(start);
      n < |QuarterlyPeriods(start, end)| && QuarterlyPeriods(start, end)[n] == QuarterlyCandidate(y, q, start, end)
  {
    QuarterIndexRoundTrip(y, q);
    var i := y * 4 + q - 1;
    assert QuarterlyPeriods(start, end)[i - QuarterIndex(start)] == QuarterlyCandidateAt(i, start, end);
  }

  lemma QuarterIndexRoundTrip(y: int, q: int)
    requires 1 <= q <= 4
    ensures (y * 4 + q - 1) / 4 == y && (y * 4 + q - 1) % 4 + 1 == q
  {
  }

  predicate QuarterlyEntryFits(p: PeriodCandidate, start: Date, end: Date)
  {
    p.quarter.Some? && p.month.None? && 1 <= p.quarter.value <= 4 && ValidYear(p.year)
    && QuarterTouches(p.year, p.quarter.value, start, end)
    && Le(p.periodStart, p.periodEnd)
    && Le(start, p.periodStart) && Le(p.periodEnd, end)
    && p.dueDate == MonthEnd(p.year, 3 * p.quarter.value)
  }

  lemma QuarterlyCandidateFits(y: int, q: int, start: Date, end: Date)
    requires ValidYear(y) && 1 <= q <= 4 && Le(start, end) && QuarterTouches(y, q, start, end)
    ensures QuarterlyEntryFits(QuarterlyCandidate(y, q, start, end), start, end)
  {
    var bounds := QuarterDates(y, q).value;
    assert Le(bounds.0, bounds.1);
  }

  /**
   * Over a non-empty range every quarterly candidate belongs to a quarter that
   * touches the range, lies inside the range, and is due on the quarter's last day;
   * and no touching quarter is missed.
   */
  lemma QuarterlyPeriodsFit(start: Date, end: Date)
    requires Le(start, end)
    ensures forall p :: p in QuarterlyPeriods(start, end) ==> QuarterlyEntryFits(p, start, end)
    ensures forall y, q :: start.year <= y <= end.year && 1 <= q <= 4 && QuarterTouches(y, q, start, end)
                           ==> QuarterlyCandidate(y, q, start, end) in QuarterlyPeriods(start, end)
  {
    var ps := QuarterlyPeriods(start, end);
    var first := QuarterIndex(start);
    forall p | p in ps
      ensures QuarterlyEntryFits(p, start, end)
    {
      var k :| 0 <= k < |ps| && ps[k] == p;
      var y, q := (first + k) / 4, (first + k) % 4 + 1;
      assert start.year <= y <= end.year;
      assert p == QuarterlyCandidate(y, q, start, end);
      QuarterTouchesIffBetween(y, q, start, end);
      QuarterlyCandidateFits(y, q, start, end);
    }
    forall y, q | start.year <= y <= end.year && 1 <= q <= 4 && QuarterTouches(y, q, start, end)
      ensures QuarterlyCandidate(y, q, start, end) in ps
    {
      QuarterTouchesIffBetween(y, q, start, end);
      QuarterlyPeriodsAt(y, q, start, end);
    }
  }

  /**
   * When `start` is after `end` but in the same quarter, the quarterly generator
   * still yields that quarter, with its start after its end; the monthly one yields nothing.
   */
  lemma ReversedRangeInOneQuarter()
    ensures var start: Date, end: Date := CalendarDate(2024, 2, 15), CalendarDate(2024, 2, 10);
      var ps := QuarterlyPeriods(start, end);
      |ps| == 1 && Lt(ps[0].periodEnd, ps[0].periodStart) && MonthlyPeriods(start, end, 31) == []
  {
    var start: Date, end: Date := CalendarDate(2024, 2, 15), CalendarDate(2024, 2, 10);
    var ps := QuarterlyPeriods(start, end);
    assert QuarterIndex(start) == QuarterIndex(end) == 2024 * 4;
    QuarterlyPeriodsAt(2024, 1, start, end);
    var bounds := QuarterDates(2024, 1).value;
    assert bounds.0 == CalendarDate(2024, 1, 1) && bounds.1 == CalendarDate(2024, 3, 31);
  }
}
