/**
 * Calendar dates as Python's `datetime.date` treats them, and the date helpers
 * of `DateUtils` (stokvel/utils.py): month ends, contribution due dates,
 * quarter bounds, weekends and business-day counts.
 */
module Dates
{
  import opened Common

  const MIN_YEAR := 1
  const MAX_YEAR := 9999

  datatype CalendarDate = CalendarDate(year: int, month: int, day: int)

  predicate IsLeapYear(y: int)
  {
    y % 4 == 0 && (y % 100 != 0 || y % 400 == 0)
  }

  /** `calendar.monthrange(y, m)[1]`. */
  function DaysInMonth(y: int, m: int): (n: int)
    requires 1 <= m <= 12
    ensures 28 <= n <= 31
  {
    if m == 2 then (if IsLeapYear(y) then 29 else 28)
    else if m == 4 || m == 6 || m == 9 || m == 11 then 30
    else 31
  }

  function DaysInYear(y: int): int
  {
    if IsLeapYear(y) then 366 else 365
  }

  predicate ValidYear(y: int)
  {
    MIN_YEAR <= y <= MAX_YEAR
  }

  predicate ValidDate(d: CalendarDate)
  {
    ValidYear(d.year) && 1 <= d.month <= 12 && 1 <= d.day <= DaysInMonth(d.year, d.month)
  }

  /** A value `datetime.date` accepts: its constructor raises for anything else. */
  type Date = d: CalendarDate | ValidDate(d) witness CalendarDate(1970, 1, 1)

  /** `timezone.now()`: a date and the second within that day. */
  datatype DateTime = DateTime(date: Date, secondOfDay: nat)

  /** `a < b` on dates: year, then month, then day. */
  predicate Lt(a: Date, b: Date)
  {
    a.year < b.year || (a.year == b.year && (a.month < b.month || (a.month == b.month && a.day < b.day)))
  }

  predicate Le(a: Date, b: Date)
  {
    Lt(a, b) || a == b
  }

  /** `max(a, b)`: the first argument unless the second is later. */
  function Max(a: Date, b: Date): (r: Date)
    ensures Le(a, r) && Le(b, r) && (r == a || r == b)
  {
    if Lt(a, b) then b else a
  }

  /** `min(a, b)`: the first argument unless the second is earlier. */
  function Min(a: Date, b: Date): (r: Date)
    ensures Le(r, a) && Le(r, b) && (r == a || r == b)
  {
    if Lt(b, a) then b else a
  }

  /** The latest representable date, `date.max`. */
  const DATE_MAX: Date := CalendarDate(MAX_YEAR, 12, 31)

  lemma DateMaxIsLatest(d: Date)
    ensures Le(d, DATE_MAX)
  {
  }

  // Day numbering, as `date.toordinal()` computes it: 1 January of year 1 is day 1.

  function DaysBeforeYear(y: int): int
    requires y >= 1
  {
    var p := y - 1;
    p * 365 + p / 4 - p / 100 + p / 400
  }

  function DaysBeforeMonth(y: int, m: int): int
    requires 1 <= m <= 12
  {
    var common :=
      if m == 1 then 0 else if m == 2 then 31 else if m == 3 then 59
      else if m == 4 then 90 else if m == 5 then 120 else if m == 6 then 151
      else if m == 7 then 181 else if m == 8 then 212 else if m == 9 then 243
      else if m == 10 then 273 else if m == 11 then 304 else 334;
    common + (if m > 2 && IsLeapYear(y) then 1 else 0)
  }

  function Ordinal(d: Date): int
  {
    DaysBeforeYear(d.year) + DaysBeforeMonth(d.year, d.month) + d.day
  }

  /** `(b - a).days`. */
  function DaysBetween(a: Date, b: Date): int
  {
    Ordinal(b) - Ordinal(a)
  }

  /** Weekday of a day number, Monday = 0 ... Sunday = 6, as `date.weekday()`. */
  function WeekdayOfOrdinal(n: int): (w: int)
    ensures 0 <= w < 7
  {
    (n + 6) % 7
  }

  function Weekday(d: Date): (w: int)
    ensures 0 <= w < 7
  {
    WeekdayOfOrdinal(Ordinal(d))
  }

  lemma YearStep(y: int)
    requires y >= 1
    ensures DaysBeforeYear(y + 1) == DaysBeforeYear(y) + DaysInYear(y)
  {
    var p := y - 1;
    DivideStep4(p);
    DivideStep100(p);
    DivideStep400(p);
    CenturiesAreLeapCandidates(y);
    var a4, a100, a400 :=
      (if y % 4 == 0 then 1 else 0), (if y % 100 == 0 then 1 else 0), (if y % 400 == 0 then 1 else 0);
    assert DaysInYear(y) == 365 + a4 - a100 + a400;
    assert DaysBeforeYear(y + 1) == y * 365 + y / 4 - y / 100 + y / 400;
    assert DaysBeforeYear(y) == p * 365 + p / 4 - p / 100 + p / 400;
  }

  lemma CenturiesAreLeapCandidates(y: int)
    ensures y % 100 == 0 ==> y % 4 == 0
    ensures y % 400 == 0 ==> y % 100 == 0
  {
  }

  lemma DivideStep4(p: int)
    requires p >= 0
    ensures (p + 1) / 4 == p / 4 + (if (p + 1) % 4 == 0 then 1 else 0)
  {
  }

  lemma DivideStep100(p: int)
    requires p >= 0
    ensures (p + 1) / 100 == p / 100 + (if (p + 1) % 100 == 0 then 1 else 0)
  {
  }

  lemma DivideStep400(p: int)
    requires p >= 0
    ensures (p + 1) / 400 == p / 400 + (if (p + 1) % 400 == 0 then 1 else 0)
  {
  }

  lemma {:induction false} YearsIncrease(y1: int, y2: int)
    requires 1 <= y1 < y2
    ensures DaysBeforeYear(y1) + DaysInYear(y1) <= DaysBeforeYear(y2)
    decreases y2 - y1
  {
    YearStep(y1);
    if y1 + 1 < y2 {
      YearsIncrease(y1 + 1, y2);
      YearStep(y1 + 1);
    }
  }

  lemma MonthsIncrease(y: int, m1: int, m2: int)
    requires 1 <= m1 < m2 <= 12
    ensures DaysBeforeMonth(y, m1) + DaysInMonth(y, m1) <= DaysBeforeMonth(y, m2)
  {
  }

  lemma MonthsFitInYear(y: int, m: int)
    requires 1 <= m <= 12
    ensures DaysBeforeMonth(y, m) + DaysInMonth(y, m) <= DaysInYear(y)
  {
  }

  /** Comparing dates field by field agrees with comparing their day numbers. */
  lemma OrdinalOrder(a: Date, b: Date)
    ensures Lt(a, b) <==> Ordinal(a) < Ordinal(b)
    ensures Le(a, b) <==> Ordinal(a) <= Ordinal(b)
    ensures a == b <==> Ordinal(a) == Ordinal(b)
  {
    if Lt(a, b) {
      OrdinalStrictlyIncreasing(a, b);
    } else if Lt(b, a) {
      OrdinalStrictlyIncreasing(b, a);
    } else {
      assert a == b;
    }
  }

  lemma OrdinalStrictlyIncreasing(a: Date, b: Date)
    requires Lt(a, b)
    ensures Ordinal(a) < Ordinal(b)
  {
    if a.year < b.year {
      MonthsFitInYear(a.year, a.month);
      YearsIncrease(a.year, b.year);
    } else if a.month < b.month {
      MonthsIncrease(a.year, a.month, b.month);
    }
  }

  lemma LeTransitive(a: Date, b: Date, c: Date)
    requires Le(a, b) && Le(b, c)
    ensures Le(a, c)
  {
  }

  /** `DateUtils.get_month_end_date`: the last day of the month. */
  function MonthEnd(y: int, m: int): (d: Date)
    requires ValidYear(y) && 1 <= m <= 12
    ensures d.year == y && d.month == m
  {
    CalendarDate(y, m, DaysInMonth(y, m))
  }

  /** The first day of the month. */
  function MonthStart(y: int, m: int): (d: Date)
    requires ValidYear(y) && 1 <= m <= 12
    ensures d.year == y && d.month == m
  {
    CalendarDate(y, m, 1)
  }

  /** Every day of a month lies between its first day and the day `get_month_end_date` returns. */
  lemma MonthBounds(e: Date)
    ensures Le(MonthStart(e.year, e.month), e) && Le(e, MonthEnd(e.year, e.month))
    ensures e == MonthEnd(e.year, e.month) <==> e.day == DaysInMonth(e.year, e.month)
  {
  }

  /**
   * `DateUtils.get_due_date_for_month`: the due day of the month, or the month's
   * last day when the month is shorter (`date()` raises for a due day below 1).
   */
  function DueDateForMonth(y: int, m: int, dueDay: int): (d: Date)
    requires ValidYear(y) && 1 <= m <= 12 && dueDay >= 1
    ensures d.year == y && d.month == m
    ensures dueDay >= DaysInMonth(y, m) ==> d == MonthEnd(y, m)
    ensures dueDay < DaysInMonth(y, m) ==> d.day == dueDay
  {
    if dueDay == 31 then MonthEnd(y, m)
    else
      var lastDay := DaysInMonth(y, m);
      CalendarDate(y, m, if dueDay < lastDay then dueDay else lastDay)
  }

  /** `DateUtils.get_quarter_dates`: the first and last day of a calendar quarter. */
  function QuarterDates(y: int, q: int): (r: Result<(Date, Date)>)
    requires ValidYear(y)
    ensures r.Ok? <==> 1 <= q <= 4
    ensures r.Ok? ==> r.value.0 == MonthStart(y, 3 * q - 2) && r.value.1 == MonthEnd(y, 3 * q)
    ensures r.Err? ==> r.error == ValueError("Quarter must be 1, 2, 3, or 4")
  {
    if 1 <= q <= 4 then
      var first: Date :=
        if q == 1 then CalendarDate(y, 1, 1) else if q == 2 then CalendarDate(y, 4, 1)
        else if q == 3 then CalendarDate(y, 7, 1) else CalendarDate(y, 10, 1);
      var last: Date :=
        if q == 1 then CalendarDate(y, 3, 31) else if q == 2 then CalendarDate(y, 6, 30)
        else if q == 3 then CalendarDate(y, 9, 30) else CalendarDate(y, 12, 31);
      Ok((first, last))
    else Err(ValueError("Quarter must be 1, 2, 3, or 4"))
  }

  /** The four quarters cover the year: each month lies in quarter (month + 2) / 3. */
  lemma QuarterContainsMonth(y: int, m: int)
    requires ValidYear(y) && 1 <= m <= 12
    ensures var q := (m + 2) / 3;
      QuarterDates(y, q).Ok?
      && Le(QuarterDates(y, q).value.0, MonthStart(y, m))
      && Le(MonthEnd(y, m), QuarterDates(y, q).value.1)
  {
  }

  /** `DateUtils.is_weekend`: Saturday or Sunday. */
  predicate IsWeekend(d: Date)
  {
    Weekday(d) >= 5
  }

  /** Days numbered `lo` to `hi` inclusive that fall Monday to Friday. */
  function CountBusinessDays(lo: int, hi: int): nat
    decreases hi - lo
  {
    if lo > hi then 0
    else (if WeekdayOfOrdinal(lo) < 5 then 1 else 0) + CountBusinessDays(lo + 1, hi)
  }

  /** The day number of `date.max`. */
  const MAX_ORDINAL := 3652059

  /** What the business-day walk needs of its bounds in day numbers. */
  lemma WalkBounds(start: Date, end: Date)
    ensures Ordinal(start) <= Ordinal(end) <==> Le(start, end)
    ensures Ordinal(end) == MAX_ORDINAL <==> end == DATE_MAX
    ensures Ordinal(start) <= MAX_ORDINAL && Ordinal(end) <= MAX_ORDINAL
  {
    assert Ordinal(DATE_MAX) == MAX_ORDINAL;
    OrdinalOrder(start, end);
    OrdinalOrder(end, DATE_MAX);
    OrdinalOrder(start, DATE_MAX);
    DateMaxIsLatest(end);
    DateMaxIsLatest(start);
  }

  /**
   * `DateUtils.get_business_days_between`: steps one day at a time from `start`
   * while the day is not after `end`, counting Monday to Friday. The current day
   * is tracked by its day number, which is how `date + timedelta` advances; the
   * step past `date.max` raises OverflowError, which happens once the loop
   * reaches an `end` of 31 December 9999.
   */
  method BusinessDaysBetween(start: Date, end: Date) returns (r: Result<nat>)
    ensures r == if Le(start, end) && end == DATE_MAX then Err(OverflowError("date value out of range"))
                 else Ok(CountBusinessDays(Ordinal(start), Ordinal(end)))
  {
    var first, last := Ordinal(start), Ordinal(end);
    WalkBounds(start, end);
    var count := 0;
    var current := first;
    while current <= last
      invariant first <= current <= last + 1 || (first > last && current == first)
      invariant current <= MAX_ORDINAL
      invariant count + CountBusinessDays(current, last) == CountBusinessDays(first, last)
      decreases last - current
    {
      if WeekdayOfOrdinal(current) < 5 {
        count := count + 1;
      }
      if current == MAX_ORDINAL {
        return Err(OverflowError("date value out of range"));
      }
      current := current + 1;
    }
    r := Ok(count);
  }

  /** A single day counts as a business day exactly when it is not a weekend day. */
  lemma BusinessDaysOfOneDay(d: Date)
    ensures CountBusinessDays(Ordinal(d), Ordinal(d)) == if IsWeekend(d) then 0 else 1
  {
    assert CountBusinessDays(Ordinal(d) + 1, Ordinal(d)) == 0;
  }

  /** Never more business days than days in the range. */
  lemma {:induction false} BusinessDaysAtMostDays(lo: int, hi: int)
    ensures CountBusinessDays(lo, hi) <= if lo > hi then 0 else hi - lo + 1
    decreases hi - lo
  {
    if lo <= hi {
      BusinessDaysAtMostDays(lo + 1, hi);
    }
  }

  /** Moving `k` days on, within a week, moves the weekday on by `k`, wrapping past Sunday. */
  lemma WeekdayShift(n: int, k: int)
    requires 0 <= k < 7
    ensures var w := WeekdayOfOrdinal(n);
      WeekdayOfOrdinal(n + k) == if w + k < 7 then w + k else w + k - 7
  {
    var q, r := (n + 6) / 7, (n + 6) % 7;
    assert n + 6 + k == 7 * q + (r + k);
    if r + k < 7 {
      assert (n + 6 + k) % 7 == r + k;
    } else {
      assert n + 6 + k == 7 * (q + 1) + (r + k - 7);
    }
  }

  /** Any seven consecutive days hold exactly five business days. */
  lemma FullWeekHasFiveBusinessDays(n: int)
    ensures CountBusinessDays(n, n + 6) == 5
  {
    WeekdayShift(n, 1);
    WeekdayShift(n, 2);
    WeekdayShift(n, 3);
    WeekdayShift(n, 4);
    WeekdayShift(n, 5);
    WeekdayShift(n, 6);
    assert CountBusinessDays(n + 7, n + 6) == 0;
    assert CountBusinessDays(n + 6, n + 6) == (if WeekdayOfOrdinal(n + 6) < 5 then 1 else 0);
    assert CountBusinessDays(n + 5, n + 6) == (if WeekdayOfOrdinal(n + 5) < 5 then 1 else 0) + CountBusinessDays(n + 6, n + 6);
    assert CountBusinessDays(n + 4, n + 6) == (if WeekdayOfOrdinal(n + 4) < 5 then 1 else 0) + CountBusinessDays(n + 5, n + 6);
    assert CountBusinessDays(n + 3, n + 6) == (if WeekdayOfOrdinal(n + 3) < 5 then 1 else 0) + CountBusinessDays(n + 4, n + 6);
    assert CountBusinessDays(n + 2, n + 6) == (if WeekdayOfOrdinal(n + 2) < 5 then 1 else 0) + CountBusinessDays(n + 3, n + 6);
    assert CountBusinessDays(n + 1, n + 6) == (if WeekdayOfOrdinal(n + 1) < 5 then 1 else 0) + CountBusinessDays(n + 2, n + 6);
  }

  /** 1 January 2024 was a Monday. */
  lemma NewYear2024IsMonday()
    ensures Weekday(CalendarDate(2024, 1, 1)) == 0
  {
  }
}
