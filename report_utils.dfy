/**
 * The rate formulas of the stokvel reports (StokvelReportUtils in
 * stokvel/utils.py): member status shares, the collection rate of the
 * payment periods due in a date range, and the per-member and average
 * payment compliance of a year. Percentages are exact; the source rounds
 * them to two decimals for display.
 */
module StokvelReportUtils
{
  import opened Common
  import opened Dates
  import opened AccountsModels

  // ----- calculate_member_statistics -----

  /** The statuses the statistics report, in their order; rejected members count only in the total. */
  const REPORTED_STATUSES: seq<MemberStatus> := [Active, MemberPending, Probation, Suspended, Inactive, Exited]

  /** A status count and, when the stokvel has members, its share of them in percent. */
  datatype StatusShare = StatusShare(status: MemberStatus, count: nat, percentage: Option<real>)

  /** The count of each status and, when the stokvel has members, its share of them in percent. */
  function Shares(members: seq<Member>, stokvel: nat, statuses: seq<MemberStatus>): (shares: seq<StatusShare>)
    ensures |shares| == |statuses|
    ensures forall k :: 0 <= k < |statuses| ==>
      shares[k].status == statuses[k] && shares[k].count == StatusCount(members, stokvel, statuses[k])
      && shares[k].percentage == (if MemberCount(members, stokvel) > 0
                                  then Some(Rate(shares[k].count as real, MemberCount(members, stokvel) as real))
                                  else None)
  {
    if statuses == [] then []
    else
      var s := statuses[|statuses| - 1];
      var total := MemberCount(members, stokvel);
      var count := StatusCount(members, stokvel, s);
      var rest := Shares(members, stokvel, statuses[..|statuses| - 1]);
      var share := StatusShare(s, count, if total > 0 then Some(Rate(count as real, total as real)) else None);
      assert forall k :: 0 <= k < |rest| ==> (rest + [share])[k] == rest[k] && statuses[..|statuses| - 1][k] == statuses[k];
      rest + [share]
  }

  /**
   * `calculate_member_statistics` as written: the percentage loop adds keys to
   * the dictionary it is iterating over, so Python raises RuntimeError as soon
   * as the stokvel has a member; an empty stokvel gets the counts alone.
   */
  function MemberStatisticsAsWritten(members: seq<Member>, stokvel: nat): (r: Result<(nat, seq<StatusShare>)>)
    ensures r.Err? <==> MemberCount(members, stokvel) > 0
    ensures r.Err? ==> r.error == RuntimeError("dictionary changed size during iteration")
    ensures r.Ok? ==> r.value.0 == 0 && |r.value.1| == |REPORTED_STATUSES|
                      && forall k :: 0 <= k < |r.value.1| ==> r.value.1[k].count == 0 && r.value.1[k].percentage.None?
  {
    if MemberCount(members, stokvel) > 0 then Err(RuntimeError("dictionary changed size during iteration"))
    else
      var shares := Shares(members, stokvel, REPORTED_STATUSES);
      assert forall k :: 0 <= k < |shares| ==> shares[k].count <= MemberCount(members, stokvel);
      Ok((0, shares))
  }

  /** A stokvel with one active member already makes the statistics raise, where the intended report gives 100 per cent active. */
  lemma OneMemberStatisticsRaise(member: Member)
    requires member.status == Active
    ensures MemberStatisticsAsWritten([member], member.stokvel).Err?
    ensures MemberStatistics([member], member.stokvel).1[0].percentage == Some(100.0)
  {
    assert [member][..0] == [];
    assert MemberCount([member], member.stokvel) == 1;
    assert StatusCount([member], member.stokvel, Active) == 1;
    RateBounds(1.0, 1.0);
  }

  /**
   * `calculate_member_statistics` with the percentages collected as intended:
   * the total and, for each reported status, its count and share.
   */
  function MemberStatistics(members: seq<Member>, stokvel: nat): (stats: (nat, seq<StatusShare>))
    ensures stats.0 == MemberCount(members, stokvel) && |stats.1| == |REPORTED_STATUSES|
    ensures forall k :: 0 <= k < |stats.1| ==>
      stats.1[k].status == REPORTED_STATUSES[k] && stats.1[k].count == StatusCount(members, stokvel, REPORTED_STATUSES[k])
      && stats.1[k].count <= stats.0
      && (stats.1[k].percentage.Some? <==> stats.0 > 0)
      && (stats.1[k].percentage.Some? ==>
            stats.1[k].percentage.value == Rate(stats.1[k].count as real, stats.0 as real)
            && 0.0 <= stats.1[k].percentage.value <= 100.0)
  {
    var shares := Shares(members, stokvel, REPORTED_STATUSES);
    var total := MemberCount(members, stokvel);
    var stats := (total, shares);
    forall k | 0 <= k < |stats.1|
      ensures stats.1[k].status == REPORTED_STATUSES[k] && stats.1[k].count == StatusCount(members, stokvel, REPORTED_STATUSES[k])
      ensures stats.1[k].count <= stats.0
      ensures stats.1[k].percentage.Some? <==> stats.0 > 0
      ensures stats.1[k].percentage.Some? ==>
        stats.1[k].percentage.value == Rate(stats.1[k].count as real, stats.0 as real)
        && 0.0 <= stats.1[k].percentage.value <= 100.0
    {
      var count := StatusCount(members, stokvel, REPORTED_STATUSES[k]);
      assert shares[k].count == count;
      assert shares[k].percentage == if total > 0 then Some(Rate(count as real, total as real)) else None;
      RateBounds(count as real, total as real);
    }
    stats
  }

  function CountSum(shares: seq<StatusShare>): nat
  {
    if shares == [] then 0 else CountSum(shares[..|shares| - 1]) + shares[|shares| - 1].count
  }

  /** Every member of the stokvel has exactly one of the seven statuses. */
  lemma {:induction false} StatusCountsPartitionTotal(members: seq<Member>, stokvel: nat)
    ensures StatusCount(members, stokvel, Active) + StatusCount(members, stokvel, MemberPending)
          + StatusCount(members, stokvel, Probation) + StatusCount(members, stokvel, Suspended)
          + StatusCount(members, stokvel, Inactive) + StatusCount(members, stokvel, Exited)
          + StatusCount(members, stokvel, MemberRejected)
          == MemberCount(members, stokvel)
  {
    if members != [] {
      StatusCountsPartitionTotal(members[..|members| - 1], stokvel);
    }
  }

  /** The reported counts add up to the total exactly when no member of the stokvel was rejected. */
  lemma ReportedCountsCoverTotal(members: seq<Member>, stokvel: nat)
    ensures var stats := MemberStatistics(members, stokvel);
      CountSum(stats.1) + StatusCount(members, stokvel, MemberRejected) == stats.0
  {
    var shares := MemberStatistics(members, stokvel).1;
    StatusCountsPartitionTotal(members, stokvel);
    assert shares[..6] == shares;
    forall n | 1 <= n <= 6
      ensures CountSum(shares[..n]) == CountSum(shares[..n - 1]) + shares[n - 1].count
    {
      assert shares[..n][..n - 1] == shares[..n - 1];
    }
    assert CountSum(shares) == shares[0].count + shares[1].count + shares[2].count + shares[3].count + shares[4].count + shares[5].count;
  }

  // ----- calculate_contribution_statistics -----

  /** What the statistics read of a payment period: its stokvel, due date and the two totals. */
  datatype PeriodTotals = PeriodTotals(stokvel: nat, dueDate: Date, year: int, expected: real, received: real)

  /** The stokvel's periods due within [start, end], in order. */
  function PeriodsDueIn(periods: seq<PeriodTotals>, stokvel: nat, start: Date, end: Date): (r: seq<PeriodTotals>)
    ensures forall p :: p in r <==> p in periods && p.stokvel == stokvel && Le(start, p.dueDate) && Le(p.dueDate, end)
  {
    if periods == [] then []
    else
      var p := periods[|periods| - 1];
      PeriodsDueIn(periods[..|periods| - 1], stokvel, start, end)
        + (if p.stokvel == stokvel && Le(start, p.dueDate) && Le(p.dueDate, end) then [p] else [])
  }

  function TotalExpected(periods: seq<PeriodTotals>): real
  {
    if periods == [] then 0.0 else TotalExpected(periods[..|periods| - 1]) + periods[|periods| - 1].expected
  }

  function TotalReceived(periods: seq<PeriodTotals>): real
  {
    if periods == [] then 0.0 else TotalReceived(periods[..|periods| - 1]) + periods[|periods| - 1].received
  }

  /** No period has received more than expected, and none a negative amount. */
  predicate WithinExpected(periods: seq<PeriodTotals>)
  {
    forall k :: 0 <= k < |periods| ==> 0.0 <= periods[k].received <= periods[k].expected
  }

  lemma {:induction false} TotalsWithinExpected(periods: seq<PeriodTotals>)
    requires WithinExpected(periods)
    ensures 0.0 <= TotalReceived(periods) <= TotalExpected(periods)
  {
    if periods != [] {
      TotalsWithinExpected(periods[..|periods| - 1]);
    }
  }

  lemma FilterKeepsWithinExpected(periods: seq<PeriodTotals>, stokvel: nat, start: Date, end: Date)
    requires WithinExpected(periods)
    ensures WithinExpected(PeriodsDueIn(periods, stokvel, start, end))
  {
    var due := PeriodsDueIn(periods, stokvel, start, end);
    forall k | 0 <= k < |due|
      ensures 0.0 <= due[k].received <= due[k].expected
    {
      assert due[k] in due;
    }
  }

  datatype ContributionStats = ContributionStats(totalExpected: real, totalReceived: real, totalOutstanding: real, collectionRate: real, periodsCount: nat)

  /** The report's first day: the given start, else the first of the current month. */
  function RangeStart(start: Option<Date>, today: Date): (lo: Date)
    ensures start.Some? ==> lo == start.value
    ensures start.None? ==> lo.year == today.year && lo.month == today.month && lo.day == 1
  {
    if start.Some? then start.value else MonthStart(today.year, today.month)
  }

  /** The report's last day: the given end, else today. */
  function RangeEnd(end: Option<Date>, today: Date): (hi: Date)
    ensures hi == if end.Some? then end.value else today
  {
    if end.Some? then end.value else today
  }

  /**
   * `calculate_contribution_statistics`: the range defaults to the first of
   * today's month through today; the rate is received over expected in
   * percent, and 0 when nothing is expected.
   */
  function ContributionStatistics(periods: seq<PeriodTotals>, stokvel: nat, start: Option<Date>, end: Option<Date>, today: Date)
    : (s: ContributionStats)
    ensures var due := PeriodsDueIn(periods, stokvel, RangeStart(start, today), RangeEnd(end, today));
            s.totalExpected == TotalExpected(due) && s.totalReceived == TotalReceived(due) && s.periodsCount == |due|
    ensures s.totalOutstanding == s.totalExpected - s.totalReceived
    ensures s.collectionRate == Rate(s.totalReceived, s.totalExpected)
    ensures WithinExpected(periods) ==> 0.0 <= s.collectionRate <= 100.0 && s.totalOutstanding >= 0.0
  {
    var due := PeriodsDueIn(periods, stokvel, RangeStart(start, today), RangeEnd(end, today));
    var expected := TotalExpected(due);
    var received := TotalReceived(due);
    assert WithinExpected(periods) ==> 0.0 <= Rate(received, expected) <= 100.0 && received <= expected by {
      if WithinExpected(periods) {
        FilterKeepsWithinExpected(periods, stokvel, RangeStart(start, today), RangeEnd(end, today));
        TotalsWithinExpected(due);
        RateBounds(received, expected);
      }
    }
    ContributionStats(expected, received, expected - received, Rate(received, expected), |due|)
  }

  /** A period of another stokvel leaves the statistics unchanged. */
  lemma OtherStokvelPeriodIgnored(periods: seq<PeriodTotals>, p: PeriodTotals, stokvel: nat, start: Option<Date>, end: Option<Date>, today: Date)
    requires p.stokvel != stokvel
    ensures ContributionStatistics(periods + [p], stokvel, start, end, today) == ContributionStatistics(periods, stokvel, start, end, today)
  {
    var lo, hi := RangeStart(start, today), RangeEnd(end, today);
    assert (periods + [p])[..|periods|] == periods;
    assert PeriodsDueIn(periods + [p], stokvel, lo, hi) == PeriodsDueIn(periods, stokvel, lo, hi);
  }

  /** A period of the stokvel due within the range adds its amounts and one to the count. */
  lemma DuePeriodCounted(periods: seq<PeriodTotals>, p: PeriodTotals, stokvel: nat, start: Date, end: Date, today: Date)
    requires p.stokvel == stokvel && Le(start, p.dueDate) && Le(p.dueDate, end)
    ensures var before := ContributionStatistics(periods, stokvel, Some(start), Some(end), today);
            var after := ContributionStatistics(periods + [p], stokvel, Some(start), Some(end), today);
            after.totalExpected == before.totalExpected + p.expected
            && after.totalReceived == before.totalReceived + p.received
            && after.periodsCount == before.periodsCount + 1
  {
    var due := PeriodsDueIn(periods, stokvel, start, end);
    assert (periods + [p])[..|periods|] == periods;
    assert PeriodsDueIn(periods + [p], stokvel, start, end) == due + [p];
    assert (due + [p])[..|due|] == due;
  }

  // ----- get_payment_compliance_report -----

  /** What the compliance report reads of a contribution. */
  datatype ContributionRecord = ContributionRecord(member: nat, period: nat, verified: bool)

  predicate PaidFor(contributions: seq<ContributionRecord>, member: nat, period: nat)
  {
    exists c :: c in contributions && c.member == member && c.period == period && c.verified
  }

  /** The periods among `periodIds` the member has a verified contribution for. */
  function PaidPeriods(periodIds: seq<nat>, contributions: seq<ContributionRecord>, member: nat): (n: nat)
    ensures n <= |periodIds|
    ensures n == |periodIds| <==> forall k :: 0 <= k < |periodIds| ==> PaidFor(contributions, member, periodIds[k])
  {
    if periodIds == [] then 0
    else
      var rest := periodIds[..|periodIds| - 1];
      var n := PaidPeriods(rest, contributions, member) + (if PaidFor(contributions, member, periodIds[|periodIds| - 1]) then 1 else 0);
      assert forall k :: 0 <= k < |rest| ==> rest[k] == periodIds[k];
      n
  }

  /** A member's compliance: paid periods over the year's periods, in percent; 0 when the year has none. */
  function ComplianceRate(periodIds: seq<nat>, contributions: seq<ContributionRecord>, member: nat): (rate: real)
    ensures 0.0 <= rate <= 100.0
    ensures rate == 100.0 <==> |periodIds| > 0 && forall k :: 0 <= k < |periodIds| ==> PaidFor(contributions, member, periodIds[k])
  {
    var paid := PaidPeriods(periodIds, contributions, member);
    RateBounds(paid as real, |periodIds| as real);
    assert 0 < |periodIds| && paid < |periodIds| ==> Rate(paid as real, |periodIds| as real) != 100.0 by {
      if 0 < |periodIds| && paid < |periodIds| {
        assert Rate(paid as real, |periodIds| as real) * |periodIds| as real < |periodIds| as real * 100.0;
      }
    }
    Rate(paid as real, |periodIds| as real)
  }

  function RateSum(rates: seq<real>): real
  {
    if rates == [] then 0.0 else RateSum(rates[..|rates| - 1]) + rates[|rates| - 1]
  }

  lemma {:induction false} RateSumBounds(rates: seq<real>)
    requires forall k :: 0 <= k < |rates| ==> 0.0 <= rates[k] <= 100.0
    ensures 0.0 <= RateSum(rates) <= 100.0 * |rates| as real
  {
    if rates != [] {
      RateSumBounds(rates[..|rates| - 1]);
    }
  }

  lemma MeanBounds(sum: real, count: real)
    requires count > 0.0 && 0.0 <= sum <= 100.0 * count
    ensures 0.0 <= sum / count <= 100.0
  {
    var mean := sum / count;
    assert mean * count == sum;
  }

  /** The summary's average compliance: 0 for no members, else the mean, which stays within 0..100. */
  function AverageCompliance(rates: seq<real>): (avg: real)
    ensures rates == [] ==> avg == 0.0
    ensures rates != [] ==> avg * |rates| as real == RateSum(rates)
    ensures (forall k :: 0 <= k < |rates| ==> 0.0 <= rates[k] <= 100.0) ==> 0.0 <= avg <= 100.0
  {
    if rates == [] then 0.0
    else
      assert (forall k :: 0 <= k < |rates| ==> 0.0 <= rates[k] <= 100.0) ==> 0.0 <= RateSum(rates) <= 100.0 * |rates| as real by {
        if forall k :: 0 <= k < |rates| ==> 0.0 <= rates[k] <= 100.0 {
          RateSumBounds(rates);
          MeanBounds(RateSum(rates), |rates| as real);
        }
      }
      RateSum(rates) / |rates| as real
  }

  /** The keys of the stokvel's active members, in key order. */
  function ActiveMemberKeys(members: seq<Member>, stokvel: nat): (keys: seq<nat>)
    ensures |keys| == StatusCount(members, stokvel, Active)
    ensures forall k :: 0 <= k < |keys| ==> keys[k] < |members| && members[keys[k]].stokvel == stokvel && members[keys[k]].status == Active
    ensures forall i :: 0 <= i < |members| && members[i].stokvel == stokvel && members[i].status == Active ==> i in keys
  {
    if members == [] then []
    else
      var last := |members| - 1;
      var rest := ActiveMemberKeys(members[..last], stokvel);
      assert forall i :: 0 <= i < last ==> members[..last][i] == members[i];
      rest + (if members[last].stokvel == stokvel && members[last].status == Active then [last] else [])
  }

  /** The compliance rates of the stokvel's active members, one per member in key order, for the year's periods. */
  function ComplianceRates(members: seq<Member>, stokvel: nat, periodIds: seq<nat>, contributions: seq<ContributionRecord>): (rates: seq<real>)
    ensures |rates| == |ActiveMemberKeys(members, stokvel)| == StatusCount(members, stokvel, Active)
    ensures forall k :: 0 <= k < |rates| ==> rates[k] == ComplianceRate(periodIds, contributions, ActiveMemberKeys(members, stokvel)[k])
    ensures forall k :: 0 <= k < |rates| ==> 0.0 <= rates[k] <= 100.0
  {
    if members == [] then []
    else
      var last := |members| - 1;
      ComplianceRates(members[..last], stokvel, periodIds, contributions)
        + (if members[last].stokvel == stokvel && members[last].status == Active then [ComplianceRate(periodIds, contributions, last)] else [])
  }

  /**
   * `get_payment_compliance_report`'s summary: the number of active members
   * and the mean of their compliance rates over the stokvel's periods of the year.
   */
  function ComplianceSummary(members: seq<Member>, stokvel: nat, periods: seq<PeriodTotals>, year: int, contributions: seq<ContributionRecord>)
    : (summary: (nat, real))
    ensures summary.0 == StatusCount(members, stokvel, Active)
    ensures summary.1 == AverageCompliance(ComplianceRates(members, stokvel, YearPeriods(periods, stokvel, year, |periods|), contributions))
    ensures 0.0 <= summary.1 <= 100.0
    ensures summary.0 == 0 ==> summary.1 == 0.0
  {
    var ids := YearPeriods(periods, stokvel, year, |periods|);
    var rates := ComplianceRates(members, stokvel, ids, contributions);
    var avg := AverageCompliance(rates);
    assert 0.0 <= avg <= 100.0;
    (|rates|, avg)
  }

  /** Rates that are all 100 sum to 100 per rate. */
  lemma {:induction false} FullRatesSum(rates: seq<real>)
    requires forall k :: 0 <= k < |rates| ==> rates[k] == 100.0
    ensures RateSum(rates) == 100.0 * |rates| as real
  {
    if rates != [] {
      FullRatesSum(rates[..|rates| - 1]);
    }
  }

  /** A non-empty list of full rates averages 100. */
  lemma FullRatesAverage(rates: seq<real>)
    requires rates != [] && forall k :: 0 <= k < |rates| ==> rates[k] == 100.0
    ensures AverageCompliance(rates) == 100.0
  {
    FullRatesSum(rates);
    var n := |rates| as real;
    assert RateSum(rates) / n == (100.0 * n) / n == 100.0;
  }

  /** A member who paid for every listed period, of which there is one at least, has full compliance. */
  lemma FullyPaidMember(ids: seq<nat>, contributions: seq<ContributionRecord>, member: nat)
    requires |ids| > 0 && forall k :: 0 <= k < |ids| ==> PaidFor(contributions, member, ids[k])
    ensures ComplianceRate(ids, contributions, member) == 100.0
  {
  }

  /**
   * When the year has periods and every active member has a verified
   * contribution for each of them, the summary reports 100 per cent.
   */
  lemma FullPaymentGivesFullCompliance(members: seq<Member>, stokvel: nat, periods: seq<PeriodTotals>, year: int, contributions: seq<ContributionRecord>)
    requires StatusCount(members, stokvel, Active) > 0
    requires exists i :: 0 <= i < |periods| && periods[i].stokvel == stokvel && periods[i].year == year
    requires forall m, i :: 0 <= m < |members| && members[m].stokvel == stokvel && members[m].status == Active
                            && 0 <= i < |periods| && periods[i].stokvel == stokvel && periods[i].year == year
                            ==> PaidFor(contributions, m, i)
    ensures ComplianceSummary(members, stokvel, periods, year, contributions).1 == 100.0
  {
    var ids := YearPeriods(periods, stokvel, year, |periods|);
    var keys := ActiveMemberKeys(members, stokvel);
    var rates := ComplianceRates(members, stokvel, ids, contributions);
    var i :| 0 <= i < |periods| && periods[i].stokvel == stokvel && periods[i].year == year;
    assert i in ids;
    forall k | 0 <= k < |rates|
      ensures rates[k] == 100.0
    {
      var m := keys[k];
      assert members[m].stokvel == stokvel && members[m].status == Active;
      forall j | 0 <= j < |ids|
        ensures PaidFor(contributions, m, ids[j])
      {
        assert ids[j] < |periods| && periods[ids[j]].stokvel == stokvel && periods[ids[j]].year == year;
      }
      FullyPaidMember(ids, contributions, m);
    }
    FullRatesAverage(rates);
  }

  /** The keys of the stokvel's periods of the year among the first `n`, in key order. */
  function YearPeriods(periods: seq<PeriodTotals>, stokvel: nat, year: int, n: nat): (ids: seq<nat>)
    requires n <= |periods|
    ensures forall k :: 0 <= k < |ids| ==> ids[k] < n && periods[ids[k]].stokvel == stokvel && periods[ids[k]].year == year
    ensures forall i :: 0 <= i < n && periods[i].stokvel == stokvel && periods[i].year == year ==> i in ids
    ensures forall j, k :: 0 <= j < k < |ids| ==> ids[j] < ids[k]
  {
    if n == 0 then []
    else
      YearPeriods(periods, stokvel, year, n - 1)
        + (if periods[n - 1].stokvel == stokvel && periods[n - 1].year == year then [n - 1] else [])
  }
}
