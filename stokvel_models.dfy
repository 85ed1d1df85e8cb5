/**
 * The stokvel app's records (stokvel/models.py): the association, its
 * constitution, its contribution and penalty rules, its cycles and its bank
 * accounts, with the rules' penalty arithmetic and date validity, and the
 * bank account's "one primary account" save.
 */
module StokvelModels
{
  import opened Common
  import opened Dates
  import opened Tables
  import ContributionCalculator

  datatype Stokvel = Stokvel(
    name: string,
    description: string,
    dateEstablished: Date,
    isActive: bool,
    isAcceptingMembers: bool)

  datatype Constitution = Constitution(
    meetingFrequency: string,
    minimumAttendancePercentage: int,
    minimumMembers: int,
    maximumMembers: Option<int>,
    probationPeriodMonths: int,
    contributionStartDay: int,
    contributionDueDay: int,
    noticePeriodDays: int,
    payoutFrequency: string,
    payoutOrderMethod: string)

  /** The field defaults of a constitution; a due day of 31 means the last day of the month. */
  const DEFAULT_CONSTITUTION := Constitution("monthly", 60, 5, None, 3, 1, 31, 30, "monthly", "rotation")

  datatype ContributionType = Regular | Registration | Special | Emergency

  /** The value stored for a contribution type, as the model's choices list it. */
  function ContributionTypeName(t: ContributionType): string
  {
    match t
    case Regular => "regular"
    case Registration => "registration"
    case Special => "special"
    case Emergency => "emergency"
  }

  datatype Frequency = OnceOff | Weekly | Monthly | Quarterly | Annually

  datatype PenaltyType = LatePayment | InsufficientPayment | NoPayment | MissedMeeting | EarlyExit | BreachOfRules

  /** The value stored for a penalty type, as the model's choices list it. */
  function PenaltyTypeName(t: PenaltyType): string
  {
    match t
    case LatePayment => "late_payment"
    case InsufficientPayment => "insufficient_payment"
    case NoPayment => "no_payment"
    case MissedMeeting => "missed_meeting"
    case EarlyExit => "early_exit"
    case BreachOfRules => "breach_of_rules"
  }

  /** A method the code does not name falls into the last branch, like `Tiered`. */
  datatype CalculationMethod = Fixed | Percentage | Daily | Tiered

  /**
   * `is_active_for_date`, shared by both kinds of rule: an inactive rule never
   * applies; otherwise the rule applies from `from` up to and including `until`.
   */
  predicate ActiveOn(isActive: bool, from: Date, until: Option<Date>, d: Date)
  {
    if !isActive then false
    else if Lt(d, from) then false
    else if until.Some? && Lt(until.value, d) then false
    else true
  }

  /** The validity window of a rule is closed at both ends. */
  lemma ActiveOnIff(isActive: bool, from: Date, until: Option<Date>, d: Date)
    ensures ActiveOn(isActive, from, until, d) <==> isActive && Le(from, d) && (until.None? || Le(d, until.value))
  {
  }

  datatype ContributionRule = ContributionRule(
    stokvel: nat,
    name: string,
    contributionType: ContributionType,
    amount: Money,
    frequency: Frequency,
    effectiveFrom: Date,
    effectiveUntil: Option<Date>,
    isActive: bool,
    isMandatory: bool)
  {
    predicate IsActiveForDate(d: Date)
    {
      ActiveOn(isActive, effectiveFrom, effectiveUntil, d)
    }
  }

  datatype PenaltyRule = PenaltyRule(
    stokvel: nat,
    name: string,
    penaltyType: PenaltyType,
    calculationMethod: CalculationMethod,
    amount: Money,
    gracePeriodDays: int,
    maximumAmount: Option<Money>,
    effectiveFrom: Date,
    effectiveUntil: Option<Date>,
    isActive: bool)
  {
    predicate IsActiveForDate(d: Date)
    {
      ActiveOn(isActive, effectiveFrom, effectiveUntil, d)
    }

    /** The penalty by calculation method, before the cap. */
    function UncappedPenalty(baseAmount: Money, daysLate: int): Money
    {
      match calculationMethod
      case Fixed => amount
      case Percentage => baseAmount * (amount / 100.0)
      case Daily => amount * (daysLate - gracePeriodDays) as real
      case Tiered => amount
    }

    /**
     * `calculate_penalty`: nothing within the grace period; past it, the
     * method's amount, lowered to `maximumAmount` when that is set and non-zero.
     */
    function CalculatePenalty(baseAmount: Money, daysLate: int): (penalty: Money)
      ensures daysLate <= gracePeriodDays ==> penalty == 0.0
      ensures daysLate > gracePeriodDays && TruthyMoney(maximumAmount) ==> penalty <= maximumAmount.value
      ensures daysLate > gracePeriodDays ==>
        penalty == UncappedPenalty(baseAmount, daysLate) || (TruthyMoney(maximumAmount) && penalty == maximumAmount.value)
    {
      if daysLate <= gracePeriodDays then 0.0
      else
        var raw := UncappedPenalty(baseAmount, daysLate);
        if TruthyMoney(maximumAmount) && raw > maximumAmount.value then maximumAmount.value else raw
    }
  }

  /** Past the grace period the cap lowers the penalty exactly when it is truthy and below the method's amount. */
  lemma PenaltyCappedIff(rule: PenaltyRule, baseAmount: Money, daysLate: int)
    requires daysLate > rule.gracePeriodDays
    ensures rule.CalculatePenalty(baseAmount, daysLate) < rule.UncappedPenalty(baseAmount, daysLate)
            <==> TruthyMoney(rule.maximumAmount) && rule.UncappedPenalty(baseAmount, daysLate) > rule.maximumAmount.value
  {
  }

  /** Past the grace period and without a cap: fixed and tiered charge `amount`, percentage a share of the base, daily `amount` per day past grace. */
  lemma PenaltyByMethod(rule: PenaltyRule, baseAmount: Money, daysLate: int)
    requires daysLate > rule.gracePeriodDays && !TruthyMoney(rule.maximumAmount)
    ensures rule.calculationMethod.Fixed? || rule.calculationMethod.Tiered? ==> rule.CalculatePenalty(baseAmount, daysLate) == rule.amount
    ensures rule.calculationMethod.Percentage? ==> rule.CalculatePenalty(baseAmount, daysLate) * 100.0 == baseAmount * rule.amount
    ensures rule.calculationMethod.Daily? ==>
      rule.CalculatePenalty(baseAmount, daysLate) == rule.amount * (daysLate - rule.gracePeriodDays) as real
  {
  }

  /** A daily penalty with a non-negative rate never decreases as the payment gets later. */
  lemma DailyPenaltyNeverDecreases(rule: PenaltyRule, baseAmount: Money, earlier: int, later: int)
    requires rule.calculationMethod.Daily? && rule.amount >= 0.0
    requires rule.maximumAmount.Some? ==> rule.maximumAmount.value >= 0.0
    requires earlier <= later
    ensures rule.CalculatePenalty(baseAmount, earlier) <= rule.CalculatePenalty(baseAmount, later)
  {
    var g := rule.gracePeriodDays;
    var cap := rule.maximumAmount;
    if earlier > g {
      DailyRateMonotone(rule.amount, earlier - g, later - g);
      var px, py := rule.UncappedPenalty(baseAmount, earlier), rule.UncappedPenalty(baseAmount, later);
      assert px <= py;
      if TruthyMoney(cap) && py > cap.value {
        assert rule.CalculatePenalty(baseAmount, later) == cap.value;
      } else {
        assert rule.CalculatePenalty(baseAmount, later) == py;
      }
    } else if later > g {
      DailyRateMonotone(rule.amount, 0, later - g);
    }
  }

  /** A non-negative daily rate charges no less for more days. */
  lemma DailyRateMonotone(k: real, a: int, b: int)
    requires k >= 0.0 && a <= b
    ensures k * a as real <= k * b as real
  {
    MultiplyMonotone(k, a as real, b as real);
  }

  lemma MultiplyMonotone(k: real, x: real, y: real)
    requires k >= 0.0 && x <= y
    ensures k * x <= k * y
  {
  }

  /** With non-negative amounts and cap the penalty is never negative. */
  lemma PenaltyNonNegative(rule: PenaltyRule, baseAmount: Money, daysLate: int)
    requires rule.amount >= 0.0 && baseAmount >= 0.0
    requires rule.maximumAmount.Some? ==> rule.maximumAmount.value >= 0.0
    ensures rule.CalculatePenalty(baseAmount, daysLate) >= 0.0
  {
    if daysLate > rule.gracePeriodDays && rule.calculationMethod.Daily? {
      MultiplyMonotone(rule.amount, 0.0, (daysLate - rule.gracePeriodDays) as real);
    }
    if daysLate > rule.gracePeriodDays && rule.calculationMethod.Percentage? {
      MultiplyMonotone(baseAmount, 0.0, rule.amount / 100.0);
    }
  }

  /** A cap of zero is no cap: the truthiness test skips it. */
  lemma ZeroCapIsIgnored(from: Date)
    ensures PenaltyRule(0, "Late", LatePayment, Fixed, 50.0, 0, Some(0.0), from, None, true).CalculatePenalty(100.0, 1) == 50.0
  {
  }

  datatype CycleStatus = Planned | Active | Completed | Cancelled

  datatype StokvelCycle = StokvelCycle(
    stokvel: nat,
    name: string,
    startDate: Date,
    endDate: Date,
    expectedTotalContributions: Money,
    status: CycleStatus)
  {
    /** `is_current`, with today passed in. */
    predicate IsCurrent(today: Date)
    {
      Le(startDate, today) && Le(today, endDate)
    }

    /** `duration_months`: whole calendar months from the start month to the end month; days are ignored. */
    function DurationMonths(): (months: int)
      ensures months == ContributionCalculator.MonthIndex(endDate.year, endDate.month)
                        - ContributionCalculator.MonthIndex(startDate.year, startDate.month)
      ensures Le(startDate, endDate) ==> months >= 0
    {
      (endDate.year - startDate.year) * 12 + (endDate.month - startDate.month)
    }
  }

  /** A cycle that is not reversed spans one more calendar month than its duration counts. */
  lemma CycleMonthsMatchPeriods(cycle: StokvelCycle, dueDay: int)
    requires dueDay >= 1 && Le(cycle.startDate, cycle.endDate)
    ensures |ContributionCalculator.MonthlyPeriods(cycle.startDate, cycle.endDate, dueDay)| == cycle.DurationMonths() + 1
  {
    ContributionCalculator.MonthlyPeriodsOnePerMonth(cycle.startDate, cycle.endDate, dueDay);
  }

  datatype StokvelBankAccount = StokvelBankAccount(
    stokvel: nat,
    bankName: string,
    accountName: string,
    accountNumber: string,
    branchCode: string,
    accountType: string,
    isPrimary: bool,
    isActive: bool)

  /** `masked_account_number`: at most the last four characters stay visible. */
  function MaskedAccountNumber(number: string): (masked: string)
    ensures |number| <= 4 ==> masked == number
    ensures |number| > 4 ==> |masked| == 8 && masked[..4] == "****" && masked[4..] == number[|number| - 4..]
  {
    if |number| <= 4 then number else "****" + number[|number| - 4..]
  }

  /** Masking a masked number changes nothing. */
  lemma MaskIsIdempotent(number: string)
    ensures MaskedAccountNumber(MaskedAccountNumber(number)) == MaskedAccountNumber(number)
  {
    var m := MaskedAccountNumber(number);
    if |number| > 4 {
      assert m[|m| - 4..] == number[|number| - 4..];
    }
  }

  /** The bulk update that clears `is_primary` on the stokvel's accounts other than `keep`. */
  function ClearOtherPrimaries(rows: seq<StokvelBankAccount>, stokvel: nat, keep: int): seq<StokvelBankAccount>
  {
    seq(|rows|, i requires 0 <= i < |rows| =>
      if rows[i].stokvel == stokvel && rows[i].isPrimary && i != keep then rows[i].(isPrimary := false) else rows[i])
  }

  /** The table after `StokvelBankAccount.save`: an existing key is overwritten, otherwise the row is appended. */
  function SavedAccounts(rows: seq<StokvelBankAccount>, account: StokvelBankAccount, pk: Option<nat>): seq<StokvelBankAccount>
    requires pk.Some? ==> pk.value < |rows|
  {
    var key := if pk.Some? then pk.value else |rows|;
    var cleared := if account.isPrimary then ClearOtherPrimaries(rows, account.stokvel, key) else rows;
    if pk.Some? then cleared[key := account] else cleared + [account]
  }

  /**
   * After saving a primary account it is the only primary account of its
   * stokvel; every other row keeps all its other fields.
   */
  lemma {:induction false} SavedPrimaryIsOnlyPrimary(rows: seq<StokvelBankAccount>, account: StokvelBankAccount, pk: Option<nat>)
    requires pk.Some? ==> pk.value < |rows|
    requires account.isPrimary
    ensures var saved, key := SavedAccounts(rows, account, pk), if pk.Some? then pk.value else |rows|;
      key < |saved| && saved[key] == account
      && (forall i :: 0 <= i < |saved| && saved[i].stokvel == account.stokvel && saved[i].isPrimary ==> i == key)
      && (forall i :: 0 <= i < |rows| && i != key ==> saved[i] == rows[i].(isPrimary := saved[i].isPrimary))
  {
  }

  /**
   * `StokvelBankAccount.save`: a primary account first clears the primary flag
   * of its stokvel's other accounts, then the row is written.
   */
  method SaveStokvelBankAccount(accounts: Table<StokvelBankAccount>, account: StokvelBankAccount, pk: Option<nat>)
    returns (id: nat)
    requires pk.Some? ==> pk.value < |accounts.rows|
    modifies accounts
    ensures id == if pk.Some? then pk.value else |old(accounts.rows)|
    ensures accounts.rows == SavedAccounts(old(accounts.rows), account, pk)
  {
    var rows := accounts.rows;
    id := if pk.Some? then pk.value else |rows|;
    if account.isPrimary {
      var cleared: seq<StokvelBankAccount> := [];
      for i := 0 to |rows|
        invariant cleared == ClearOtherPrimaries(rows[..i], account.stokvel, id)
      {
        var row := rows[i];
        if row.stokvel == account.stokvel && row.isPrimary && i != id {
          row := row.(isPrimary := false);
        }
        cleared := cleared + [row];
      }
      assert rows[..|rows|] == rows;
      accounts.Replace(cleared);
    }
    if pk.Some? {
      accounts.Save(id, account);
    } else {
      id := accounts.Create(account);
    }
  }
}
