/**
 * `PenaltyCalculator` (stokvel/utils.py): the penalty for a late and for an
 * insufficient payment, found through the stokvel's penalty rule of that type
 * in force on the payment date.
 *
 * As written both lookups name `models.Q`, which stokvel/utils.py never
 * imports, so every call that reaches the lookup raises `NameError`. The
 * `...AsWritten` functions record that; `LatePaymentPenalty` and
 * `InsufficientPaymentPenalty` are the calls the queries spell out.
 */
module PenaltyCalculator
{
  import opened Common
  import opened Dates
  import opened StokvelModels

  /** The filters of both lookups: stokvel, type, active, started by `d` and not ended before it. */
  predicate RuleApplies(rule: PenaltyRule, stokvel: nat, penaltyType: PenaltyType, d: Date)
  {
    rule.stokvel == stokvel && rule.penaltyType == penaltyType && rule.isActive
    && Le(rule.effectiveFrom, d)
    && (rule.effectiveUntil.None? || Le(d, rule.effectiveUntil.value))
  }

  /** The lookup's filters select exactly the rules of that stokvel and type that `is_active_for_date` accepts. */
  lemma RuleAppliesIffActive(rule: PenaltyRule, stokvel: nat, penaltyType: PenaltyType, d: Date)
    ensures RuleApplies(rule, stokvel, penaltyType, d)
            <==> rule.stokvel == stokvel && rule.penaltyType == penaltyType && rule.IsActiveForDate(d)
  {
    ActiveOnIff(rule.isActive, rule.effectiveFrom, rule.effectiveUntil, d);
  }

  /** `.first()` of the lookup, from key `from` on: the lowest key whose rule applies. */
  function FirstApplicable(rules: seq<PenaltyRule>, stokvel: nat, penaltyType: PenaltyType, d: Date, from: nat): (r: Option<nat>)
    requires from <= |rules|
    ensures r.Some? ==> from <= r.value < |rules| && RuleApplies(rules[r.value], stokvel, penaltyType, d)
    ensures r.Some? ==> forall k :: from <= k < r.value ==> !RuleApplies(rules[k], stokvel, penaltyType, d)
    ensures r.None? ==> forall k :: from <= k < |rules| ==> !RuleApplies(rules[k], stokvel, penaltyType, d)
    decreases |rules| - from
  {
    if from == |rules| then None
    else if RuleApplies(rules[from], stokvel, penaltyType, d) then Some(from)
    else FirstApplicable(rules, stokvel, penaltyType, d, from + 1)
  }

  /** The pair the calculators return: the penalty and the key of the rule used. */
  datatype PenaltyOutcome = PenaltyOutcome(amount: Money, rule: Option<nat>)

  const NO_PENALTY := PenaltyOutcome(0.0, None)

  /** `calculate_late_payment_penalty` as written: a late payment reaches the `models.Q` lookup and raises. */
  function LatePaymentPenaltyAsWritten(rules: seq<PenaltyRule>, stokvel: nat, contributionAmount: Money, paymentDate: Date, dueDate: Date)
    : Result<PenaltyOutcome>
  {
    if Le(paymentDate, dueDate) then Ok(NO_PENALTY) else Err(NameError("models"))
  }

  /**
   * `calculate_late_payment_penalty` with its lookup working: nothing for a
   * payment on or before the due date; otherwise the first late-payment rule
   * in force on the payment date, applied to the days late.
   */
  function LatePaymentPenalty(rules: seq<PenaltyRule>, stokvel: nat, contributionAmount: Money, paymentDate: Date, dueDate: Date)
    : (r: PenaltyOutcome)
    ensures Le(paymentDate, dueDate) ==> r == NO_PENALTY
    ensures r.rule.Some? ==>
      Lt(dueDate, paymentDate) && r.rule.value < |rules|
      && rules[r.rule.value].stokvel == stokvel && rules[r.rule.value].penaltyType == LatePayment
      && rules[r.rule.value].IsActiveForDate(paymentDate)
      && r.amount == rules[r.rule.value].CalculatePenalty(contributionAmount, DaysBetween(dueDate, paymentDate))
    ensures r.rule.None? ==> r.amount == 0.0
    ensures Lt(dueDate, paymentDate) && r.rule.None? ==>
      forall k :: 0 <= k < |rules| ==> !RuleApplies(rules[k], stokvel, LatePayment, paymentDate)
  {
    if Le(paymentDate, dueDate) then NO_PENALTY
    else
      var daysLate := DaysBetween(dueDate, paymentDate);
      var found := FirstApplicable(rules, stokvel, LatePayment, paymentDate, 0);
      if found.None? then NO_PENALTY
      else
        RuleAppliesIffActive(rules[found.value], stokvel, LatePayment, paymentDate);
        PenaltyOutcome(rules[found.value].CalculatePenalty(contributionAmount, daysLate), found)
  }

  /** A late payment is a positive number of days late. */
  lemma LatePaymentIsDaysLate(paymentDate: Date, dueDate: Date)
    requires Lt(dueDate, paymentDate)
    ensures DaysBetween(dueDate, paymentDate) >= 1
  {
    OrdinalOrder(dueDate, paymentDate);
  }

  /** Whenever the payment is late, the call as written raises while the lookup would have produced an outcome. */
  lemma LateLookupRaises(rules: seq<PenaltyRule>, stokvel: nat, contributionAmount: Money, paymentDate: Date, dueDate: Date)
    requires Lt(dueDate, paymentDate)
    ensures LatePaymentPenaltyAsWritten(rules, stokvel, contributionAmount, paymentDate, dueDate) == Err(NameError("models"))
    ensures Le(paymentDate, dueDate) == false
  {
    OrdinalOrder(dueDate, paymentDate);
    OrdinalOrder(paymentDate, dueDate);
  }

  /** Where the call as written returns, it agrees with the corrected one. */
  lemma LatePenaltyAgreesOnTime(rules: seq<PenaltyRule>, stokvel: nat, contributionAmount: Money, paymentDate: Date, dueDate: Date)
    ensures LatePaymentPenaltyAsWritten(rules, stokvel, contributionAmount, paymentDate, dueDate).Ok? ==>
      LatePaymentPenaltyAsWritten(rules, stokvel, contributionAmount, paymentDate, dueDate).value
      == LatePaymentPenalty(rules, stokvel, contributionAmount, paymentDate, dueDate)
  {
  }

  /** `calculate_insufficient_payment_penalty` as written: a short payment reaches the `models.Q` lookup and raises. */
  function InsufficientPaymentPenaltyAsWritten(rules: seq<PenaltyRule>, stokvel: nat, paidAmount: Money, expectedAmount: Money, paymentDate: Date)
    : Result<PenaltyOutcome>
  {
    if paidAmount >= expectedAmount then Ok(NO_PENALTY) else Err(NameError("models"))
  }

  /**
   * `calculate_insufficient_payment_penalty` with its lookup working: nothing
   * for a full payment; otherwise the first insufficient-payment rule in
   * force, applied to the shortage with zero days late.
   */
  function InsufficientPaymentPenalty(rules: seq<PenaltyRule>, stokvel: nat, paidAmount: Money, expectedAmount: Money, paymentDate: Date)
    : (r: PenaltyOutcome)
    ensures paidAmount >= expectedAmount ==> r == NO_PENALTY
    ensures r.rule.Some? ==>
      paidAmount < expectedAmount && r.rule.value < |rules|
      && rules[r.rule.value].stokvel == stokvel && rules[r.rule.value].penaltyType == InsufficientPayment
      && rules[r.rule.value].IsActiveForDate(paymentDate)
      && r.amount == rules[r.rule.value].CalculatePenalty(expectedAmount - paidAmount, 0)
    ensures r.rule.None? ==> r.amount == 0.0
    ensures paidAmount < expectedAmount && r.rule.None? ==>
      forall k :: 0 <= k < |rules| ==> !RuleApplies(rules[k], stokvel, InsufficientPayment, paymentDate)
  {
    if paidAmount >= expectedAmount then NO_PENALTY
    else
      var shortage := expectedAmount - paidAmount;
      var found := FirstApplicable(rules, stokvel, InsufficientPayment, paymentDate, 0);
      if found.None? then NO_PENALTY
      else
        RuleAppliesIffActive(rules[found.value], stokvel, InsufficientPayment, paymentDate);
        PenaltyOutcome(rules[found.value].CalculatePenalty(shortage, 0), found)
  }

  /**
   * Because the shortage is charged as zero days late, a rule with a grace
   * period of zero days or more never charges anything.
   */
  lemma InsufficientPenaltyNeedsNegativeGrace(rules: seq<PenaltyRule>, stokvel: nat, paidAmount: Money, expectedAmount: Money, paymentDate: Date)
    requires forall k :: 0 <= k < |rules| ==> rules[k].gracePeriodDays >= 0
    ensures InsufficientPaymentPenalty(rules, stokvel, paidAmount, expectedAmount, paymentDate).amount == 0.0
  {
  }

  /** Whenever the payment is short, the call as written raises. */
  lemma InsufficientLookupRaises(rules: seq<PenaltyRule>, stokvel: nat, paidAmount: Money, expectedAmount: Money, paymentDate: Date)
    requires paidAmount < expectedAmount
    ensures InsufficientPaymentPenaltyAsWritten(rules, stokvel, paidAmount, expectedAmount, paymentDate) == Err(NameError("models"))
  {
  }

  /** A concrete case: a payment ten days late under a R50 fixed rule costs R50 once the lookup works. */
  lemma LatePaymentExample()
    ensures var rule := PenaltyRule(7, "Late", LatePayment, Fixed, 50.0, 3, None, CalendarDate(2024, 1, 1), None, true);
      LatePaymentPenalty([rule], 7, 200.0, CalendarDate(2024, 2, 10), CalendarDate(2024, 1, 31)) == PenaltyOutcome(50.0, Some(0))
      && LatePaymentPenaltyAsWritten([rule], 7, 200.0, CalendarDate(2024, 2, 10), CalendarDate(2024, 1, 31)) == Err(NameError("models"))
  {
    var rule := PenaltyRule(7, "Late", LatePayment, Fixed, 50.0, 3, None, CalendarDate(2024, 1, 1), None, true);
    assert RuleApplies(rule, 7, LatePayment, CalendarDate(2024, 2, 10));
    assert DaysBetween(CalendarDate(2024, 1, 31), CalendarDate(2024, 2, 10)) == 10;
  }
}
