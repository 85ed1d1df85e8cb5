/**
 * The field and form validators of the stokvel app's forms
 * (stokvel/forms.py). A validator either returns the cleaned value or
 * raises ValidationError; a field left empty or invalid by its own field
 * checks arrives as `None`, and Python's truthiness decides what is checked.
 */
module StokvelForms
{
  import opened Common
  import opened Strings
  import opened Dates
  import opened StokvelModels
  import ValidationUtils
  import StokvelServices

  // ----- StokvelCreateForm and ConstitutionForm -----

  /** Both numbers given and non-zero, and the maximum below the minimum. */
  predicate MaximumBelowMinimum(minimum: Option<int>, maximum: Option<int>)
  {
    Truthy(maximum) && Truthy(minimum) && maximum.value < minimum.value
  }

  const MAXIMUM_BELOW_MINIMUM := ValidationError("Maximum members cannot be less than minimum members")

  /** `StokvelCreateForm.clean_maximum_members`. */
  function CleanMaximumMembers(minimum: Option<int>, maximum: Option<int>): (r: Result<Option<int>>)
    ensures r.Ok? <==> !(minimum.Some? && minimum.value != 0 && maximum.Some? && maximum.value != 0 && maximum.value < minimum.value)
    ensures r.Ok? ==> r.value == maximum
    ensures r.Err? ==> r.error == MAXIMUM_BELOW_MINIMUM
    ensures r.Ok? && minimum.Some? && minimum.value > 0 && maximum.Some? && maximum.value > 0 ==> minimum.value <= maximum.value
  {
    if MaximumBelowMinimum(minimum, maximum) then Err(MAXIMUM_BELOW_MINIMUM) else Ok(maximum)
  }

  /** `ConstitutionForm.clean`: the same bound on the constitution's own fields. */
  function CleanConstitution(c: Constitution): (r: Result<Constitution>)
    ensures r.Ok? <==> CleanMaximumMembers(Some(c.minimumMembers), c.maximumMembers).Ok?
    ensures r.Ok? ==> r.value == c
    ensures r.Err? ==> r.error == MAXIMUM_BELOW_MINIMUM
  {
    if MaximumBelowMinimum(Some(c.minimumMembers), c.maximumMembers) then Err(MAXIMUM_BELOW_MINIMUM) else Ok(c)
  }

  /** A constitution the form accepts never makes a stokvel with members full before it reaches its minimum. */
  lemma AcceptedConstitutionCanReachMinimum(c: Constitution)
    requires CleanConstitution(c).Ok? && c.minimumMembers > 0
    ensures c.maximumMembers.None? || c.maximumMembers.value == 0 || c.minimumMembers <= c.maximumMembers.value
  {
  }

  /** `StokvelCreateForm.clean_date_established`. */
  function CleanDateEstablished(established: Option<Date>, today: Date): (r: Result<Option<Date>>)
    ensures r.Ok? <==> established.None? || Le(established.value, today)
    ensures r.Ok? ==> r.value == established
    ensures r.Err? ==> r.error == ValidationError("Establishment date cannot be in the future")
  {
    if established.Some? && Lt(today, established.value) then Err(ValidationError("Establishment date cannot be in the future"))
    else
      assert established.Some? ==> Le(established.value, today) by {
        if established.Some? {
          OrdinalOrder(today, established.value);
          OrdinalOrder(established.value, today);
        }
      }
      Ok(established)
  }

  // ----- ContributionRuleForm -----

  /** `ContributionRuleForm.clean_amount`: a truthy amount must be positive and at most a million; zero is not checked. */
  function CleanContributionAmount(amount: Option<Money>): (r: Result<Option<Money>>)
    ensures r.Ok? <==> amount.None? || (0.0 <= amount.value <= ValidationUtils.MAX_REASONABLE_AMOUNT)
    ensures r.Ok? ==> r.value == amount
    ensures amount.Some? && amount.value < 0.0 ==> r == Err(ValidationError("Amount must be greater than zero"))
    ensures amount.Some? && amount.value > ValidationUtils.MAX_REASONABLE_AMOUNT ==> r == Err(ValidationError("Amount seems unreasonably large"))
  {
    if TruthyMoney(amount) && amount.value <= 0.0 then Err(ValidationError("Amount must be greater than zero"))
    else if TruthyMoney(amount) && amount.value > ValidationUtils.MAX_REASONABLE_AMOUNT then Err(ValidationError("Amount seems unreasonably large"))
    else Ok(amount)
  }

  /** A zero amount passes the form, although the amount validator and the rule service both refuse it. */
  lemma ZeroContributionAmountPasses()
    ensures CleanContributionAmount(Some(0.0)) == Ok(Some(0.0))
    ensures !ValidationUtils.ValidateContributionAmount(0.0, None).ValidAmount?
  {
  }

  /** An end date is given and is not after the start: refused by both rule forms. */
  predicate ReversedWindow(from: Option<Date>, until: Option<Date>)
  {
    from.Some? && until.Some? && Le(until.value, from.value)
  }

  const REVERSED_WINDOW := ValidationError("End date must be after start date")

  /** An active rule of the stokvel and type, other than the one being edited, that the form's filter finds. */
  predicate FormFinds(rows: seq<ContributionRule>, k: nat, stokvel: nat, contributionType: ContributionType,
                      from: Date, until: Option<Date>, editing: Option<nat>)
    requires k < |rows|
  {
    var rule := rows[k];
    rule.stokvel == stokvel && rule.contributionType == contributionType && rule.isActive
    && Le(rule.effectiveFrom, if until.Some? then until.value else DATE_MAX)
    && (until.None? || rule.effectiveUntil.None? || Le(from, rule.effectiveUntil.value))
    && editing != Some(k)
  }

  /**
   * `ContributionRuleForm.clean` as written: with an end date the overlap
   * query reaches `models.Q`, and `models` is not imported in the forms
   * module, so the form raises NameError.
   */
  function CleanContributionRuleAsWritten(rows: seq<ContributionRule>, stokvel: Option<nat>, contributionType: ContributionType,
                                          from: Option<Date>, until: Option<Date>, editing: Option<nat>): (r: Result<()>)
    ensures stokvel.Some? && from.Some? && until.Some? && !ReversedWindow(from, until) ==> r == Err(NameError("models"))
  {
    if ReversedWindow(from, until) then Err(REVERSED_WINDOW)
    else if stokvel.Some? && from.Some? && until.Some? then Err(NameError("models"))
    else if stokvel.Some? && from.Some? && exists k :: 0 <= k < |rows| && FormFinds(rows, k, stokvel.value, contributionType, from.value, until, editing) then
      Err(ValidationError("Another " + ContributionTypeName(contributionType) + " rule already exists for this period"))
    else Ok(())
  }

  /**
   * `ContributionRuleForm.clean` with its query working: a reversed window is
   * refused, then any active rule of the stokvel and type the filter finds.
   */
  function CleanContributionRule(rows: seq<ContributionRule>, stokvel: Option<nat>, contributionType: ContributionType,
                                 from: Option<Date>, until: Option<Date>, editing: Option<nat>): (r: Result<()>)
    ensures ReversedWindow(from, until) ==> r == Err(REVERSED_WINDOW)
    ensures r.Ok? <==> (!ReversedWindow(from, until)
      && !(stokvel.Some? && from.Some? && exists k :: 0 <= k < |rows| && FormFinds(rows, k, stokvel.value, contributionType, from.value, until, editing)))
    ensures r.Err? && !ReversedWindow(from, until) ==>
      r.error == ValidationError("Another " + ContributionTypeName(contributionType) + " rule already exists for this period")
  {
    if ReversedWindow(from, until) then Err(REVERSED_WINDOW)
    else if stokvel.Some? && from.Some? && exists k :: 0 <= k < |rows| && FormFinds(rows, k, stokvel.value, contributionType, from.value, until, editing) then
      Err(ValidationError("Another " + ContributionTypeName(contributionType) + " rule already exists for this period"))
    else Ok(())
  }

  /** Without an end date the code as written runs and agrees with the corrected form. */
  lemma OpenEndedRuleFormAgrees(rows: seq<ContributionRule>, stokvel: Option<nat>, contributionType: ContributionType,
                                from: Option<Date>, editing: Option<nat>)
    ensures CleanContributionRuleAsWritten(rows, stokvel, contributionType, from, None, editing)
         == CleanContributionRule(rows, stokvel, contributionType, from, None, editing)
  {
  }

  /** With an end date, the form finds exactly the rules the rule service counts as conflicts. */
  lemma ClosedRuleFormMatchesService(rows: seq<ContributionRule>, k: nat, stokvel: nat, contributionType: ContributionType,
                                     from: Date, until: Date)
    requires k < |rows|
    ensures FormFinds(rows, k, stokvel, contributionType, from, Some(until), None)
        <==> StokvelServices.Conflicts(rows[k], stokvel, contributionType, from, Some(until))
  {
  }

  /** Without an end date the form refuses a new rule whenever an active rule of the type exists, even one that has ended. */
  lemma OpenEndedRuleBlockedByEndedRule()
    ensures var ended := ContributionRule(1, "Monthly", Regular, 100.0, Monthly, CalendarDate(2023, 1, 1), Some(CalendarDate(2023, 12, 31)), true, true);
      CleanContributionRule([ended], Some(1), Regular, Some(CalendarDate(2024, 1, 1)), None, None).Err?
      && !StokvelServices.Conflicts(ended, 1, Regular, CalendarDate(2024, 1, 1), None)
  {
    var ended := ContributionRule(1, "Monthly", Regular, 100.0, Monthly, CalendarDate(2023, 1, 1), Some(CalendarDate(2023, 12, 31)), true, true);
    DateMaxIsLatest(ended.effectiveFrom);
    assert FormFinds([ended], 0, 1, Regular, CalendarDate(2024, 1, 1), None, None);
  }

  // ----- PenaltyRuleForm -----

  /** `PenaltyRuleForm.clean_amount`: a truthy amount may not be negative, nor above 100 for a percentage rule. */
  function CleanPenaltyAmount(amount: Option<Money>, calculationMethod: Option<CalculationMethod>): (r: Result<Option<Money>>)
    ensures r.Ok? <==> amount.None? || (amount.value >= 0.0 && (calculationMethod == Some(Percentage) ==> amount.value <= 100.0))
    ensures r.Ok? ==> r.value == amount
    ensures amount.Some? && amount.value < 0.0 ==> r == Err(ValidationError("Amount cannot be negative"))
  {
    if TruthyMoney(amount) && amount.value < 0.0 then Err(ValidationError("Amount cannot be negative"))
    else if calculationMethod == Some(Percentage) && TruthyMoney(amount) && amount.value > 100.0 then Err(ValidationError("Percentage cannot exceed 100%"))
    else Ok(amount)
  }

  /** `PenaltyRuleForm.clean`: a reversed window, then a truthy cap below a truthy base amount. */
  function CleanPenaltyRule(from: Option<Date>, until: Option<Date>, amount: Option<Money>, maximumAmount: Option<Money>): (r: Result<()>)
    ensures r.Ok? <==> !ReversedWindow(from, until) && !(TruthyMoney(amount) && TruthyMoney(maximumAmount) && maximumAmount.value < amount.value)
    ensures ReversedWindow(from, until) ==> r == Err(REVERSED_WINDOW)
    ensures !ReversedWindow(from, until) && r.Err? ==> r.error == ValidationError("Maximum amount cannot be less than base amount")
  {
    if ReversedWindow(from, until) then Err(REVERSED_WINDOW)
    else if TruthyMoney(amount) && TruthyMoney(maximumAmount) && maximumAmount.value < amount.value then
      Err(ValidationError("Maximum amount cannot be less than base amount"))
    else Ok(())
  }

  /** The cap of a fixed rule that passed the form never cuts the penalty: past grace it is the amount itself. */
  lemma FormCapNeverCutsFixedPenalty(rule: PenaltyRule, baseAmount: Money, daysLate: int)
    requires rule.calculationMethod == Fixed && rule.amount > 0.0
    requires CleanPenaltyRule(Some(rule.effectiveFrom), rule.effectiveUntil, Some(rule.amount), rule.maximumAmount).Ok?
    requires daysLate > rule.gracePeriodDays
    ensures rule.CalculatePenalty(baseAmount, daysLate) == rule.amount
  {
  }

  // ----- CycleForm -----

  /** `CycleForm.clean_start_date`: no start in the past. */
  function CleanCycleStartDate(start: Option<Date>, today: Date): (r: Result<Option<Date>>)
    ensures r.Ok? <==> start.None? || Le(today, start.value)
    ensures r.Ok? ==> r.value == start
  {
    if start.Some? && Lt(start.value, today) then Err(ValidationError("Start date cannot be in the past"))
    else
      assert start.Some? ==> Le(today, start.value) by {
        if start.Some? {
          OrdinalOrder(start.value, today);
          OrdinalOrder(today, start.value);
        }
      }
      Ok(start)
  }

  /** A cycle of the stokvel, other than the one being edited, that the new dates overlap. */
  predicate CycleClash(rows: seq<StokvelCycle>, k: nat, stokvel: nat, start: Date, end: Date, editing: Option<nat>)
    requires k < |rows|
  {
    rows[k].stokvel == stokvel && StokvelServices.CyclesOverlap(rows[k], start, end) && editing != Some(k)
  }

  /** `CycleForm.clean`: the end after the start, at least 30 days between them, and no overlap. */
  function CleanCycle(rows: seq<StokvelCycle>, stokvel: Option<nat>, start: Option<Date>, end: Option<Date>, editing: Option<nat>)
    : (r: Result<()>)
    ensures r.Ok? <==>
      !(start.Some? && end.Some? && (Le(end.value, start.value) || DaysBetween(start.value, end.value) < 30))
      && !(stokvel.Some? && start.Some? && end.Some? && exists k :: 0 <= k < |rows| && CycleClash(rows, k, stokvel.value, start.value, end.value, editing))
    ensures start.Some? && end.Some? && r.Ok? ==> Lt(start.value, end.value) && DaysBetween(start.value, end.value) >= 30
    ensures r.Ok? && stokvel.Some? && start.Some? && end.Some? ==>
      forall k :: 0 <= k < |rows| ==> !CycleClash(rows, k, stokvel.value, start.value, end.value, editing)
    ensures start.Some? && end.Some? && Le(end.value, start.value) ==> r == Err(ValidationError("End date must be after start date"))
    ensures start.Some? && end.Some? && Lt(start.value, end.value) && DaysBetween(start.value, end.value) < 30 ==>
      r == Err(ValidationError("Cycle must be at least 30 days long"))
    ensures r.Err? && !(start.Some? && end.Some? && (Le(end.value, start.value) || DaysBetween(start.value, end.value) < 30)) ==>
      r == Err(ValidationError("Cycle dates overlap with existing cycle"))
  {
    if start.Some? && end.Some? && Le(end.value, start.value) then Err(ValidationError("End date must be after start date"))
    else if start.Some? && end.Some? && DaysBetween(start.value, end.value) < 30 then Err(ValidationError("Cycle must be at least 30 days long"))
    else if stokvel.Some? && start.Some? && end.Some? && exists k :: 0 <= k < |rows| && CycleClash(rows, k, stokvel.value, start.value, end.value, editing) then
      Err(ValidationError("Cycle dates overlap with existing cycle"))
    else
      assert start.Some? && end.Some? ==> Lt(start.value, end.value) by {
        if start.Some? && end.Some? {
          OrdinalOrder(start.value, end.value);
          OrdinalOrder(end.value, start.value);
        }
      }
      Ok(())
  }

  /** Adding a cycle the form accepted keeps the stokvel's cycles free of overlaps. */
  lemma AcceptedCycleKeepsNoOverlap(rows: seq<StokvelCycle>, cycle: StokvelCycle)
    requires StokvelServices.NoOverlappingCycles(rows)
    requires CleanCycle(rows, Some(cycle.stokvel), Some(cycle.startDate), Some(cycle.endDate), None).Ok?
    ensures StokvelServices.NoOverlappingCycles(rows + [cycle])
  {
    var after := rows + [cycle];
    forall i, j | 0 <= i < j < |after| && after[i].stokvel == after[j].stokvel
      ensures !StokvelServices.CyclesOverlap(after[i], after[j].startDate, after[j].endDate)
    {
      if j == |rows| {
        assert !CycleClash(rows, i, cycle.stokvel, cycle.startDate, cycle.endDate, None);
      } else {
        assert after[i] == rows[i] && after[j] == rows[j];
      }
    }
  }

  // ----- BankAccountForm -----

  /** `BankAccountForm.clean_account_number`: a non-empty number must pass the bank account validator; it is returned as typed. */
  function CleanAccountNumber(accountNumber: string): (r: Result<string>)
    ensures r.Ok? <==> accountNumber == [] || ValidationUtils.ValidateBankAccountNumber(accountNumber)
    ensures r.Ok? ==> r.value == accountNumber
  {
    if accountNumber != [] && !ValidationUtils.ValidateBankAccountNumber(accountNumber) then Err(ValidationError("Invalid account number format"))
    else Ok(accountNumber)
  }

  /** Why a branch code is refused. */
  datatype BranchCodeFault = NotDigits | WrongLength

  /**
   * The branch code check both apps' forms make: an empty code passes;
   * otherwise, with the spaces removed, it must be digits only (tested
   * first) and then exactly six of them.
   */
  function BranchCodeFaultOf(code: string): (f: Option<BranchCodeFault>)
    ensures f.None? <==> code == [] || (|RemoveChar(code, ' ')| == 6 && AllDigits(RemoveChar(code, ' ')))
    ensures f == Some(NotDigits) <==> code != [] && !IsDigits(RemoveChar(code, ' '))
  {
    if code == [] then None
    else
      var stripped := RemoveChar(code, ' ');
      if !IsDigits(stripped) then Some(NotDigits)
      else if |stripped| != 6 then Some(WrongLength)
      else None
  }

  /** `BankAccountForm.clean_branch_code`: the code without its spaces, or the fault's message. */
  function CleanBranchCode(code: string): (r: Result<string>)
    ensures r.Ok? <==> BranchCodeFaultOf(code).None?
    ensures r.Ok? ==> r.value == RemoveChar(code, ' ') && (r.value == [] || (|r.value| == 6 && AllDigits(r.value)))
    ensures BranchCodeFaultOf(code) == Some(NotDigits) ==> r == Err(ValidationError("Branch code must contain only numbers"))
    ensures BranchCodeFaultOf(code) == Some(WrongLength) ==> r == Err(ValidationError("Branch code must be 6 digits"))
  {
    match BranchCodeFaultOf(code)
    case None => Ok(RemoveChar(code, ' '))
    case Some(NotDigits) => Err(ValidationError("Branch code must contain only numbers"))
    case Some(WrongLength) => Err(ValidationError("Branch code must be 6 digits"))
  }

  /** A cleaned branch code passes the check again and is returned unchanged. */
  lemma BranchCodeIsStable(code: string)
    requires BranchCodeFaultOf(code).None?
    ensures BranchCodeFaultOf(RemoveChar(code, ' ')).None?
    ensures RemoveChar(RemoveChar(code, ' '), ' ') == RemoveChar(code, ' ')
  {
    ValidationUtils.NoSpacesRemoveNothing(RemoveChar(code, ' '));
  }

  /** Another account with the same bank and number, other than the one being edited. */
  predicate DuplicateAccount(rows: seq<StokvelBankAccount>, k: nat, bankName: string, accountNumber: string, editing: Option<nat>)
    requires k < |rows|
  {
    rows[k].bankName == bankName && rows[k].accountNumber == accountNumber && editing != Some(k)
  }

  /** `BankAccountForm.clean`: with both fields given, the (bank, number) pair must be new. */
  function CleanBankAccount(rows: seq<StokvelBankAccount>, bankName: string, accountNumber: string, editing: Option<nat>): (r: Result<()>)
    ensures r.Ok? <==> bankName == [] || accountNumber == [] || forall k :: 0 <= k < |rows| ==> !DuplicateAccount(rows, k, bankName, accountNumber, editing)
    ensures r.Err? ==> r.error == ValidationError("This bank account already exists")
  {
    if bankName != [] && accountNumber != [] && exists k :: 0 <= k < |rows| && DuplicateAccount(rows, k, bankName, accountNumber, editing) then
      Err(ValidationError("This bank account already exists"))
    else Ok(())
  }
}
