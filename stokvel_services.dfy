/**
 * The stokvel services (stokvel/services.py): the constitution checks, the
 * contribution and penalty rule services, cycles, the stokvel's bank accounts
 * and the set-up validation. Tables are read as sequences and written through
 * `Table`; "today" is a parameter.
 */
module StokvelServices
{
  import opened Common
  import opened Strings
  import opened Dates
  import opened Tables
  import opened StokvelModels
  import AccountsModels
  import ExpectedContribution

  type Member = AccountsModels.Member

  // ----- member counts -----

  /** `stokvel.members.filter(status='active').count()`. */
  function ActiveMemberCount(members: seq<Member>, stokvel: nat): (n: nat)
    ensures n <= AccountsModels.MemberCount(members, stokvel)
  {
    AccountsModels.StatusCount(members, stokvel, AccountsModels.Active)
  }

  // ----- ConstitutionService -----

  /** The keys of an `updates` dictionary that name constitution fields; a key that is not given is `None`. */
  datatype ConstitutionUpdates = ConstitutionUpdates(
    meetingFrequency: Option<string>,
    minimumAttendancePercentage: Option<int>,
    minimumMembers: Option<int>,
    maximumMembers: Option<Option<int>>,
    probationPeriodMonths: Option<int>,
    contributionStartDay: Option<int>,
    contributionDueDay: Option<int>,
    noticePeriodDays: Option<int>,
    payoutFrequency: Option<string>,
    payoutOrderMethod: Option<string>)

  const NO_UPDATES := ConstitutionUpdates(None, None, None, None, None, None, None, None, None, None)

  function Pick<T>(update: Option<T>, current: T): T
  {
    if update.Some? then update.value else current
  }

  /** The `setattr` loop: every given field takes its new value, every other field keeps its old one. */
  function ApplyUpdates(c: Constitution, u: ConstitutionUpdates): Constitution
  {
    Constitution(
      Pick(u.meetingFrequency, c.meetingFrequency),
      Pick(u.minimumAttendancePercentage, c.minimumAttendancePercentage),
      Pick(u.minimumMembers, c.minimumMembers),
      Pick(u.maximumMembers, c.maximumMembers),
      Pick(u.probationPeriodMonths, c.probationPeriodMonths),
      Pick(u.contributionStartDay, c.contributionStartDay),
      Pick(u.contributionDueDay, c.contributionDueDay),
      Pick(u.noticePeriodDays, c.noticePeriodDays),
      Pick(u.payoutFrequency, c.payoutFrequency),
      Pick(u.payoutOrderMethod, c.payoutOrderMethod))
  }

  /** No updates leave the constitution as it was, and applying the same updates twice is applying them once. */
  lemma ApplyUpdatesProperties(c: Constitution, u: ConstitutionUpdates)
    ensures ApplyUpdates(c, NO_UPDATES) == c
    ensures ApplyUpdates(ApplyUpdates(c, u), u) == ApplyUpdates(c, u)
  {
  }

  /**
   * `update_constitution`: a new minimum above the active member count, or a
   * truthy new maximum below the total member count, is refused; otherwise
   * the given fields are applied.
   */
  function UpdateConstitution(c: Constitution, u: ConstitutionUpdates, members: seq<Member>, stokvel: nat): (r: Result<Constitution>)
    ensures r.Err? <==> (u.minimumMembers.Some? && u.minimumMembers.value > ActiveMemberCount(members, stokvel))
                        || (u.maximumMembers.Some? && Truthy(u.maximumMembers.value) && u.maximumMembers.value.value < AccountsModels.MemberCount(members, stokvel))
    ensures r.Err? ==> r.error.ValidationError?
    ensures r.Ok? ==> r.value == ApplyUpdates(c, u)
  {
    var active := ActiveMemberCount(members, stokvel);
    var total := AccountsModels.MemberCount(members, stokvel);
    if u.minimumMembers.Some? && u.minimumMembers.value > active then
      Err(ValidationError("Cannot set minimum members to " + IntToString(u.minimumMembers.value)
                          + ". Current active members: " + NatToString(active)))
    else if u.maximumMembers.Some? && Truthy(u.maximumMembers.value) && u.maximumMembers.value.value < total then
      Err(ValidationError("Cannot set maximum members to " + IntToString(u.maximumMembers.value.value)
                          + ". Current total members: " + NatToString(total)))
    else Ok(ApplyUpdates(c, u))
  }

  function BelowMinimumIssue(active: nat, minimum: int): string
  {
    "Below minimum members requirement: " + NatToString(active) + "/" + IntToString(minimum)
  }

  function ExceedsMaximumIssue(active: nat, maximum: int): string
  {
    "Exceeds maximum members limit: " + NatToString(active) + "/" + IntToString(maximum)
  }

  /** `validate_constitution_compliance`: one issue for too few active members, one for too many. */
  method ValidateConstitutionCompliance(c: Constitution, members: seq<Member>, stokvel: nat) returns (issues: seq<string>)
    ensures var active := ActiveMemberCount(members, stokvel);
      && (BelowMinimumIssue(active, c.minimumMembers) in issues <==> active < c.minimumMembers)
      && (Truthy(c.maximumMembers) ==> (ExceedsMaximumIssue(active, c.maximumMembers.value) in issues <==> active > c.maximumMembers.value))
      && (forall i :: 0 <= i < |issues| ==>
            issues[i] == BelowMinimumIssue(active, c.minimumMembers)
            || (Truthy(c.maximumMembers) && issues[i] == ExceedsMaximumIssue(active, c.maximumMembers.value)))
  {
    var active := ActiveMemberCount(members, stokvel);
    var below := BelowMinimumIssue(active, c.minimumMembers);
    issues := [];
    if active < c.minimumMembers {
      issues := issues + [below];
    }
    if Truthy(c.maximumMembers) {
      var exceeds := ExceedsMaximumIssue(active, c.maximumMembers.value);
      assert exceeds[0] == 'E' && below[0] == 'B';
      if active > c.maximumMembers.value {
        issues := issues + [exceeds];
      }
    }
  }

  /**
   * A constitution that `update_constitution` accepted with a new minimum or
   * a truthy new maximum reports no member-count issue for that bound.
   */
  lemma UpdatedConstitutionIsCompliant(c: Constitution, u: ConstitutionUpdates, members: seq<Member>, stokvel: nat)
    requires UpdateConstitution(c, u, members, stokvel).Ok?
    ensures var updated, active := UpdateConstitution(c, u, members, stokvel).value, ActiveMemberCount(members, stokvel);
      && (u.minimumMembers.Some? ==> active >= updated.minimumMembers)
      && (u.maximumMembers.Some? && Truthy(u.maximumMembers.value) ==> active <= AccountsModels.MemberCount(members, stokvel) <= updated.maximumMembers.value)
  {
  }

  // ----- ContributionRuleService -----

  /** A validity window `[from, until]`, an absent `until` meaning no end, holds `d`. */
  predicate InWindow(from: Date, until: Option<Date>, d: Date)
  {
    Le(from, d) && (until.None? || Le(d, until.value))
  }

  /** The overlap test the check intends: the existing rule's window meets `[from, until]`. */
  predicate Overlaps(rule: ContributionRule, from: Date, until: Option<Date>)
  {
    Le(rule.effectiveFrom, if until.Some? then until.value else DATE_MAX)
    && (rule.effectiveUntil.None? || Le(from, rule.effectiveUntil.value))
  }

  /** An active rule of the same stokvel and type whose window meets the new one. */
  predicate Conflicts(rule: ContributionRule, stokvel: nat, contributionType: ContributionType, from: Date, until: Option<Date>)
  {
    rule.stokvel == stokvel && rule.contributionType == contributionType && rule.isActive && Overlaps(rule, from, until)
  }

  /** For windows that are not reversed, overlapping means sharing a day. */
  lemma OverlapsIffSharedDay(rule: ContributionRule, from: Date, until: Option<Date>)
    requires until.None? || Le(from, until.value)
    requires rule.effectiveUntil.None? || Le(rule.effectiveFrom, rule.effectiveUntil.value)
    ensures Overlaps(rule, from, until) <==>
      exists d: Date :: InWindow(rule.effectiveFrom, rule.effectiveUntil, d) && InWindow(from, until, d)
  {
    var end := if until.Some? then until.value else DATE_MAX;
    if Overlaps(rule, from, until) {
      var d := Max(rule.effectiveFrom, from);
      if until.Some? {
        LeTransitive(from, d, until.value);
      }
      if rule.effectiveUntil.Some? {
        assert Le(d, rule.effectiveUntil.value);
      }
      if until.Some? {
        assert Le(d, until.value);
      }
      assert InWindow(rule.effectiveFrom, rule.effectiveUntil, d) && InWindow(from, until, d);
    }
    if exists d: Date :: InWindow(rule.effectiveFrom, rule.effectiveUntil, d) && InWindow(from, until, d) {
      var d: Date :| InWindow(rule.effectiveFrom, rule.effectiveUntil, d) && InWindow(from, until, d);
      DateMaxIsLatest(d);
      LeTransitive(rule.effectiveFrom, d, end);
      if rule.effectiveUntil.Some? {
        LeTransitive(from, d, rule.effectiveUntil.value);
      }
    }
  }

  /**
   * The filter of `create_contribution_rule` as written: an open-ended new
   * rule passes `None` to `effective_until__gte`, which Django refuses; a
   * closed one only finds existing rules that have an end date.
   */
  function ConflictAsWritten(rows: seq<ContributionRule>, stokvel: nat, contributionType: ContributionType, from: Date, until: Option<Date>)
    : Result<bool>
  {
    if until.None? then Err(ValueError("Cannot use None as a query value"))
    else Ok(exists k :: 0 <= k < |rows| && rows[k].stokvel == stokvel && rows[k].contributionType == contributionType
                        && rows[k].isActive && Le(rows[k].effectiveFrom, until.value)
                        && rows[k].effectiveUntil.Some? && Le(from, rows[k].effectiveUntil.value))
  }

  /** Every conflict the filter as written reports is a real one, and an open-ended new rule always raises. */
  lemma ConflictAsWrittenIsSound(rows: seq<ContributionRule>, stokvel: nat, contributionType: ContributionType, from: Date, until: Option<Date>)
    ensures until.None? <==> ConflictAsWritten(rows, stokvel, contributionType, from, until) == Err(ValueError("Cannot use None as a query value"))
    ensures ConflictAsWritten(rows, stokvel, contributionType, from, until) == Ok(true) ==>
      exists k :: 0 <= k < |rows| && Conflicts(rows[k], stokvel, contributionType, from, until)
  {
  }

  /**
   * The filter as written misses an open-ended rule: a monthly rule running
   * from 1 January 2024 with no end meets a new rule for the second half of
   * 2024, yet no conflict is reported.
   */
  lemma ConflictAsWrittenMissesOpenEndedRule()
    ensures var existing := ContributionRule(1, "Monthly", Regular, 100.0, Monthly, CalendarDate(2024, 1, 1), None, true, true);
      var from, until := CalendarDate(2024, 7, 1), Some(CalendarDate(2024, 12, 31));
      ConflictAsWritten([existing], 1, Regular, from, until) == Ok(false)
      && Conflicts(existing, 1, Regular, from, until)
      && InWindow(existing.effectiveFrom, existing.effectiveUntil, from) && InWindow(from, until, from)
  {
  }

  /** The rule `ContributionRule.objects.create` stores: active, with the given window. */
  function NewContributionRule(stokvel: nat, name: string, contributionType: ContributionType, amount: Money, frequency: Frequency,
                               from: Date, until: Option<Date>, isMandatory: bool): ContributionRule
  {
    ContributionRule(stokvel, name, contributionType, amount, frequency, from, until, true, isMandatory)
  }

  /** The error for a clashing rule names the type it clashes on. */
  function OverlappingRule(t: ContributionType): Error
  {
    ValidationError("Overlapping " + ContributionTypeName(t) + " rule already exists for this period")
  }

  /**
   * `create_contribution_rule` with the intended overlap test: a non-positive
   * amount is refused first, then any active rule of the same stokvel and
   * type whose window meets the new one; otherwise the rule is created,
   * starting today when no start is given.
   */
  method CreateContributionRule(rules: Table<ContributionRule>, stokvel: nat, name: string, contributionType: ContributionType,
                                amount: Money, frequency: Frequency, effectiveFrom: Option<Date>, effectiveUntil: Option<Date>,
                                isMandatory: bool, today: Date)
    returns (r: Result<nat>)
    modifies rules
    ensures var from := if effectiveFrom.Some? then effectiveFrom.value else today;
      && (amount <= 0.0 ==> r == Err(ValidationError("Contribution amount must be greater than 0")))
      && (r.Err? <==> amount <= 0.0 || exists k :: 0 <= k < |old(rules.rows)| && Conflicts(old(rules.rows)[k], stokvel, contributionType, from, effectiveUntil))
      && (amount > 0.0 && r.Err? ==> r.error == OverlappingRule(contributionType))
      && (r.Err? ==> rules.rows == old(rules.rows))
      && (r.Ok? ==> r.value == |old(rules.rows)|
                    && rules.rows == old(rules.rows) + [NewContributionRule(stokvel, name, contributionType, amount, frequency, from, effectiveUntil, isMandatory)])
  {
    var from := if effectiveFrom.Some? then effectiveFrom.value else today;
    if amount <= 0.0 {
      return Err(ValidationError("Contribution amount must be greater than 0"));
    }
    var rows := rules.rows;
    if exists k :: 0 <= k < |rows| && Conflicts(rows[k], stokvel, contributionType, from, effectiveUntil) {
      return Err(OverlappingRule(contributionType));
    }
    var pk := rules.Create(NewContributionRule(stokvel, name, contributionType, amount, frequency, from, effectiveUntil, isMandatory));
    r := Ok(pk);
  }

  /** `get_active_contribution_rules`: the union of the closed-window and the open-ended rules in force on `d`. */
  function ActiveContributionRules(rows: seq<ContributionRule>, stokvel: nat, d: Date): set<nat>
  {
    (set k | 0 <= k < |rows| && rows[k].stokvel == stokvel && rows[k].isActive && Le(rows[k].effectiveFrom, d)
                              && rows[k].effectiveUntil.Some? && Le(d, rows[k].effectiveUntil.value))
    + (set k | 0 <= k < |rows| && rows[k].stokvel == stokvel && rows[k].isActive && Le(rows[k].effectiveFrom, d)
                                && rows[k].effectiveUntil.None?)
  }

  /** The union selects exactly the stokvel's rules that `is_active_for_date` accepts. */
  lemma ActiveRulesAreActiveForDate(rows: seq<ContributionRule>, stokvel: nat, d: Date)
    ensures forall k :: k in ActiveContributionRules(rows, stokvel, d) <==>
      0 <= k < |rows| && rows[k].stokvel == stokvel && rows[k].IsActiveForDate(d)
  {
    forall k | 0 <= k < |rows|
      ensures k in ActiveContributionRules(rows, stokvel, d) <==> rows[k].stokvel == stokvel && rows[k].IsActiveForDate(d)
    {
      ActiveOnIff(rows[k].isActive, rows[k].effectiveFrom, rows[k].effectiveUntil, d);
    }
  }

  /** `deactivate_rule`'s new row: ended on `endDate`, or today, and inactive; nothing else changes. */
  function DeactivatedRule(rule: ContributionRule, endDate: Option<Date>, today: Date): ContributionRule
  {
    rule.(effectiveUntil := Some(if endDate.Some? then endDate.value else today), isActive := false)
  }

  /** `deactivate_rule`. */
  method DeactivateRule(rules: Table<ContributionRule>, pk: nat, endDate: Option<Date>, today: Date)
    requires pk < |rules.rows|
    modifies rules
    ensures rules.rows == old(rules.rows)[pk := DeactivatedRule(old(rules.rows)[pk], endDate, today)]
  {
    rules.Save(pk, DeactivatedRule(rules.rows[pk], endDate, today));
  }

  /**
   * A deactivated rule is in force on no date and no longer blocks a new
   * rule; every other rule's standing is unchanged.
   */
  lemma DeactivatedRuleIsRetired(rows: seq<ContributionRule>, pk: nat, endDate: Option<Date>, today: Date, d: Date)
    requires pk < |rows|
    ensures var after := rows[pk := DeactivatedRule(rows[pk], endDate, today)];
      && pk !in ActiveContributionRules(after, rows[pk].stokvel, d)
      && (forall s, ct, from, until :: !Conflicts(after[pk], s, ct, from, until))
      && (forall k :: k != pk ==> (k in ActiveContributionRules(after, rows[pk].stokvel, d) <==> k in ActiveContributionRules(rows, rows[pk].stokvel, d)))
  {
  }

  // ----- PenaltyRuleService -----

  /** The amount checks of `create_penalty_rule`, in order. */
  function PenaltyAmountError(calculationMethod: CalculationMethod, amount: Money): (e: Option<Error>)
    ensures e.None? <==> amount >= 0.0 && (calculationMethod.Percentage? ==> amount <= 100.0)
  {
    if calculationMethod.Percentage? && amount > 100.0 then Some(ValidationError("Percentage penalty cannot exceed 100%"))
    else if amount < 0.0 then Some(ValidationError("Penalty amount cannot be negative"))
    else None
  }

  /** The error for a second rule in force names its type. */
  function ExistingPenaltyRule(t: PenaltyType): Error
  {
    ValidationError("Active " + PenaltyTypeName(t) + " rule already exists. Deactivate existing rule before creating new one.")
  }

  /** The duplicate filter as written: only rules with an end date on or after today are found. */
  predicate BlocksAsWritten(rule: PenaltyRule, stokvel: nat, penaltyType: PenaltyType, today: Date)
  {
    rule.stokvel == stokvel && rule.penaltyType == penaltyType && rule.isActive && Le(rule.effectiveFrom, today)
    && rule.effectiveUntil.Some? && Le(today, rule.effectiveUntil.value)
  }

  /** The duplicate test intended: a rule of the same stokvel and type in force today. */
  predicate Blocks(rule: PenaltyRule, stokvel: nat, penaltyType: PenaltyType, today: Date)
  {
    rule.stokvel == stokvel && rule.penaltyType == penaltyType && rule.IsActiveForDate(today)
  }

  /** The rule `PenaltyRule.objects.create` stores: active, open-ended. */
  function NewPenaltyRule(stokvel: nat, name: string, penaltyType: PenaltyType, calculationMethod: CalculationMethod, amount: Money,
                          gracePeriodDays: int, maximumAmount: Option<Money>, from: Date): PenaltyRule
  {
    PenaltyRule(stokvel, name, penaltyType, calculationMethod, amount, gracePeriodDays, maximumAmount, from, None, true)
  }

  /** `create_penalty_rule` as written: the error it raises, if any. */
  function PenaltyRuleErrorAsWritten(rows: seq<PenaltyRule>, stokvel: nat, penaltyType: PenaltyType, calculationMethod: CalculationMethod,
                                     amount: Money, today: Date): Option<Error>
  {
    var amountError := PenaltyAmountError(calculationMethod, amount);
    if amountError.Some? then amountError
    else if exists k :: 0 <= k < |rows| && BlocksAsWritten(rows[k], stokvel, penaltyType, today) then Some(ExistingPenaltyRule(penaltyType))
    else None
  }

  /** `create_penalty_rule` with the intended duplicate test: the error it raises, if any. */
  function PenaltyRuleError(rows: seq<PenaltyRule>, stokvel: nat, penaltyType: PenaltyType, calculationMethod: CalculationMethod,
                            amount: Money, today: Date): (e: Option<Error>)
    ensures e.None? <==> PenaltyAmountError(calculationMethod, amount).None?
                         && forall k :: 0 <= k < |rows| ==> !Blocks(rows[k], stokvel, penaltyType, today)
  {
    var amountError := PenaltyAmountError(calculationMethod, amount);
    if amountError.Some? then amountError
    else if exists k :: 0 <= k < |rows| && Blocks(rows[k], stokvel, penaltyType, today) then Some(ExistingPenaltyRule(penaltyType))
    else None
  }

  /**
   * As written, a rule this service created (open-ended, started by today) is
   * never seen by the duplicate check: creating the same rule again succeeds,
   * while the intended check refuses it.
   */
  lemma OpenEndedPenaltyRuleInvisibleAsWritten(rows: seq<PenaltyRule>, stokvel: nat, name: string, penaltyType: PenaltyType,
                                               calculationMethod: CalculationMethod, amount: Money, gracePeriodDays: int,
                                               maximumAmount: Option<Money>, from: Date, today: Date)
    requires PenaltyRuleErrorAsWritten(rows, stokvel, penaltyType, calculationMethod, amount, today).None?
    requires Le(from, today)
    ensures var created := rows + [NewPenaltyRule(stokvel, name, penaltyType, calculationMethod, amount, gracePeriodDays, maximumAmount, from)];
      && PenaltyRuleErrorAsWritten(created, stokvel, penaltyType, calculationMethod, amount, today).None?
      && PenaltyRuleError(created, stokvel, penaltyType, calculationMethod, amount, today) == Some(ExistingPenaltyRule(penaltyType))
  {
    var rule := NewPenaltyRule(stokvel, name, penaltyType, calculationMethod, amount, gracePeriodDays, maximumAmount, from);
    var created := rows + [rule];
    assert forall k :: 0 <= k < |rows| ==> created[k] == rows[k];
    assert created[|rows|] == rule;
    assert Blocks(rule, stokvel, penaltyType, today);
  }

  /**
   * `create_penalty_rule` with the intended duplicate test: the amount checks,
   * then no rule of the type in force today; the new rule starts on
   * `effectiveFrom`, or today.
   */
  method CreatePenaltyRule(rules: Table<PenaltyRule>, stokvel: nat, name: string, penaltyType: PenaltyType,
                           calculationMethod: CalculationMethod, amount: Money, gracePeriodDays: int,
                           maximumAmount: Option<Money>, effectiveFrom: Option<Date>, today: Date)
    returns (r: Result<nat>)
    modifies rules
    ensures var e := PenaltyRuleError(old(rules.rows), stokvel, penaltyType, calculationMethod, amount, today);
      && (e.Some? ==> r == Err(e.value) && rules.rows == old(rules.rows))
      && (e.None? ==> r == Ok(|old(rules.rows)|)
                      && rules.rows == old(rules.rows) + [NewPenaltyRule(stokvel, name, penaltyType, calculationMethod, amount, gracePeriodDays,
                                                                         maximumAmount, if effectiveFrom.Some? then effectiveFrom.value else today)])
  {
    var e := PenaltyRuleError(rules.rows, stokvel, penaltyType, calculationMethod, amount, today);
    if e.Some? {
      return Err(e.value);
    }
    var from := if effectiveFrom.Some? then effectiveFrom.value else today;
    var pk := rules.Create(NewPenaltyRule(stokvel, name, penaltyType, calculationMethod, amount, gracePeriodDays, maximumAmount, from));
    r := Ok(pk);
  }

  /** The intended check keeps one rule per stokvel and type in force today: a second identical request is refused. */
  lemma SecondPenaltyRuleRefused(rows: seq<PenaltyRule>, stokvel: nat, name: string, penaltyType: PenaltyType,
                                 calculationMethod: CalculationMethod, amount: Money, gracePeriodDays: int,
                                 maximumAmount: Option<Money>, from: Date, today: Date)
    requires PenaltyRuleError(rows, stokvel, penaltyType, calculationMethod, amount, today).None?
    requires Le(from, today)
    ensures var created := rows + [NewPenaltyRule(stokvel, name, penaltyType, calculationMethod, amount, gracePeriodDays, maximumAmount, from)];
      PenaltyRuleError(created, stokvel, penaltyType, calculationMethod, amount, today) == Some(ExistingPenaltyRule(penaltyType))
  {
    var rule := NewPenaltyRule(stokvel, name, penaltyType, calculationMethod, amount, gracePeriodDays, maximumAmount, from);
    assert (rows + [rule])[|rows|] == rule;
    assert Blocks(rule, stokvel, penaltyType, today);
  }

  /**
   * `get_applicable_penalty_rules`: the first matching rule with an end date
   * in force on `d`, else the first open-ended one, else none.
   */
  function ApplicablePenaltyRule(rows: seq<PenaltyRule>, stokvel: nat, penaltyType: PenaltyType, d: Date): (r: Option<nat>)
    ensures r.Some? ==> r.value < |rows| && rows[r.value].stokvel == stokvel && rows[r.value].penaltyType == penaltyType
                        && rows[r.value].IsActiveForDate(d)
    ensures r.None? <==> forall k :: 0 <= k < |rows| ==> !Blocks(rows[k], stokvel, penaltyType, d)
    ensures (exists k :: 0 <= k < |rows| && Blocks(rows[k], stokvel, penaltyType, d) && rows[k].effectiveUntil.Some?)
            ==> r.Some? && rows[r.value].effectiveUntil.Some?
  {
    var closed := FirstBlocking(rows, stokvel, penaltyType, d, true, 0);
    var open := FirstBlocking(rows, stokvel, penaltyType, d, false, 0);
    if closed.Some? then closed else open
  }

  /** `.first()` of one of the two filters: the lowest key from `from` on of a rule in force with (`closed`) or without an end date. */
  function FirstBlocking(rows: seq<PenaltyRule>, stokvel: nat, penaltyType: PenaltyType, d: Date, closed: bool, from: nat): (r: Option<nat>)
    requires from <= |rows|
    ensures r.Some? ==> from <= r.value < |rows| && Blocks(rows[r.value], stokvel, penaltyType, d)
                        && rows[r.value].effectiveUntil.Some? == closed
    ensures r.None? ==> forall k :: from <= k < |rows| ==> !(Blocks(rows[k], stokvel, penaltyType, d) && rows[k].effectiveUntil.Some? == closed)
    decreases |rows| - from
  {
    if from == |rows| then None
    else if Blocks(rows[from], stokvel, penaltyType, d) && rows[from].effectiveUntil.Some? == closed then Some(from)
    else FirstBlocking(rows, stokvel, penaltyType, d, closed, from + 1)
  }

  // ----- CycleService -----

  /** The overlap filter of `create_cycle`: the existing cycle starts before the new end and ends after the new start. */
  predicate CyclesOverlap(cycle: StokvelCycle, start: Date, end: Date)
  {
    Lt(cycle.startDate, end) && Lt(start, cycle.endDate)
  }

  /** Cycles that only touch, one ending on the day the next starts, do not overlap. */
  lemma TouchingCyclesDoNotOverlap(cycle: StokvelCycle, start: Date, end: Date)
    requires Le(cycle.endDate, start) || Le(end, cycle.startDate)
    ensures !CyclesOverlap(cycle, start, end)
  {
    OrdinalOrder(cycle.endDate, start);
    OrdinalOrder(start, cycle.endDate);
    OrdinalOrder(end, cycle.startDate);
    OrdinalOrder(cycle.startDate, end);
  }

  /** No two cycles of one stokvel overlap. */
  predicate NoOverlappingCycles(rows: seq<StokvelCycle>)
  {
    forall i, j :: 0 <= i < j < |rows| && rows[i].stokvel == rows[j].stokvel ==> !CyclesOverlap(rows[i], rows[j].startDate, rows[j].endDate)
  }

  /** Whole calendar months from the start month to the end month, days ignored. */
  function MonthsBetween(start: Date, end: Date): int
  {
    (end.year - start.year) * 12 + end.month - start.month
  }

  /** The expected total: the monthly regular amount at the start, times the months, times the active members. */
  function CycleExpectedTotal(rules: seq<ContributionRule>, members: seq<Member>, stokvel: nat, start: Date, end: Date): Money
  {
    CycleTotal(ExpectedContribution.ExpectedTotal(rules, stokvel, Regular, start, start), MonthsBetween(start, end),
               ActiveMemberCount(members, stokvel))
  }

  function CycleTotal(monthly: Money, months: int, activeMembers: nat): Money
  {
    monthly * months as real * activeMembers as real
  }

  /**
   * The regular rules the expected total sums are the stokvel's active rules
   * on the start date of type regular; the month factor is the new cycle's
   * `duration_months`; and the total is zero without such rules.
   */
  lemma CycleExpectedTotalMeaning(rules: seq<ContributionRule>, members: seq<Member>, stokvel: nat, name: string, start: Date, end: Date)
    ensures forall k :: 0 <= k < |rules| ==>
      (ExpectedContribution.CountsForPeriod(rules[k], stokvel, Regular, start, start)
       <==> k in ActiveContributionRules(rules, stokvel, start) && rules[k].contributionType == Regular)
    ensures MonthsBetween(start, end) == StokvelCycle(stokvel, name, start, end, 0.0, Planned).DurationMonths()
    ensures (forall k :: 0 <= k < |rules| ==> !(k in ActiveContributionRules(rules, stokvel, start) && rules[k].contributionType == Regular))
            ==> CycleExpectedTotal(rules, members, stokvel, start, end) == 0.0
  {
    ActiveRulesAreActiveForDate(rules, stokvel, start);
    forall k | 0 <= k < |rules|
      ensures ExpectedContribution.CountsForPeriod(rules[k], stokvel, Regular, start, start)
              <==> k in ActiveContributionRules(rules, stokvel, start) && rules[k].contributionType == Regular
    {
      ActiveOnIff(rules[k].isActive, rules[k].effectiveFrom, rules[k].effectiveUntil, start);
    }
    ExpectedContribution.ExpectedTotalBounds(rules, stokvel, Regular, start, start);
  }

  lemma ZeroProduct(x: real, y: real, z: real)
    requires x == 0.0
    ensures x * y * z == 0.0
  {
  }

  /** The expected total as `create_cycle` computes it: zero unless a regular rule is in force at the start. */
  method ComputeCycleExpectedTotal(rules: seq<ContributionRule>, members: seq<Member>, stokvel: nat, start: Date, end: Date)
    returns (expected: Money)
    ensures expected == CycleExpectedTotal(rules, members, stokvel, start, end)
  {
    expected := 0.0;
    if exists k :: 0 <= k < |rules| && ExpectedContribution.CountsForPeriod(rules[k], stokvel, Regular, start, start) {
      var monthly := ExpectedContribution.CalculateExpectedContribution(rules, stokvel, Regular, start, start);
      var months := (end.year - start.year) * 12 + end.month - start.month;
      var active := ActiveMemberCount(members, stokvel);
      expected := CycleTotal(monthly, months, active);
    } else {
      ExpectedContribution.ExpectedTotalBounds(rules, stokvel, Regular, start, start);
      ZeroProduct(ExpectedContribution.ExpectedTotal(rules, stokvel, Regular, start, start),
                  MonthsBetween(start, end) as real, ActiveMemberCount(members, stokvel) as real);
    }
  }

  /**
   * `create_cycle`: refuses a start on or after the end, a start before today
   * and an overlap with another cycle of the stokvel; otherwise creates a
   * planned cycle with the expected total.
   */
  method CreateCycle(cycles: Table<StokvelCycle>, rules: seq<ContributionRule>, members: seq<Member>, stokvel: nat,
                     name: string, start: Date, end: Date, today: Date)
    returns (r: Result<nat>)
    modifies cycles
    ensures Le(end, start) ==> r == Err(ValidationError("Start date must be before end date"))
    ensures Lt(start, end) && Lt(start, today) ==> r == Err(ValidationError("Start date cannot be in the past"))
    ensures r.Err? <==> Le(end, start) || Lt(start, today)
                        || exists k :: 0 <= k < |old(cycles.rows)| && old(cycles.rows)[k].stokvel == stokvel
                                       && CyclesOverlap(old(cycles.rows)[k], start, end)
    ensures r.Err? ==> cycles.rows == old(cycles.rows)
    ensures r.Ok? ==> r.value == |old(cycles.rows)|
                      && cycles.rows == old(cycles.rows) + [StokvelCycle(stokvel, name, start, end,
                                                                         CycleExpectedTotal(rules, members, stokvel, start, end), Planned)]
    ensures r.Ok? && NoOverlappingCycles(old(cycles.rows)) ==> NoOverlappingCycles(cycles.rows)
  {
    if Le(end, start) {
      return Err(ValidationError("Start date must be before end date"));
    }
    if Lt(start, today) {
      return Err(ValidationError("Start date cannot be in the past"));
    }
    var rows := cycles.rows;
    if exists k :: 0 <= k < |rows| && rows[k].stokvel == stokvel && CyclesOverlap(rows[k], start, end) {
      return Err(ValidationError("Cycle dates overlap with existing cycle"));
    }
    var expected := ComputeCycleExpectedTotal(rules, members, stokvel, start, end);
    var cycle := StokvelCycle(stokvel, name, start, end, expected, Planned);
    var pk := cycles.Create(cycle);
    r := Ok(pk);
    assert forall k :: 0 <= k < |rows| ==> cycles.rows[k] == rows[k];
  }

  /** Every active cycle of the stokvel becomes completed: the bulk update of `activate_cycle`. */
  function CompleteActiveCycles(rows: seq<StokvelCycle>, stokvel: nat): seq<StokvelCycle>
  {
    seq(|rows|, i requires 0 <= i < |rows| =>
      if rows[i].stokvel == stokvel && rows[i].status == Active then rows[i].(status := Completed) else rows[i])
  }

  /**
   * The table after `activate_cycle`: the given cycle is the stokvel's only
   * active one, its previously active cycles are completed, and only
   * statuses change.
   */
  function ActivatedCycles(rows: seq<StokvelCycle>, pk: nat): (after: seq<StokvelCycle>)
    requires pk < |rows|
    ensures |after| == |rows| && after[pk] == rows[pk].(status := Active)
    ensures forall k :: 0 <= k < |after| ==> (after[k].stokvel == rows[pk].stokvel && after[k].status == Active <==> k == pk)
    ensures forall k :: 0 <= k < |rows| && k != pk && rows[k].stokvel == rows[pk].stokvel && rows[k].status == Active
              ==> after[k].status == Completed
    ensures forall k :: 0 <= k < |rows| && k != pk && !(rows[k].stokvel == rows[pk].stokvel && rows[k].status == Active)
              ==> after[k] == rows[k]
    ensures forall k :: 0 <= k < |rows| ==> after[k] == rows[k].(status := after[k].status)
  {
    CompleteActiveCycles(rows, rows[pk].stokvel)[pk := rows[pk].(status := Active)]
  }

  /** `activate_cycle`: the bulk update, then the cycle saved as active. */
  method ActivateCycle(cycles: Table<StokvelCycle>, pk: nat)
    requires pk < |cycles.rows|
    modifies cycles
    ensures cycles.rows == ActivatedCycles(old(cycles.rows), pk)
  {
    var rows := cycles.rows;
    var cycle := rows[pk];
    var completed: seq<StokvelCycle> := [];
    for i := 0 to |rows|
      invariant completed == CompleteActiveCycles(rows[..i], cycle.stokvel)
    {
      var row := rows[i];
      if row.stokvel == cycle.stokvel && row.status == Active {
        row := row.(status := Completed);
      }
      completed := completed + [row];
    }
    assert rows[..|rows|] == rows;
    cycles.Replace(completed);
    cycles.Save(pk, cycle.(status := Active));
  }

  /** The cycles `get_current_cycle` filters for: the stokvel's active cycles with today in their dates. */
  predicate IsCurrentCycle(cycle: StokvelCycle, stokvel: nat, today: Date)
  {
    cycle.stokvel == stokvel && cycle.status == Active && cycle.IsCurrent(today)
  }

  /**
   * `get_current_cycle`, among the first `n` rows: the ordering puts the
   * latest start first; among equal starts the lowest key is taken.
   */
  function CurrentCycleAmong(rows: seq<StokvelCycle>, stokvel: nat, today: Date, n: nat): (r: Option<nat>)
    requires n <= |rows|
    ensures r.Some? ==> r.value < n && IsCurrentCycle(rows[r.value], stokvel, today)
    ensures r.Some? ==> forall k :: 0 <= k < n && IsCurrentCycle(rows[k], stokvel, today) ==>
      Le(rows[k].startDate, rows[r.value].startDate) && (rows[k].startDate == rows[r.value].startDate ==> r.value <= k)
    ensures r.None? ==> forall k :: 0 <= k < n ==> !IsCurrentCycle(rows[k], stokvel, today)
  {
    if n == 0 then None
    else
      var best := CurrentCycleAmong(rows, stokvel, today, n - 1);
      if IsCurrentCycle(rows[n - 1], stokvel, today) && (best.None? || Lt(rows[best.value].startDate, rows[n - 1].startDate))
      then
        if best.Some? then
          var b := rows[best.value].startDate;
          assert forall k :: 0 <= k < n - 1 && IsCurrentCycle(rows[k], stokvel, today) ==> Le(rows[k].startDate, b);
          Some(n - 1)
        else Some(n - 1)
      else best
  }

  function CurrentCycle(rows: seq<StokvelCycle>, stokvel: nat, today: Date): Option<nat>
  {
    CurrentCycleAmong(rows, stokvel, today, |rows|)
  }

  /** Right after a cycle that covers today is activated, it is the stokvel's current cycle. */
  lemma ActivatedCycleIsCurrent(rows: seq<StokvelCycle>, pk: nat, today: Date)
    requires pk < |rows| && rows[pk].IsCurrent(today)
    ensures CurrentCycle(ActivatedCycles(rows, pk), rows[pk].stokvel, today) == Some(pk)
  {
    var after := ActivatedCycles(rows, pk);
    assert IsCurrentCycle(after[pk], rows[pk].stokvel, today);
  }

  // ----- BankAccountService -----

  predicate HasActiveAccount(rows: seq<StokvelBankAccount>, stokvel: nat)
  {
    exists k :: 0 <= k < |rows| && rows[k].stokvel == stokvel && rows[k].isActive
  }

  predicate HasActivePrimary(rows: seq<StokvelBankAccount>, stokvel: nat)
  {
    exists k :: 0 <= k < |rows| && rows[k].stokvel == stokvel && rows[k].isActive && rows[k].isPrimary
  }

  predicate AtMostOnePrimary(rows: seq<StokvelBankAccount>, stokvel: nat)
  {
    forall i, j ::
      (0 <= i < |rows| && 0 <= j < |rows| && rows[i].stokvel == stokvel && rows[j].stokvel == stokvel
       && rows[i].isPrimary && rows[j].isPrimary) ==> i == j
  }

  /** The stokvel has at most one primary account, and an active primary one whenever it has an active account. */
  predicate PrimaryInvariant(rows: seq<StokvelBankAccount>, stokvel: nat)
  {
    AtMostOnePrimary(rows, stokvel) && (HasActiveAccount(rows, stokvel) ==> HasActivePrimary(rows, stokvel))
  }

  /** Appending an active account that is primary, or that joins a stokvel which already has an active account, keeps the invariant. */
  lemma NewAccountKeepsPrimaryInvariant(rows: seq<StokvelBankAccount>, account: StokvelBankAccount)
    requires account.isActive && (account.isPrimary || HasActiveAccount(rows, account.stokvel))
    requires PrimaryInvariant(rows, account.stokvel)
    ensures PrimaryInvariant(SavedAccounts(rows, account, None), account.stokvel)
  {
    var s := account.stokvel;
    var after := SavedAccounts(rows, account, None);
    if account.isPrimary {
      SavedPrimaryIsOnlyPrimary(rows, account, None);
      assert after[|rows|] == account;
    } else {
      assert after == rows + [account];
      assert after[|rows|] == account;
      var p :| 0 <= p < |rows| && rows[p].stokvel == s && rows[p].isActive && rows[p].isPrimary;
      assert after[p] == rows[p];
    }
  }

  /**
   * `add_bank_account`: a blank number or a (bank, number) pair already
   * stored, for any stokvel, is refused; the account is created active, and
   * primary when asked or when the stokvel has no active account.
   */
  method AddBankAccount(accounts: Table<StokvelBankAccount>, stokvel: nat, bankName: string, accountName: string,
                        accountNumber: string, branchCode: string, accountType: string, isPrimary: bool)
    returns (r: Result<nat>)
    modifies accounts
    ensures Strip(accountNumber) == [] ==> r == Err(ValidationError("Account number is required"))
    ensures r.Err? <==> Strip(accountNumber) == []
                        || exists k :: 0 <= k < |old(accounts.rows)| && old(accounts.rows)[k].bankName == bankName
                                       && old(accounts.rows)[k].accountNumber == accountNumber
    ensures r.Err? ==> accounts.rows == old(accounts.rows)
    ensures r.Ok? ==>
      && r.value == |old(accounts.rows)|
      && accounts.rows == SavedAccounts(old(accounts.rows),
           StokvelBankAccount(stokvel, bankName, accountName, accountNumber, branchCode, accountType,
                              isPrimary || !HasActiveAccount(old(accounts.rows), stokvel), true), None)
    ensures r.Ok? && PrimaryInvariant(old(accounts.rows), stokvel) ==> PrimaryInvariant(accounts.rows, stokvel)
  {
    if Strip(accountNumber) == [] {
      return Err(ValidationError("Account number is required"));
    }
    var rows := accounts.rows;
    if exists k :: 0 <= k < |rows| && rows[k].bankName == bankName && rows[k].accountNumber == accountNumber {
      return Err(ValidationError("Bank account already exists"));
    }
    var primary := isPrimary;
    if !HasActiveAccount(rows, stokvel) {
      primary := true;
    }
    var account := StokvelBankAccount(stokvel, bankName, accountName, accountNumber, branchCode, accountType, primary, true);
    if PrimaryInvariant(rows, stokvel) {
      NewAccountKeepsPrimaryInvariant(rows, account);
    }
    var id := SaveStokvelBankAccount(accounts, account, None);
    r := Ok(id);
  }

  /**
   * The table after `set_primary_account`: the account is its stokvel's only
   * primary account, other stokvels' accounts are untouched, and only
   * primary flags change; an active account leaves the invariant holding.
   */
  function PrimarySet(rows: seq<StokvelBankAccount>, pk: nat): (after: seq<StokvelBankAccount>)
    requires pk < |rows|
    ensures |after| == |rows| && after[pk] == rows[pk].(isPrimary := true)
    ensures forall k :: 0 <= k < |after| ==> (after[k].stokvel == rows[pk].stokvel && after[k].isPrimary <==> k == pk)
    ensures forall k :: 0 <= k < |rows| && rows[k].stokvel != rows[pk].stokvel ==> after[k] == rows[k]
    ensures forall k :: 0 <= k < |rows| ==> after[k] == rows[k].(isPrimary := after[k].isPrimary)
    ensures rows[pk].isActive ==> PrimaryInvariant(after, rows[pk].stokvel)
  {
    var s := rows[pk].stokvel;
    var cleared := ClearOtherPrimaries(rows, s, pk);
    SavedPrimaryIsOnlyPrimary(cleared, rows[pk].(isPrimary := true), Some(pk));
    SavedAccounts(cleared, rows[pk].(isPrimary := true), Some(pk))
  }

  /** `set_primary_account`: the bulk update clearing the other primaries, then the save. */
  method SetPrimaryAccount(accounts: Table<StokvelBankAccount>, pk: nat)
    requires pk < |accounts.rows|
    modifies accounts
    ensures accounts.rows == PrimarySet(old(accounts.rows), pk)
  {
    var rows := accounts.rows;
    var account := rows[pk];
    var cleared: seq<StokvelBankAccount> := [];
    for i := 0 to |rows|
      invariant cleared == ClearOtherPrimaries(rows[..i], account.stokvel, pk)
    {
      var row := rows[i];
      if row.stokvel == account.stokvel && row.isPrimary && i != pk {
        row := row.(isPrimary := false);
      }
      cleared := cleared + [row];
    }
    assert rows[..|rows|] == rows;
    accounts.Replace(cleared);
    var _ := SaveStokvelBankAccount(accounts, account.(isPrimary := true), Some(pk));
  }

  /** The account `.first()` returns among the stokvel's other active accounts: the lowest key. */
  function FirstOtherActive(rows: seq<StokvelBankAccount>, pk: nat): (r: Option<nat>)
    requires pk < |rows|
    ensures r.Some? ==> r.value < |rows| && r.value != pk && rows[r.value].stokvel == rows[pk].stokvel && rows[r.value].isActive
    ensures r.None? ==> forall k :: 0 <= k < |rows| && k != pk && rows[k].stokvel == rows[pk].stokvel ==> !rows[k].isActive
  {
    OtherActiveFrom(rows, pk, 0)
  }

  function OtherActiveFrom(rows: seq<StokvelBankAccount>, pk: nat, from: nat): (r: Option<nat>)
    requires pk < |rows| && from <= |rows|
    ensures r.Some? ==> from <= r.value < |rows| && r.value != pk && rows[r.value].stokvel == rows[pk].stokvel && rows[r.value].isActive
    ensures r.None? ==> forall k :: from <= k < |rows| && k != pk && rows[k].stokvel == rows[pk].stokvel ==> !rows[k].isActive
    decreases |rows| - from
  {
    if from == |rows| then None
    else if from != pk && rows[from].stokvel == rows[pk].stokvel && rows[from].isActive then Some(from)
    else OtherActiveFrom(rows, pk, from + 1)
  }

  /**
   * `deactivate_account` as written: the promoted account is a fresh copy
   * that is discarded, and a second fresh copy is saved unchanged; then the
   * account is saved inactive and not primary.
   */
  function DeactivatedAsWritten(rows: seq<StokvelBankAccount>, pk: nat): (after: seq<StokvelBankAccount>)
    requires pk < |rows|
    ensures |after| == |rows| && after[pk] == rows[pk].(isActive := false, isPrimary := false)
  {
    var other := FirstOtherActive(rows, pk);
    var promoted := if rows[pk].isPrimary && other.Some? then SavedAccounts(rows, rows[other.value], Some(other.value)) else rows;
    SavedAccounts(promoted, rows[pk].(isActive := false, isPrimary := false), Some(pk))
  }

  /**
   * As written, deactivating the only primary account of a stokvel that has
   * other active accounts leaves it with active accounts and no primary one.
   */
  lemma DeactivatingPrimaryLosesPrimary(rows: seq<StokvelBankAccount>, pk: nat)
    requires pk < |rows| && rows[pk].isPrimary && AtMostOnePrimary(rows, rows[pk].stokvel)
    requires FirstOtherActive(rows, pk).Some?
    ensures var after := DeactivatedAsWritten(rows, pk);
      HasActiveAccount(after, rows[pk].stokvel) && !HasActivePrimary(after, rows[pk].stokvel)
  {
    var s := rows[pk].stokvel;
    var k := FirstOtherActive(rows, pk).value;
    assert !rows[k].isPrimary;
    var promoted := SavedAccounts(rows, rows[k], Some(k));
    assert promoted == rows[k := rows[k]] == rows;
    var after := DeactivatedAsWritten(rows, pk);
    assert after == rows[pk := rows[pk].(isActive := false, isPrimary := false)];
    assert after[k].isActive;
  }

  /**
   * `deactivate_account` with the promotion saved: the first other active
   * account of the stokvel becomes its only primary account, then the
   * account is saved inactive and not primary. The invariant is kept.
   */
  function Deactivated(rows: seq<StokvelBankAccount>, pk: nat): (after: seq<StokvelBankAccount>)
    requires pk < |rows|
    ensures |after| == |rows| && after[pk] == rows[pk].(isActive := false, isPrimary := false)
    ensures rows[pk].isPrimary && FirstOtherActive(rows, pk).Some? ==>
      var k := FirstOtherActive(rows, pk).value;
      after[k].isPrimary && after[k].isActive
      && forall i :: 0 <= i < |after| && after[i].stokvel == rows[pk].stokvel && after[i].isPrimary ==> i == k
    ensures forall k :: 0 <= k < |rows| && k != pk ==> after[k] == rows[k].(isPrimary := after[k].isPrimary)
    ensures PrimaryInvariant(rows, rows[pk].stokvel) ==> PrimaryInvariant(after, rows[pk].stokvel)
  {
    var s := rows[pk].stokvel;
    var other := FirstOtherActive(rows, pk);
    if rows[pk].isPrimary && other.Some? then
      var k := other.value;
      var promoted := SavedAccounts(rows, rows[k].(isPrimary := true), Some(k));
      SavedPrimaryIsOnlyPrimary(rows, rows[k].(isPrimary := true), Some(k));
      var after := SavedAccounts(promoted, rows[pk].(isActive := false, isPrimary := false), Some(pk));
      assert after == promoted[pk := rows[pk].(isActive := false, isPrimary := false)];
      assert after[k].isPrimary && after[k].isActive;
      after
    else
      var after := SavedAccounts(rows, rows[pk].(isActive := false, isPrimary := false), Some(pk));
      assert after == rows[pk := rows[pk].(isActive := false, isPrimary := false)];
      RetiringKeepsPrimaryInvariant(rows, pk);
      after
  }

  /** Retiring an account that is not the primary one, or the last active one, keeps the invariant. */
  lemma RetiringKeepsPrimaryInvariant(rows: seq<StokvelBankAccount>, pk: nat)
    requires pk < |rows| && !(rows[pk].isPrimary && FirstOtherActive(rows, pk).Some?)
    ensures var s, after := rows[pk].stokvel, rows[pk := rows[pk].(isActive := false, isPrimary := false)];
      PrimaryInvariant(rows, s) ==> PrimaryInvariant(after, s)
  {
    var s, after := rows[pk].stokvel, rows[pk := rows[pk].(isActive := false, isPrimary := false)];
    if PrimaryInvariant(rows, s) && HasActiveAccount(after, s) {
      var j :| 0 <= j < |after| && after[j].stokvel == s && after[j].isActive;
      assert j != pk && rows[j].isActive;
      var p :| 0 <= p < |rows| && rows[p].stokvel == s && rows[p].isActive && rows[p].isPrimary;
      assert p != pk;
      assert after[p] == rows[p];
    }
  }

  /** `deactivate_account` with the promotion saved. */
  method DeactivateAccount(accounts: Table<StokvelBankAccount>, pk: nat)
    requires pk < |accounts.rows|
    modifies accounts
    ensures accounts.rows == Deactivated(old(accounts.rows), pk)
  {
    var rows := accounts.rows;
    var account := rows[pk];
    var other := FirstOtherActive(rows, pk);
    if account.isPrimary && other.Some? {
      var k := other.value;
      var _ := SaveStokvelBankAccount(accounts, rows[k].(isPrimary := true), Some(k));
    }
    var _ := SaveStokvelBankAccount(accounts, account.(isActive := false, isPrimary := false), Some(pk));
  }

  // ----- StokvelValidationService -----

  const NO_CONSTITUTION := "Stokvel constitution not configured"
  const NO_CONTRIBUTION_RULES := "No active contribution rules defined"
  const NO_PENALTY_RULES := "No penalty rules defined"
  const NO_ACTIVE_ACCOUNTS := "No active bank accounts configured"
  const NO_PRIMARY_ACCOUNT := "No primary bank account set"

  /** The set-up messages have different lengths, so no two are equal. */
  lemma SetupMessagesDistinct()
    ensures |NO_CONSTITUTION| == 35 && |NO_CONTRIBUTION_RULES| == 36 && |NO_PENALTY_RULES| == 24
    ensures |NO_ACTIVE_ACCOUNTS| == 34 && |NO_PRIMARY_ACCOUNT| == 27
  {
  }

  /** Everything `validate_stokvel_setup` reads about one stokvel. */
  datatype StokvelSetup = StokvelSetup(
    stokvel: nat,
    constitution: Option<Constitution>,
    contributionRules: seq<ContributionRule>,
    penaltyRules: seq<PenaltyRule>,
    accounts: seq<StokvelBankAccount>,
    members: seq<Member>)

  predicate HasActivePenaltyRule(rows: seq<PenaltyRule>, stokvel: nat)
  {
    exists k :: 0 <= k < |rows| && rows[k].stokvel == stokvel && rows[k].isActive
  }

  /** The stokvel has too few active members for its constitution. */
  predicate BelowMinimum(setup: StokvelSetup)
  {
    setup.constitution.Some? && ActiveMemberCount(setup.members, setup.stokvel) < setup.constitution.value.minimumMembers
  }

  function Flag(condition: bool, message: string): seq<string>
  {
    if condition then [message] else []
  }

  /** The issues `validate_stokvel_setup` reports, in the order it checks them. */
  function SetupIssues(setup: StokvelSetup, today: Date): seq<string>
  {
    IssueList(setup.constitution.None?,
              ActiveContributionRules(setup.contributionRules, setup.stokvel, today) == {},
              !HasActivePenaltyRule(setup.penaltyRules, setup.stokvel),
              !HasActiveAccount(setup.accounts, setup.stokvel),
              !HasActivePrimary(setup.accounts, setup.stokvel),
              if BelowMinimum(setup)
              then [BelowMinimumIssue(ActiveMemberCount(setup.members, setup.stokvel), setup.constitution.value.minimumMembers)]
              else [])
  }

  function IssueList(noConstitution: bool, noRules: bool, noPenaltyRules: bool, noAccounts: bool, noPrimary: bool,
                     belowMinimum: seq<string>): seq<string>
  {
    Flag(noConstitution, NO_CONSTITUTION) + Flag(noRules, NO_CONTRIBUTION_RULES) + Flag(noPenaltyRules, NO_PENALTY_RULES)
    + Flag(noAccounts, NO_ACTIVE_ACCOUNTS) + Flag(noPrimary, NO_PRIMARY_ACCOUNT) + belowMinimum
  }

  /**
   * Each set-up message is reported exactly when its piece is missing, the
   * member-count issue exactly when the constitution's minimum is not met,
   * and nothing else is reported.
   */
  lemma SetupIssuesMeaning(setup: StokvelSetup, today: Date)
    ensures var issues := SetupIssues(setup, today);
      && (NO_CONSTITUTION in issues <==> setup.constitution.None?)
      && (NO_CONTRIBUTION_RULES in issues <==> ActiveContributionRules(setup.contributionRules, setup.stokvel, today) == {})
      && (NO_PENALTY_RULES in issues <==> !HasActivePenaltyRule(setup.penaltyRules, setup.stokvel))
      && (NO_ACTIVE_ACCOUNTS in issues <==> !HasActiveAccount(setup.accounts, setup.stokvel))
      && (NO_PRIMARY_ACCOUNT in issues <==> !HasActivePrimary(setup.accounts, setup.stokvel))
      && (setup.constitution.Some? ==>
            (BelowMinimumIssue(ActiveMemberCount(setup.members, setup.stokvel), setup.constitution.value.minimumMembers) in issues
             <==> BelowMinimum(setup)))
      && |issues| <= 6
  {
    var below := if BelowMinimum(setup)
                 then [BelowMinimumIssue(ActiveMemberCount(setup.members, setup.stokvel), setup.constitution.value.minimumMembers)]
                 else [];
    IssueListMeaning(setup.constitution.None?,
                     ActiveContributionRules(setup.contributionRules, setup.stokvel, today) == {},
                     !HasActivePenaltyRule(setup.penaltyRules, setup.stokvel),
                     !HasActiveAccount(setup.accounts, setup.stokvel),
                     !HasActivePrimary(setup.accounts, setup.stokvel),
                     below);
    if setup.constitution.Some? {
      assert BelowMinimumIssue(ActiveMemberCount(setup.members, setup.stokvel), setup.constitution.value.minimumMembers)[0] == 'B';
    }
  }

  /** Each fixed message is in the list exactly when its flag is set, and a message starting with 'B' only when it is among `belowMinimum`. */
  lemma IssueListMeaning(noConstitution: bool, noRules: bool, noPenaltyRules: bool, noAccounts: bool, noPrimary: bool,
                         belowMinimum: seq<string>)
    requires |belowMinimum| <= 1 && forall i :: 0 <= i < |belowMinimum| ==> |belowMinimum[i]| > 0 && belowMinimum[i][0] == 'B'
    ensures var issues := IssueList(noConstitution, noRules, noPenaltyRules, noAccounts, noPrimary, belowMinimum);
      && (NO_CONSTITUTION in issues <==> noConstitution)
      && (NO_CONTRIBUTION_RULES in issues <==> noRules)
      && (NO_PENALTY_RULES in issues <==> noPenaltyRules)
      && (NO_ACTIVE_ACCOUNTS in issues <==> noAccounts)
      && (NO_PRIMARY_ACCOUNT in issues <==> noPrimary)
      && (forall x :: |x| > 0 && x[0] == 'B' ==> (x in issues <==> x in belowMinimum))
      && |issues| <= 6
  {
    SetupMessagesDistinct();
    assert NO_CONSTITUTION[0] == 'S';
    assert NO_CONTRIBUTION_RULES[0] == 'N' && NO_PENALTY_RULES[0] == 'N' && NO_ACTIVE_ACCOUNTS[0] == 'N' && NO_PRIMARY_ACCOUNT[0] == 'N';
  }

  /** `validate_stokvel_setup`: the issues appended one check at a time; valid exactly when there is none. */
  method ValidateStokvelSetup(setup: StokvelSetup, today: Date) returns (valid: bool, issues: seq<string>)
    ensures issues == SetupIssues(setup, today)
    ensures valid <==> issues == []
  {
    var s := setup.stokvel;
    var noConstitution := setup.constitution.None?;
    var noRules := ActiveContributionRules(setup.contributionRules, s, today) == {};
    var noPenaltyRules := !HasActivePenaltyRule(setup.penaltyRules, s);
    var noAccounts := !HasActiveAccount(setup.accounts, s);
    var noPrimary := !HasActivePrimary(setup.accounts, s);
    issues := [];
    if noConstitution {
      issues := issues + [NO_CONSTITUTION];
    }
    assert issues == Flag(noConstitution, NO_CONSTITUTION);
    ghost var before := issues;
    if noRules {
      issues := issues + [NO_CONTRIBUTION_RULES];
    }
    assert issues == before + Flag(noRules, NO_CONTRIBUTION_RULES);
    before := issues;
    if noPenaltyRules {
      issues := issues + [NO_PENALTY_RULES];
    }
    assert issues == before + Flag(noPenaltyRules, NO_PENALTY_RULES);
    before := issues;
    if noAccounts {
      issues := issues + [NO_ACTIVE_ACCOUNTS];
    }
    assert issues == before + Flag(noAccounts, NO_ACTIVE_ACCOUNTS);
    before := issues;
    if noPrimary {
      issues := issues + [NO_PRIMARY_ACCOUNT];
    }
    assert issues == before + Flag(noPrimary, NO_PRIMARY_ACCOUNT);
    var below: seq<string> := [];
    if setup.constitution.Some? {
      var active := ActiveMemberCount(setup.members, s);
      if active < setup.constitution.value.minimumMembers {
        below := [BelowMinimumIssue(active, setup.constitution.value.minimumMembers)];
      }
    }
    assert issues == IssueList(noConstitution, noRules, noPenaltyRules, noAccounts, noPrimary, []);
    issues := issues + below;
    valid := |issues| == 0;
  }

  /**
   * `can_accept_new_members`: refused when the stokvel is not accepting, not
   * active, or already at a truthy maximum; the message names the reason.
   */
  function CanAcceptNewMembers(record: Stokvel, constitution: Option<Constitution>, members: seq<Member>, stokvel: nat)
    : (r: (bool, string))
    ensures r.0 <==> record.isAcceptingMembers && record.isActive
                     && !(constitution.Some? && Truthy(constitution.value.maximumMembers)
                          && AccountsModels.MemberCount(members, stokvel) >= constitution.value.maximumMembers.value)
    ensures !record.isAcceptingMembers ==> r == (false, "Stokvel is not accepting new members")
    ensures record.isAcceptingMembers && !record.isActive ==> r == (false, "Stokvel is not active")
    ensures r.0 ==> r.1 == "Can accept new members"
  {
    if !record.isAcceptingMembers then (false, "Stokvel is not accepting new members")
    else if !record.isActive then (false, "Stokvel is not active")
    else if constitution.Some? && Truthy(constitution.value.maximumMembers)
            && AccountsModels.MemberCount(members, stokvel) >= constitution.value.maximumMembers.value then
      (false, "Maximum member limit reached (" + NatToString(AccountsModels.MemberCount(members, stokvel)) + "/"
              + IntToString(constitution.value.maximumMembers.value) + ")")
    else (true, "Can accept new members")
  }

  /** Admitting one member to a stokvel that can accept members never takes it past a truthy maximum. */
  lemma AcceptingStaysWithinMaximum(record: Stokvel, constitution: Option<Constitution>, members: seq<Member>, newMember: Member)
    requires CanAcceptNewMembers(record, constitution, members, newMember.stokvel).0
    requires constitution.Some? && Truthy(constitution.value.maximumMembers)
    ensures AccountsModels.MemberCount(members + [newMember], newMember.stokvel) <= constitution.value.maximumMembers.value
  {
    assert (members + [newMember])[..|members|] == members;
  }
}
