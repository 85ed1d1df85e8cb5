/**
 * `ContributionCalculator.calculate_expected_contribution` (stokvel/utils.py):
 * the sum of the amounts of a stokvel's active rules of one contribution type
 * whose validity window meets a period.
 *
 * As written the second filter names `models.Q`, and stokvel/utils.py never
 * imports `models`: every call raises `NameError`. `ExpectedContributionAsWritten`
 * records that; `CalculateExpectedContribution` is the lookup the query spells out.
 */
module ExpectedContribution
{
  import opened Common
  import opened Dates
  import opened StokvelModels

  /** The rule passes both filters: same stokvel and type, active, starting by the period's end and not ending before its start. */
  predicate CountsForPeriod(rule: ContributionRule, stokvel: nat, contributionType: ContributionType, periodStart: Date, periodEnd: Date)
  {
    rule.stokvel == stokvel && rule.contributionType == contributionType && rule.isActive
    && Le(rule.effectiveFrom, periodEnd)
    && (rule.effectiveUntil.None? || Le(periodStart, rule.effectiveUntil.value))
  }

  /** The total the loop accumulates over the rules that count, in key order. */
  function ExpectedTotal(rules: seq<ContributionRule>, stokvel: nat, contributionType: ContributionType, periodStart: Date, periodEnd: Date): Money
  {
    if rules == [] then 0.0
    else
      var last := rules[|rules| - 1];
      ExpectedTotal(rules[..|rules| - 1], stokvel, contributionType, periodStart, periodEnd)
      + (if CountsForPeriod(last, stokvel, contributionType, periodStart, periodEnd) then last.amount else 0.0)
  }

  /** The call as written: the `models.Q` lookup raises before any rule is read. */
  function ExpectedContributionAsWritten(rules: seq<ContributionRule>, stokvel: nat, contributionType: ContributionType, periodStart: Date, periodEnd: Date): Result<Money>
  {
    Err(NameError("models"))
  }

  /** As written no stokvel ever gets an expected amount, not even one whose rules would sum to a positive total. */
  lemma ExpectedContributionAlwaysRaises(rule: ContributionRule, periodStart: Date, periodEnd: Date)
    requires CountsForPeriod(rule, rule.stokvel, rule.contributionType, periodStart, periodEnd) && rule.amount > 0.0
    ensures ExpectedContributionAsWritten([rule], rule.stokvel, rule.contributionType, periodStart, periodEnd).Err?
    ensures ExpectedTotal([rule], rule.stokvel, rule.contributionType, periodStart, periodEnd) == rule.amount
  {
    assert [rule][..0] == [];
  }

  /** The corrected call: the rules that count, summed in a loop. */
  method CalculateExpectedContribution(rules: seq<ContributionRule>, stokvel: nat, contributionType: ContributionType, periodStart: Date, periodEnd: Date)
    returns (total: Money)
    ensures total == ExpectedTotal(rules, stokvel, contributionType, periodStart, periodEnd)
  {
    total := 0.0;
    for i := 0 to |rules|
      invariant total == ExpectedTotal(rules[..i], stokvel, contributionType, periodStart, periodEnd)
    {
      assert rules[..i + 1][..i] == rules[..i];
      if CountsForPeriod(rules[i], stokvel, contributionType, periodStart, periodEnd) {
        total := total + rules[i].amount;
      }
    }
    assert rules[..|rules|] == rules;
  }

  /** A rule in force on some day of the period is counted for it. */
  lemma RuleActiveInPeriodCounts(rule: ContributionRule, d: Date, periodStart: Date, periodEnd: Date)
    requires rule.IsActiveForDate(d) && Le(periodStart, d) && Le(d, periodEnd)
    ensures CountsForPeriod(rule, rule.stokvel, rule.contributionType, periodStart, periodEnd)
  {
    ActiveOnIff(rule.isActive, rule.effectiveFrom, rule.effectiveUntil, d);
    LeTransitive(rule.effectiveFrom, d, periodEnd);
    if rule.effectiveUntil.Some? {
      LeTransitive(periodStart, d, rule.effectiveUntil.value);
    }
  }

  /** With no rule counting the expected amount is zero, and non-negative amounts give a non-negative total. */
  lemma {:induction false} ExpectedTotalBounds(rules: seq<ContributionRule>, stokvel: nat, contributionType: ContributionType, periodStart: Date, periodEnd: Date)
    ensures (forall k :: 0 <= k < |rules| ==> !CountsForPeriod(rules[k], stokvel, contributionType, periodStart, periodEnd))
            ==> ExpectedTotal(rules, stokvel, contributionType, periodStart, periodEnd) == 0.0
    ensures (forall k :: 0 <= k < |rules| ==> rules[k].amount >= 0.0)
            ==> ExpectedTotal(rules, stokvel, contributionType, periodStart, periodEnd) >= 0.0
  {
    if rules != [] {
      var prefix := rules[..|rules| - 1];
      ExpectedTotalBounds(prefix, stokvel, contributionType, periodStart, periodEnd);
      assert forall k :: 0 <= k < |prefix| ==> prefix[k] == rules[k];
    }
  }

  /** Appending a rule that counts raises the expected amount by exactly its amount. */
  lemma NewRuleAddsItsAmount(rules: seq<ContributionRule>, rule: ContributionRule, periodStart: Date, periodEnd: Date)
    requires CountsForPeriod(rule, rule.stokvel, rule.contributionType, periodStart, periodEnd)
    ensures ExpectedTotal(rules + [rule], rule.stokvel, rule.contributionType, periodStart, periodEnd)
            == ExpectedTotal(rules, rule.stokvel, rule.contributionType, periodStart, periodEnd) + rule.amount
  {
    assert (rules + [rule])[..|rules|] == rules;
  }
}
