# Stokvela savings-association rules, modelled in Dafny

Stokvela is a Django application that runs a stokvel, a South African
rotating savings association. A stokvel has a constitution with member
bounds and a probation period. It has contribution rules and penalty rules,
each valid over a date window. Contributions are collected per payment
period, inside cycles. The stokvel and each member hold bank accounts, and
exactly one of them should be primary. People join by applying; they
enter as probation members and may later become active, take a leadership
role, and eventually exit.

This project models that core and proves what it promises:

- **Dates and periods** (`dates.dfy`, `contribution_calculator.dfy`).
  Month ends, due days clamped to the month, calendar quarters and weekday
  counting. The monthly and quarterly generators that expand a date range
  into payment periods clipped to the range.
- **Rules and penalties** (`stokvel_models.dfy`, `penalty_calculator.dfy`,
  `expected_contribution.dfy`). The validity window of a rule (end date
  inclusive). The penalty calculation: grace period, then fixed, percentage,
  daily or tiered, then an optional cap. The late and short payment
  wrappers, and the expected contribution of a period.
- **Payment records** (`finances.dfy`). Payment periods, contributions,
  penalties, transactions, bank statement imports and payouts. These are
  classes whose methods update their fields in place.
- **Services** (`stokvel_services.dfy`, `accounts_services.dfy`).
  Constitution updates and compliance. Creating and retiring contribution
  and penalty rules. Cycles. Stokvel and member bank accounts, with the
  one-primary-account invariant. Stokvel set-up validation. The member
  status table and role guards, membership applications, probation, profile
  updates and verification.
- **Records** (`accounts_models.dfy`). Address joining, bank reference
  lists, member number allocation, the primary-account bulk update on save,
  and approving or rejecting an application.
- **Utilities and reports** (`validation_utils.dfy`, `accounts_utils.dfy`,
  `report_utils.dfy`). The South African ID number (13 digits, a YYMMDD
  birth date and a Luhn check digit), bank account numbers, contribution
  amounts, phone number normalisation to `+27…`, profile completion,
  username generation, probation eligibility, application priority, and
  the rate formulas of the stokvel reports.
- **Form validators** (`stokvel_forms.dfy`, `accounts_forms.dfy`). The
  `clean_*` and `clean` methods of both apps' forms.

Some conventions hold throughout:

- **Tables.** A database table is a `Tables.Table<T>` whose `rows` sequence
  is indexed by primary key in creation order.
- **Values.** Money is an exact `real`. Dates are checked calendar dates.
  Date differences go through the proleptic Gregorian day number, as
  Python's `toordinal` computes it.
- **Time.** "Now" and "today" are parameters.
- **Errors.** An exception is an `Err` carrying the Django or Python error
  kind and its message.
- **Shared modules.** `common.dfy` holds the result and option types, Python
  truthiness and the `Rate` formula. `strings.dfy` holds ASCII string
  functions: `strip`, `isdigit`, `split`, `join`, `zfill`, digit parsing and
  code-point order.

Where the code has an evident bug, the model has both a definition that
follows the code as written and the corrected definition. The rest of the
model uses the corrected one. See "## Findings".

## Model

| member | source | states |
|---|---|---|
| Common.Rate | stokvel/utils.py:297 | the rate formula used throughout: 0 when the denominator is not positive, otherwise rate × denominator = numerator × 100 |
| Common.RateBounds | stokvel/utils.py:297 | a numerator between 0 and the denominator gives a rate within 0..100, and exactly 100 when they are equal |
| Strings.ParseNatToString | accounts/models.py:160-165 | `int(str(n)) == n`: formatting a number and parsing it back round-trips |
| Strings.NatToStringInjective | accounts/models.py:165 | different numbers never format to the same digits |
| Strings.ZeroFill | accounts/models.py:165 | `zfill`: a string at least as long as the width is kept, a shorter one gets exactly the missing zeros in front |
| Strings.ParseIgnoresLeadingZeros | accounts/models.py:160-165 | leading zeros do not change the parsed value, so `int("007") == 7` |
| Strings.StripEmptyIffAllSpace | accounts/utils.py:45-50 | `strip()` leaves nothing exactly when every character is whitespace |
| Strings.Split | accounts/models.py:186 | `split(',')` gives one piece more than there are separators, with no separator inside a piece |
| Strings.SplitJoinRoundTrip | accounts/models.py:186 | joining the pieces of `split(sep)` with `sep` gives back the original text |
| Strings.JoinLength | accounts/models.py:75 | `', '.join` holds every part plus one separator between each neighbouring pair; no parts give the empty string |
| Strings.KeepDigitsOfDigits | accounts/utils.py:108 | removing non-digits from a string of digits changes nothing |
| Strings.LexLessAsymmetric | accounts/models.py:156-158 | code-point order never holds both ways |
| Strings.LexLessTotal | accounts/models.py:156-158 | any two different strings are ordered one way or the other |
| Strings.LexLessTransitive | accounts/models.py:156-158 | code-point order is transitive, so a descending order has a first element |
| Dates.MonthEnd | stokvel/utils.py:14-18 | the month's last day lies in the requested year and month |
| Dates.DaysInMonth | stokvel/utils.py:17 | `calendar.monthrange(y, m)[1]` is between 28 and 31 |
| Dates.MonthStart | stokvel/utils.py:86 | the first day lies in the requested year and month |
| Dates.MonthBounds | stokvel/utils.py:14-18 | every day of a month lies between the month's first day and `get_month_end_date`, and is the end exactly when it is the month's last day |
| Dates.DueDateForMonth | stokvel/utils.py:20-30 | the due date always falls in the month; a due day at or past the month's length gives the month end, and a smaller one gives that day |
| Dates.QuarterDates | stokvel/utils.py:33-44 | quarters 1-4 give the first day of their first month and the last day of their third month; any other quarter raises ValueError with the source's message |
| Dates.QuarterContainsMonth | stokvel/utils.py:33-44 | the four quarters cover the year: month m lies within quarter (m+2)/3 |
| Dates.Max | stokvel/utils.py:95 | `max` of two dates is one of them and no earlier than either |
| Dates.Min | stokvel/utils.py:96 | `min` of two dates is one of them and no later than either |
| Dates.OrdinalOrder | stokvel/utils.py:52-56 | comparing dates field by field agrees with comparing their day numbers, in both directions |
| Dates.BusinessDaysBetween | stokvel/utils.py:47-58 | the day-by-day loop returns the count of Monday-to-Friday days from start to end inclusive; when start is not after an end of 31 December 9999, the step past `date.max` raises OverflowError instead |
| Dates.BusinessDaysOfOneDay | stokvel/utils.py:61-63 | a one-day range counts one business day exactly when `is_weekend` is false |
| Dates.BusinessDaysAtMostDays | stokvel/utils.py:47-58 | never more business days than days in the range, and none for a reversed range |
| Dates.FullWeekHasFiveBusinessDays | stokvel/utils.py:47-58 | any seven consecutive days hold exactly five business days |
| Dates.WeekdayShift | stokvel/utils.py:52-57 | stepping one day at a time moves the weekday on by one, wrapping from Sunday back to Monday |
| Dates.WeekdayOfOrdinal | stokvel/utils.py:54 | the weekday is always in 0..6 |
| Dates.Weekday | stokvel/utils.py:61-63 | `date.weekday()` is always in 0..6 |
| Dates.NewYear2024IsMonday | stokvel/utils.py:61-63 | the weekday numbering matches the calendar: 1 January 2024 is a Monday |
| Dates.LeTransitive | stokvel/utils.py:95-96 | date order is transitive |
| ContributionCalculator.CalculateMonthlyPeriods | stokvel/utils.py:70-107 | the month-by-month walk returns exactly the specified list: one candidate per month of the range, clipped to it; a range that is not reversed and ends in December 9999 raises ValueError when the walk steps to year 10000 |
| ContributionCalculator.MonthlyPeriodsOnePerMonth | stokvel/utils.py:79-107 | for a range that is not reversed: one entry per calendar month from start's month to end's month, in increasing order; each lies within the range and its own month and is due on that month's due date |
| ContributionCalculator.MonthStepFits | stokvel/utils.py:84-101 | the month being walked overlaps the range, and its candidate is the next one the specification lists |
| ContributionCalculator.MonthlyPeriodsAt | stokvel/utils.py:79-107 | the candidate for a month of the range sits at that month's offset |
| ContributionCalculator.MonthlyCandidateFits | stokvel/utils.py:88-98 | a month of the range gives an entry clipped to the range, inside its month and due on the month's due date |
| ContributionCalculator.MonthIndexRoundTrip | stokvel/utils.py:100-104 | month numbering round-trips, so consecutive months differ by one |
| ContributionCalculator.CalculateQuarterlyPeriods | stokvel/utils.py:110-138 | the year-and-quarter loops return exactly the specified list: the candidate of every quarter touching the range, in order |
| ContributionCalculator.QuarterTouchesIffBetween | stokvel/utils.py:122-124 | the generator's intersection test holds exactly for the quarters from start's quarter to end's quarter |
| ContributionCalculator.QuarterStep | stokvel/utils.py:118-138 | one step of the quarterly walk keeps a quarter exactly when it is the next one specified |
| ContributionCalculator.QuarterlyPeriodsAt | stokvel/utils.py:117-138 | the candidate for a quarter of the range sits at that quarter's offset |
| ContributionCalculator.QuarterIndexRoundTrip | stokvel/utils.py:117-121 | quarter numbering round-trips |
| ContributionCalculator.QuarterlyCandidateFits | stokvel/utils.py:125-134 | a touching quarter's entry is clipped to the range, and its due date is the unclipped quarter end |
| ContributionCalculator.QuarterlyPeriodsFit | stokvel/utils.py:117-138 | every quarterly entry belongs to a quarter that touches the range, lies inside the range and is due on the quarter's last day; no touching quarter is missed |
| ContributionCalculator.ReversedRangeInOneQuarter | stokvel/utils.py:117-138 | when start is after end within one quarter, the quarterly generator still emits that quarter with its start after its end, while the monthly one emits nothing |
| ExpectedContribution.CalculateExpectedContribution | stokvel/utils.py:141-166 | the loop returns the sum of the amounts of the rules that pass both filters |
| ExpectedContribution.ExpectedContributionAlwaysRaises | stokvel/utils.py:155-160 | as written, the call raises NameError even when a rule counts with a positive amount |
| ExpectedContribution.RuleActiveInPeriodCounts | stokvel/utils.py:152-160 | a rule in force on some day of the period is counted for it |
| ExpectedContribution.ExpectedTotalBounds | stokvel/utils.py:150-166 | no counting rule gives 0, and non-negative amounts give a non-negative total |
| ExpectedContribution.NewRuleAddsItsAmount | stokvel/utils.py:162-163 | a further counting rule raises the total by exactly its amount |
| PenaltyCalculator.RuleAppliesIffActive | stokvel/utils.py:188-196 | the lookup filters select exactly the rules of the stokvel and type that `is_active_for_date` accepts |
| PenaltyCalculator.FirstApplicable | stokvel/utils.py:188-197 | `.first()` of the filter: a rule that applies when one does, and none exactly when none applies |
| PenaltyCalculator.LatePaymentPenalty | stokvel/utils.py:173-203 | (0, None) for a payment on or before the due date or with no rule; otherwise an applicable late-payment rule applied to the days late |
| PenaltyCalculator.LatePaymentIsDaysLate | stokvel/utils.py:183-186 | a late payment is at least one day late |
| PenaltyCalculator.LateLookupRaises | stokvel/utils.py:195 | as written, every late payment raises NameError |
| PenaltyCalculator.LatePenaltyAgreesOnTime | stokvel/utils.py:183-186 | where the code as written returns, it agrees with the corrected one |
| PenaltyCalculator.LatePaymentExample | stokvel/utils.py:173-203 | ten days late under a R50 fixed rule with 3 days' grace costs R50, and raises as written |
| PenaltyCalculator.InsufficientPaymentPenalty | stokvel/utils.py:206-234 | (0, None) for a full payment or with no rule; otherwise an applicable rule applied to the shortage with 0 days late |
| PenaltyCalculator.InsufficientPenaltyNeedsNegativeGrace | stokvel/utils.py:234 | with every grace period at 0 or more, the short-payment penalty is always 0 |
| PenaltyCalculator.InsufficientLookupRaises | stokvel/utils.py:226 | as written, every short payment raises NameError |
| ValidationUtils.ValidateSouthAfricanId | stokvel/utils.py:371-414 | the digit loop accepts exactly 13 digits with a real YYMMDD date and a last digit equal to the Luhn check digit of the first twelve |
| ValidationUtils.IdBirthYear | stokvel/utils.py:383-386 | two-digit years 00-30 map to the 2000s and 31-99 to the 1900s, keeping the last two digits |
| ValidationUtils.CheckDigitCompletesLuhnSum | stokvel/utils.py:402-414 | the check digit matches exactly when the Luhn sum of all 13 digits is a multiple of ten |
| ValidationUtils.SingleDigitErrorDetected | stokvel/utils.py:402-414 | changing any one digit of a valid ID number makes it invalid |
| ValidationUtils.LuhnDetectsOneChangedDigit | stokvel/utils.py:402-414 | a multiple-of-ten Luhn sum stops being one when a single digit changes |
| ValidationUtils.LuhnTermInjective | stokvel/utils.py:409-411 | doubling with 9 cast out sends different digits to different terms |
| ValidationUtils.LuhnSumOneDigitChanged | stokvel/utils.py:403-411 | changing one digit changes the sum by the change in that digit's term |
| ValidationUtils.ExampleIdIsValid | stokvel/utils.py:371-414 | "8001015009087" (born 1 January 1980) is accepted |
| ValidationUtils.ValidateBankAccountNumber | stokvel/utils.py:417-433 | accepted exactly when every character is a digit or a space and there are 8 to 12 digits |
| ValidationUtils.BankAccountIgnoresSpaces | stokvel/utils.py:424-433 | a number and the same number without its spaces are judged alike |
| ValidationUtils.RemoveSpacesKeepsDigits | stokvel/utils.py:424-425 | removing spaces shortens by the space count and leaves only digits exactly when nothing else was there |
| ValidationUtils.ValidateContributionAmount | stokvel/utils.py:436-449 | valid exactly when 0 < amount ≤ 1,000,000 and at least a truthy minimum; each rejection carries its own reason |
| ValidationUtils.MinimumAboveCeilingRejectsAll | stokvel/utils.py:436-449 | a minimum above one million makes every amount fail |
| StokvelReportUtils.MemberStatistics | stokvel/utils.py:242-265 | with the percentages collected as intended: the total; per reported status its count, at most the total; a percentage exactly when there are members: the count's `Rate` over the total (rate × total = count × 100), within 0..100 |
| StokvelReportUtils.MemberStatisticsAsWritten | stokvel/utils.py:258-265 | as written, the call raises RuntimeError exactly when the stokvel has members; an empty stokvel gets zero counts and no percentages |
| StokvelReportUtils.OneMemberStatisticsRaise | stokvel/utils.py:258-265 | a stokvel with one active member already makes the statistics raise, where the intended report gives 100 per cent active |
| StokvelReportUtils.Shares | stokvel/utils.py:250-263 | each share carries its status's count, and exactly when the stokvel has members the percentage `Rate(count, total)` |
| StokvelReportUtils.StatusCountsPartitionTotal | stokvel/utils.py:242-265 | every member has exactly one of the seven statuses, so the counts sum to the total |
| StokvelReportUtils.ReportedCountsCoverTotal | stokvel/utils.py:252-263 | the reported counts plus the rejected members make the total: the report omits exactly the rejected ones |
| StokvelReportUtils.PeriodsDueIn | stokvel/utils.py:279-284 | exactly the stokvel's periods due within [start, end] |
| StokvelReportUtils.TotalsWithinExpected | stokvel/utils.py:286-291 | when no period receives more than expected, total received is within 0..total expected |
| StokvelReportUtils.FilterKeepsWithinExpected | stokvel/utils.py:279-291 | the date filter keeps that property |
| StokvelReportUtils.ContributionStatistics | stokvel/utils.py:268-301 | the totals are the sums of expected and received over the stokvel's periods due in the range, and the count is their number; the range runs from the given start, else the first of the current month, to the given end, else today; outstanding = expected − received; the rate is received/expected in percent and 0 when nothing is expected, within 0..100 when no period is over-paid |
| StokvelReportUtils.RangeStart | stokvel/utils.py:278-279 | a missing start becomes the first day of today's month |
| StokvelReportUtils.OtherStokvelPeriodIgnored | stokvel/utils.py:284-288 | a period of another stokvel does not change the statistics |
| StokvelReportUtils.DuePeriodCounted | stokvel/utils.py:284-298 | a period of the stokvel due within the range adds its expected and received amounts and one to the count |
| StokvelReportUtils.PaidPeriods | stokvel/utils.py:331-337 | at most the year's periods, and all of them exactly when each has a verified contribution |
| StokvelReportUtils.ComplianceRate | stokvel/utils.py:339-343 | within 0..100, and 100 exactly when the year has periods and all are paid |
| StokvelReportUtils.RateSumBounds | stokvel/utils.py:354-358 | rates within 0..100 sum to at most 100 per rate |
| StokvelReportUtils.AverageCompliance | stokvel/utils.py:354-358 | 0 for no members, otherwise the mean, within 0..100 |
| StokvelReportUtils.ActiveMemberKeys | stokvel/utils.py:318 | exactly the keys of the stokvel's active members, one per active member |
| StokvelReportUtils.ComplianceRates | stokvel/utils.py:318-352 | one rate per active member, as many as there are active members, in key order; each is that member's compliance rate, within 0..100 |
| StokvelReportUtils.ComplianceSummary | stokvel/utils.py:354-362 | the number of active members and the average of their compliance rates over the stokvel's periods of the year: within 0..100, and 0 without active members |
| StokvelReportUtils.FullRatesSum | stokvel/utils.py:360-361 | rates that are all 100 sum to 100 per rate |
| StokvelReportUtils.FullRatesAverage | stokvel/utils.py:360-362 | a non-empty list of full rates averages 100 |
| StokvelReportUtils.FullPaymentGivesFullCompliance | stokvel/utils.py:313-362 | when the year has periods of the stokvel and every active member has a verified contribution for each, the summary reports 100 per cent |
| StokvelReportUtils.YearPeriods | stokvel/utils.py:313-316 | exactly the stokvel's periods of the requested year, each once, in increasing key order |
| StokvelModels.ActiveOnIff | stokvel/models.py:173-181 | `is_active_for_date` holds exactly when the rule is active and from ≤ d ≤ until, with no end meaning open; the same window serves penalty rules (stokvel/models.py:267-275) |
| StokvelModels.PenaltyRule.CalculatePenalty | stokvel/models.py:247-265 | 0 within the grace period; past it, the method's amount or the cap, never above a truthy cap |
| StokvelModels.PenaltyCappedIff | stokvel/models.py:261-265 | past grace, the cap lowers the penalty exactly when it is truthy and below the method's amount |
| StokvelModels.PenaltyByMethod | stokvel/models.py:252-259 | without a cap: fixed and tiered give `amount`, percentage gives base × amount / 100, daily gives amount × days past grace |
| StokvelModels.DailyPenaltyNeverDecreases | stokvel/models.py:256-257 | a daily penalty with non-negative amounts never decreases as the payment gets later |
| StokvelModels.PenaltyNonNegative | stokvel/models.py:247-265 | non-negative amounts and cap give a non-negative penalty |
| StokvelModels.ZeroCapIsIgnored | stokvel/models.py:262 | a cap of 0 is not applied: a R50 fixed penalty stays R50 |
| StokvelModels.StokvelCycle.DurationMonths | stokvel/models.py:321-323 | whole calendar months between start month and end month, days ignored; not negative for an ordered cycle |
| StokvelModels.CycleMonthsMatchPeriods | stokvel/models.py:321-323 | an ordered cycle spans one more calendar month than its duration counts |
| StokvelModels.MaskedAccountNumber | stokvel/models.py:377-381 | up to 4 characters are returned unchanged; longer numbers become "****" and the last four characters |
| StokvelModels.MaskIsIdempotent | stokvel/models.py:377-381 | masking a masked number changes nothing |
| StokvelModels.SaveStokvelBankAccount | stokvel/models.py:367-374 | the table after save: an existing key is overwritten, otherwise the row is appended, with the other primaries cleared first |
| StokvelModels.SavedPrimaryIsOnlyPrimary | stokvel/models.py:367-374 | after saving a primary account it is its stokvel's only primary account, and other rows keep all their other fields |
| Finances.PaymentPeriod.constructor | finances/models.py:9-44 | a new period holds the given fields and is open, not finalised |
| Finances.PaymentPeriod.Save | finances/models.py:49-53 | an unset or zero expected amount is taken from the rule; any other value is kept |
| Finances.PaymentPeriod.TotalExpectedAmount | finances/models.py:60-64 | nothing is expected without active members, and a non-negative amount gives a non-negative total |
| Finances.PaymentPeriod.TotalReceivedAmount | finances/models.py:66-73 | non-negative contributions give a non-negative total |
| Finances.PaymentPeriod.CollectionPercentage | finances/models.py:75-80 | received over expected in percent, and 0 when nothing is expected, with no division by zero |
| Finances.EmptyStokvelCollectsNothing | finances/models.py:75-80 | a period with no active members reports 0 per cent |
| Finances.CollectionPercentageBounds | finances/models.py:75-80 | receiving no more than expected keeps the percentage within 0..100 |
| Finances.Contribution.constructor | finances/models.py:89-148 | a new contribution is pending review, with no reviewer |
| Finances.Contribution.ShortageAmount | finances/models.py:157-166 | never negative; 0 exactly for a full payment; otherwise amount + shortage = expected |
| Finances.Contribution.DaysLate | finances/models.py:153-171 | never negative; positive exactly for a late payment, and then the days from due date to payment |
| Finances.Contribution.Verify | finances/models.py:173-179 | only the status (verified), reviewer, review date and notes change |
| Finances.Contribution.Reject | finances/models.py:181-187 | only the status (rejected), reviewer, review date and notes change |
| Finances.VerifiedContributionIsReceived | finances/models.py:66-73 | a verified contribution adds exactly its amount to what the period received |
| Finances.UnverifiedContributionIsNotReceived | finances/models.py:66-73 | a pending or rejected contribution adds nothing |
| Finances.Penalty.constructor | finances/models.py:196-253 | a new penalty is applied, unpaid and not waived |
| Finances.Penalty.OutstandingAmount | finances/models.py:259-260 | outstanding + paid = penalty, and nothing is outstanding exactly when the paid amount covers the penalty |
| Finances.Penalty.Waive | finances/models.py:262-268 | the status and waiver fields change, and the outstanding amount does not |
| Finances.Penalty.MarkAsPaid | finances/models.py:270-285 | the paid amount is set, not added, and defaults to the whole penalty; the status is paid exactly when nothing is outstanding, else outstanding |
| Finances.CreditAndDebitExclusive | finances/models.py:363-368 | no transaction is both credit and debit, and one of zero is neither |
| Finances.BankStatementImport.constructor | finances/models.py:376-408 | a new import is processing, with nothing imported or matched |
| Finances.BankStatementImport.MatchPercentage | finances/models.py:414-417 | matched over imported in percent, and 0 when nothing was imported |
| Finances.BankStatementImport.MarkCompleted | finances/models.py:419-422 | the status becomes completed, with the completion time |
| Finances.BankStatementImport.MarkFailed | finances/models.py:424-428 | the status becomes failed, with the error log and time |
| Finances.FreshImportMatchesNothing | finances/models.py:414-417 | a fresh import reports 0 per cent |
| Finances.MatchPercentageBounds | finances/models.py:414-417 | matching no more than imported keeps the percentage within 0..100 |
| Finances.Payout.constructor | finances/models.py:436-507 | a new payout is pending, with no approver or processor |
| Finances.Payout.Approve | finances/models.py:512-519 | the status becomes approved with approver and date; empty notes keep the old notes |
| Finances.Payout.Process | finances/models.py:521-528 | the status becomes processed with processor and date; an empty reference keeps the old reference |
| Finances.Payout.Complete | finances/models.py:530-533 | the status becomes completed with the completion date |
| Finances.ApproveProcessComplete | finances/models.py:512-533 | the three steps in order record who approved and processed the payout, and when; the amount and notes are kept |
| StokvelServices.ActiveMemberCount | stokvel/services.py:123 | the active members are never more than all the members |
| StokvelServices.UpdateConstitution | stokvel/services.py:115-144 | refused exactly when a new minimum exceeds the active members, or a truthy new maximum is below the member count; otherwise the given fields are applied |
| StokvelServices.ApplyUpdatesProperties | stokvel/services.py:138-140 | no updates change nothing, and applying the same updates twice is applying them once |
| StokvelServices.ValidateConstitutionCompliance | stokvel/services.py:147-167 | an issue for too few active members exactly when below the minimum, and one for too many exactly when above a truthy maximum |
| StokvelServices.UpdatedConstitutionIsCompliant | stokvel/services.py:115-167 | a bound that an accepted update sets is met by the current members |
| StokvelServices.OverlapsIffSharedDay | stokvel/services.py:197-203 | for windows that are not reversed, the intended overlap test holds exactly when the windows share a day |
| StokvelServices.ConflictAsWrittenIsSound | stokvel/services.py:197-203 | as written, an open-ended new rule always raises, and every conflict reported is a real one |
| StokvelServices.ConflictAsWrittenMissesOpenEndedRule | stokvel/services.py:197-203 | as written, an open-ended rule from 1 January 2024 is not seen by a new rule for July to December 2024, although they share days |
| StokvelServices.CreateContributionRule | stokvel/services.py:175-222 | a non-positive amount is refused first, then an active rule of the stokvel and type whose window meets the new one, with a message naming the type; otherwise the rule is appended, starting today by default |
| StokvelServices.ActiveRulesAreActiveForDate | stokvel/services.py:225-242 | the union of the two queries selects exactly the stokvel's rules that `is_active_for_date` accepts |
| StokvelServices.DeactivateRule | stokvel/services.py:245-256 | the rule ends on the given date (or today) and becomes inactive; no other row or field changes |
| StokvelServices.DeactivatedRuleIsRetired | stokvel/services.py:245-256 | a deactivated rule is in force on no date and blocks no new rule; other rules keep their standing |
| StokvelServices.PenaltyAmountError | stokvel/services.py:281-286 | no error exactly when the amount is non-negative and, for a percentage, at most 100 |
| StokvelServices.PenaltyRuleError | stokvel/services.py:264-315 | with the intended duplicate test, no error exactly when the amount checks pass and no rule of the stokvel and type is in force today; the duplicate error names the type |
| StokvelServices.OpenEndedPenaltyRuleInvisibleAsWritten | stokvel/services.py:289-313 | as written, a rule this service created is never seen by the duplicate check, so the same rule can be created again; the intended check refuses it |
| StokvelServices.CreatePenaltyRule | stokvel/services.py:264-315 | the amount checks, then the duplicate test with its message naming the type, then the rule appended, starting today by default |
| StokvelServices.SecondPenaltyRuleRefused | stokvel/services.py:289-313 | with the intended check, a second identical request is refused |
| StokvelServices.ApplicablePenaltyRule | stokvel/services.py:329-352 | an applicable rule of the stokvel and type, preferring one with an end date; none exactly when no rule is in force on the date |
| StokvelServices.FirstBlocking | stokvel/services.py:340-350 | `.first()` of one of the two filters: a matching rule when there is one, and none exactly when no rule matches |
| StokvelServices.TouchingCyclesDoNotOverlap | stokvel/services.py:377-385 | cycles that only touch do not overlap |
| StokvelServices.CycleExpectedTotalMeaning | stokvel/services.py:387-399 | the total sums the stokvel's regular rules in force at the start, times the cycle's `duration_months`, times the active members; it is 0 without such rules |
| StokvelServices.ComputeCycleExpectedTotal | stokvel/services.py:387-399 | the loop returns the specified expected total |
| StokvelServices.CreateCycle | stokvel/services.py:360-410 | refuses start ≥ end, a start before today, and an overlap with a cycle of the stokvel; otherwise appends a planned cycle with the expected total |
| StokvelServices.ActivatedCycles | stokvel/services.py:413-426 | after activation the cycle is its stokvel's only active one, the previously active ones are completed, and only statuses change |
| StokvelServices.ActivateCycle | stokvel/services.py:413-426 | the table becomes the activated table |
| StokvelServices.CurrentCycleAmong | stokvel/services.py:429-439 | an active cycle of the stokvel covering today with the latest start, as the `-start_date` ordering puts first; none exactly when no cycle qualifies |
| StokvelServices.ActivatedCycleIsCurrent | stokvel/services.py:413-439 | right after a cycle covering today is activated, it is the current cycle |
| StokvelServices.NewAccountKeepsPrimaryInvariant | stokvel/services.py:470-483 | adding an active account that is primary, or joins a stokvel with an active account, keeps one primary account and an active primary whenever there is an active account |
| StokvelServices.AddBankAccount | stokvel/services.py:447-485 | refuses a blank number or an existing (bank, number) pair; otherwise the account is appended, primary when asked or when the stokvel has no active account |
| StokvelServices.PrimarySet | stokvel/services.py:488-501 | afterwards the account is its stokvel's only primary account, other stokvels are untouched and only primary flags change |
| StokvelServices.SetPrimaryAccount | stokvel/services.py:488-501 | the table becomes that result |
| StokvelServices.FirstOtherActive | stokvel/services.py:509-513 | the lowest-key other active account of the stokvel, or none exactly when there is no other |
| StokvelServices.DeactivatedAsWritten | stokvel/services.py:504-524 | as written the account ends inactive and not primary, and the promotion is lost |
| StokvelServices.DeactivatingPrimaryLosesPrimary | stokvel/services.py:515-518 | as written, retiring the only primary account leaves active accounts and no primary one |
| StokvelServices.Deactivated | stokvel/services.py:504-524 | with the promotion saved, the first other active account becomes the only primary, and the retired account is inactive and not primary |
| StokvelServices.RetiringKeepsPrimaryInvariant | stokvel/services.py:504-524 | retiring a non-primary or last active account keeps the invariant |
| StokvelServices.DeactivateAccount | stokvel/services.py:504-524 | the table becomes the corrected result |
| StokvelServices.SetupIssuesMeaning | stokvel/services.py:531-567 | each set-up message is reported exactly when its piece is missing, the member-count issue exactly when the minimum is not met, and nothing else |
| StokvelServices.IssueListMeaning | stokvel/services.py:536-565 | each fixed message appears exactly when its flag is set |
| StokvelServices.SetupMessagesDistinct | stokvel/services.py:536-565 | the five set-up messages are pairwise different |
| StokvelServices.ValidateStokvelSetup | stokvel/services.py:531-567 | the appended issues are the specified list, and valid exactly when it is empty |
| StokvelServices.CanAcceptNewMembers | stokvel/services.py:570-584 | accepting exactly when open, active and below a truthy maximum, with the source's message for each refusal |
| StokvelServices.AcceptingStaysWithinMaximum | stokvel/services.py:570-584 | admitting one member when accepting never passes a truthy maximum |
| AccountsModels.NewUser | accounts/models.py:9-43 | a new user lives in South Africa and has nothing verified |
| AccountsModels.NonEmptyParts | accounts/models.py:67-74 | keeps only non-empty parts, and is empty exactly when every part is |
| AccountsModels.FullAddressLength | accounts/models.py:65-75 | the address is empty exactly when every part is; otherwise it is the kept parts plus ", " between neighbours |
| AccountsModels.CountryOnlyAddress | accounts/models.py:65-75 | a user with only the country gets just the country |
| AccountsModels.ParseMemberStatus | accounts/models.py:80-87 | a recognised name is the stored name of the status it gives |
| AccountsModels.ParseMemberStatusRoundTrip | accounts/models.py:80-87 | each member status is recognised by its own stored name |
| AccountsModels.ParseRole | accounts/models.py:89-95 | a recognised name is the stored name of the role it gives |
| AccountsModels.ParseRoleRoundTrip | accounts/models.py:89-95 | each role is recognised by its own stored name |
| AccountsModels.ActiveAndProbationExclusive | accounts/models.py:169-175 | `is_active_member` holds exactly for "active", `is_in_probation` exactly for "probation", and never both |
| AccountsModels.MemberCount | stokvel/services.py:131 | the members of the stokvel, never more than all the members |
| AccountsModels.StatusCount | stokvel/utils.py:249-255 | the members of the stokvel with a status, never more than its members |
| AccountsModels.BankReferenceList | accounts/models.py:183-187 | [] for a blank field; otherwise piece k is the k-th piece of `split(',')` stripped, one per comma plus one, with no comma inside a piece |
| AccountsModels.BankReferenceListRoundTrip | accounts/models.py:183-187 | for a field whose comma-separated names carry no surrounding blanks, the list is exactly the `split(',')` pieces and joining it with commas gives the field back |
| AccountsModels.StokvelNumbers | accounts/models.py:156-158 | exactly the member numbers of the stokvel |
| AccountsModels.MaxNumeric | accounts/models.py:156-162 | no numeric member number of the stokvel parses above it |
| AccountsModels.FormatMemberNumber | accounts/models.py:165 | `zfill(3)` gives at least three digits that parse back to the number |
| AccountsModels.NextMemberNumber | accounts/models.py:152-167 | the corrected number is one above the highest numeric number, and no member of the stokvel has it |
| AccountsModels.LastByStringOrder | accounts/models.py:156-158 | the member `order_by('-member_number').first()` returns: a non-empty number no other number sorts above |
| AccountsModels.StringOrderRepeatsNumber | accounts/models.py:156-165 | as written, members "999" and "1000" yield "1000" again; the corrected rule yields "1001" |
| AccountsModels.SaveMember | accounts/models.py:152-167 | a blank number is replaced by the stokvel's next number before the row is written, and a non-blank one is kept |
| AccountsModels.NewMemberNumberIsUnique | accounts/models.py:152-167 | a newly numbered member never shares its number with another member of the stokvel |
| AccountsModels.SavedMemberPrimaryIsOnlyPrimary | accounts/models.py:220-227 | after saving a primary account it is the member's only primary; other rows keep their other fields |
| AccountsModels.SaveMemberBankAccount | accounts/models.py:220-227 | the table after save, other primaries of the member cleared first |
| AccountsModels.ProbationMember | accounts/models.py:290-297 | the member `approve` creates is in probation, approved today, a plain member, and unnumbered until saved |
| AccountsModels.Approve | accounts/models.py:281-299 | the application is approved with reviewer and dates, and a probation member is appended; an existing member for the pair is an IntegrityError and nothing changes |
| AccountsModels.Reject | accounts/models.py:301-308 | the application is rejected with reviewer and dates; no member is created |
| AccountsServices.AllowedField | accounts/services.py:62-75 | a key names a whitelisted field only by that field's own name |
| AccountsServices.AllowedFieldRoundTrip | accounts/services.py:62-75 | every whitelisted field is recognised by its own name |
| AccountsServices.ProtectedKeysNotAllowed | accounts/services.py:62-76 | "username" and the verification flags are not whitelisted, so an update never applies them |
| AccountsServices.SetField | accounts/services.py:76-77 | `setattr` changes that field only |
| AccountsServices.UpdatesKeepProtectedFields | accounts/services.py:76-77 | no update touches the username or the verification flags |
| AccountsServices.UpdatesSetGivenFields | accounts/services.py:76-77 | a whitelisted key sets its field to the given value |
| AccountsServices.UpdatesLeaveOtherFields | accounts/services.py:76-77 | a field no key names keeps its value |
| AccountsServices.EmailClash | accounts/services.py:70-73 | a clash exactly when the updates change the e-mail to one another user already has |
| AccountsServices.UpdateUserProfile | accounts/services.py:57-80 | a clashing e-mail is refused before anything changes; otherwise the whitelisted fields are set and the user saved |
| AccountsServices.UpdateKeepsEmailsUnique | accounts/services.py:57-80 | an update that goes through never gives two users the same e-mail |
| AccountsServices.VerificationPercentage | accounts/services.py:114-127 | 0, 50 or 100: 100 exactly when both flags are set, 0 exactly when neither is |
| AccountsServices.MissingVerifications | accounts/services.py:129-140 | lists "email" and "phone" exactly when unverified, and nothing else |
| AccountsServices.PercentageCountsMissing | accounts/services.py:114-140 | the percentage is 100 minus 50 per missing verification |
| AccountsServices.VerifyUserEmail | accounts/services.py:83-90 | only the user's e-mail flag changes, to true |
| AccountsServices.VerifyUserPhone | accounts/services.py:92-99 | only the user's phone flag changes, to true |
| AccountsServices.VerifyingEmailCompletesIt | accounts/services.py:83-140 | after verifying, "email" is not missing and the percentage rose by 50 if it was |
| AccountsServices.VerifyingPhoneCompletesIt | accounts/services.py:92-140 | after verifying, "phone" is not missing and the percentage rose by 50 if it was |
| AccountsServices.SubmissionError | accounts/services.py:159-189 | no error exactly when not a member, no earlier application, the stokvel open and active, and below a truthy maximum |
| AccountsServices.NewApplication | accounts/services.py:180-187 | the new application is submitted and pending, with no reviewer |
| AccountsServices.SubmitApplication | accounts/services.py:148-192 | the guards in order, then the submitted application appended |
| AccountsServices.ResubmissionRefused | accounts/services.py:165-170 | once submitted, submitting again is refused as pending |
| AccountsServices.RejectedApplicantCannotReapply | accounts/services.py:180-187 | a rejected applicant can never apply to that stokvel again |
| AccountsServices.ApproveApplication | accounts/services.py:195-216 | only a submitted application is approved, through `approve`; otherwise nothing changes |
| AccountsServices.RejectApplication | accounts/services.py:219-231 | only a submitted application is rejected, through `reject`; otherwise nothing changes |
| AccountsServices.StatusChangeError | accounts/services.py:260-272 | no error exactly when the new status is in the table's list for the current status |
| AccountsServices.TransitionTableShape | accounts/services.py:260-268 | exited and rejected are final; nothing leads to pending or to itself; every other status reaches exited in at most two steps |
| AccountsServices.StatusChanged | accounts/services.py:275-285 | probation to active sets the probation end date, to exited sets the exit date, and nothing else changes |
| AccountsServices.UpdateMemberStatus | accounts/services.py:248-300 | a transition outside the table is refused with nothing changed; otherwise the member is saved with the new status and date |
| AccountsServices.RoleChangeError | accounts/services.py:313-337 | no error exactly when the role is known, a leadership role goes to an active member, and a unique role is not held by another active member |
| AccountsServices.UpdateMemberRole | accounts/services.py:303-354 | the guards, then only the role changes |
| AccountsServices.RoleChangeKeepsUniqueLeadership | accounts/services.py:326-337 | an accepted role change keeps each of chairperson, treasurer and secretary with at most one active holder |
| AccountsServices.ReactivationCanDuplicateRole | accounts/services.py:248-300 | status changes ignore roles: reactivating a former chairperson beside an active one gives two |
| AccountsServices.ProbationCompletion | accounts/services.py:417-431 | complete exactly when in probation, approved, and the constitution's months (30 days each) have passed; a missing constitution or an end date outside the calendar raises |
| AccountsServices.ProbationCompletionLasts | accounts/services.py:417-431 | probation complete on one day stays complete later |
| AccountsServices.PromoteFromProbation | accounts/services.py:434-449 | refuses a member not in probation or not yet complete; otherwise the member becomes active through the status change |
| AccountsServices.AddAccountError | accounts/services.py:470-480 | no error exactly when the number is valid and new for the member |
| AccountsServices.NewMemberAccount | accounts/services.py:482-500 | primary when asked, and always for the member's first account |
| AccountsServices.NewMemberAccountKeepsOnePrimary | accounts/services.py:482-500 | adding an account keeps exactly one primary per member with accounts |
| AccountsServices.AddMemberBankAccount | accounts/services.py:454-503 | with the log description read as intended: the checks, then the account saved through `MemberBankAccount.save` |
| AccountsServices.MemberPrimarySet | accounts/services.py:530-550 | only the chosen account is the member's primary, and other rows keep their other fields |
| AccountsServices.PrimarySetKeepsOnePrimary | accounts/services.py:530-550 | choosing a primary keeps exactly one per member |
| AccountsServices.SetMemberPrimaryAccount | accounts/services.py:530-550 | the table becomes that result |
| AccountsServices.ResavingKeepsOnePrimary | accounts/services.py:506-527 | re-saving with the same member and primary flag keeps the invariant |
| AccountsServices.VerifyMemberBankAccount | accounts/services.py:505-527 | with the log description read as intended: the account is verified and saved, keeping the invariant |
| AccountsServices.AddMemberBankAccountAsWritten | accounts/services.py:454-503 | as written, no call adds an account: a refused one keeps its own error, an accepted one raises AttributeError on `masked_account_number` and the atomic block leaves the table unchanged |
| AccountsServices.SetMemberPrimaryAccountAsWritten | accounts/services.py:529-550 | as written, the table changes as intended and then the call raises AttributeError |
| AccountsServices.VerifyMemberBankAccountAsWritten | accounts/services.py:505-527 | as written, the account is saved verified and then the call raises AttributeError |
| AccountsServices.FailedVerifyIsStored | accounts/services.py:513-517 | an unverified account is stored verified although the call raises |
| AccountsServices.FailedSetPrimaryIsStored | accounts/services.py:538-547 | an account that was not primary is stored primary although the call raises |
| AccountsServices.LabelsDistinct | accounts/services.py:648-681 | different gaps have different labels |
| AccountsServices.MissingPositions | accounts/services.py:648-681 | the positions of the failing checks, each one listed, strictly increasing |
| AccountsServices.MissingAmong | accounts/services.py:648-681 | the gaps at the failing positions, in check order: exactly the listed gaps that are missing |
| AccountsServices.ProfileGaps | accounts/services.py:648-681 | each gap is listed exactly when its check fails |
| AccountsServices.ProfileCompletion | accounts/services.py:648-681 | complete exactly when nothing is missing; the list is the labels of the gaps |
| AccountsServices.CanReceivePayout | accounts/services.py:684-705 | eligible exactly when active, profile complete and a verified primary account exists, with the source's messages |
| AccountsServices.LeadershipRoleNames | accounts/services.py:712-714 | the leadership names are exactly the known roles other than "member" |
| AccountsServices.LeadershipEligibility | accounts/services.py:708-730 | eligible for a leadership role exactly when active, approved at least 180 days ago when a date is recorded, and profile complete; other roles need no check |
| AccountsServices.EligibleLeaderPassesStatusGuard | accounts/services.py:708-730 | an eligible leader passes `update_member_role`'s status guard |
| AccountsUtils.UnfilledPositions | accounts/utils.py:40-58 | the positions of the unfilled fields, each one listed, strictly increasing |
| AccountsUtils.MissingItems | accounts/utils.py:40-58 | the items at the unfilled positions, in field order: exactly the unfilled items |
| AccountsUtils.ItemLabels | accounts/utils.py:40-58 | the labels of the items, position by position |
| AccountsUtils.ProfileCompletion | accounts/utils.py:40-67 | total 11, completed + missing = 11, missing are the labels of unfilled items, percentage is the integer part of completed × 100 / 11, complete exactly when nothing is missing |
| AccountsUtils.MissingStep | accounts/utils.py:45-58 | one more item is either filled or joins the missing list |
| AccountsUtils.CalculateProfileCompletion | accounts/utils.py:19-67 | the two counting loops return exactly that report |
| AccountsUtils.CompleteIffAllFilled | accounts/utils.py:60-67 | complete exactly when every item is filled, and 100 per cent exactly when 11 are done |
| AccountsUtils.ItemIsListed | accounts/utils.py:25-38 | every item is checked |
| AccountsUtils.BlankNameDisagreement | accounts/utils.py:45-50 | a blank first name is missing here, yet the member validation service accepts it |
| AccountsUtils.CleanUsername | accounts/utils.py:86 | only [a-z0-9._] remain, and a clean name is kept |
| AccountsUtils.BaseUsername | accounts/utils.py:74-86 | the base contains only [a-z0-9._] |
| AccountsUtils.CandidatesDistinct | accounts/utils.py:88-95 | the names the loop tries are pairwise different |
| AccountsUtils.GenerateUsername | accounts/utils.py:70-97 | the result is not taken, and is the first untaken name among base, base1, base2, … |
| AccountsUtils.ValidateSouthAfricanPhoneAsWritten | accounts/utils.py:100-130 | empty input gives "Phone number is required"; accepted exactly when the digits are 27+9, 0+9 or 9 digits |
| AccountsUtils.NineDigitsAfterTwentySeven | accounts/utils.py:121-122 | as written, nine digits starting "27" are written "+" + digits; corrected, "+27" + digits |
| AccountsUtils.NineDigitsAfterZero | accounts/utils.py:123-124 | as written, nine digits starting "0" lose the 0; corrected, "+27" + digits |
| AccountsUtils.LeadingTwentySevenTruncated | accounts/utils.py:121-122 | "271234567" comes out as "+271234567", ten characters |
| AccountsUtils.LeadingZeroTruncated | accounts/utils.py:123-124 | "012345678" comes out as "+2712345678", eleven characters |
| AccountsUtils.FormatByPattern | accounts/utils.py:113-126 | twelve characters, "+27", then the nine subscriber digits of the pattern that matched |
| AccountsUtils.ValidateSouthAfricanPhone | accounts/utils.py:100-130 | the same acceptance, and every accepted number is "+27" and nine digits |
| AccountsUtils.NormalisedPhoneIsStable | accounts/utils.py:113-126 | a normalised number is accepted again and normalises to itself |
| AccountsUtils.PhoneAsWrittenAgreesOtherwise | accounts/utils.py:113-126 | outside nine digits starting "27" or "0", the code as written agrees with the corrected one |
| AccountsUtils.ProbationIssues | accounts/utils.py:292-305 | no issues exactly when the profile is complete, an account verified and no penalty outstanding |
| AccountsUtils.ProbationEligibility | accounts/utils.py:261-317 | raises exactly when the completion check does; otherwise eligible exactly when probation is complete, the profile complete, an account verified and no penalty outstanding |
| AccountsUtils.CountWithStatus | accounts/utils.py:363-368 | never more than the applications |
| AccountsUtils.ApprovalRate | accounts/utils.py:372-376 | approved over decided in percent, within 0..100, 0 when nothing is decided and 100 when nothing was rejected |
| AccountsUtils.PriorityScore | accounts/utils.py:414-426 | the waiting days plus at most 8; exactly the waiting days without referral or a completion above 80; waiting days + 8 exactly with both |
| AccountsUtils.ReferralAddsFive | accounts/utils.py:419-421 | a referral adds exactly 5 to the score |
| AccountsUtils.CompleteProfileAddsThree | accounts/utils.py:423-426 | a completion above 80 adds exactly 3; one of 80 or less adds nothing |
| AccountsUtils.WaitingDayAddsOne | accounts/utils.py:414-417 | each day of waiting adds one to the score |
| AccountsUtils.LevelOf | accounts/utils.py:428-434 | High exactly at 10 or more, Low exactly below 5 |
| AccountsUtils.LevelIsMonotone | accounts/utils.py:428-434 | a higher score never gets a lower level |
| AccountsUtils.EntryFor | accounts/utils.py:412-443 | the row of application k: the days from its submission date to today, the referral flag, its user's completion percentage, the score of those three, and that score's level |
| AccountsUtils.PendingKeys | accounts/utils.py:406-408 | exactly the keys of the stokvel's submitted and under-review applications, strictly increasing |
| AccountsUtils.PendingEntries | accounts/utils.py:406-443 | one row per pending application of the stokvel, and no other, in submission order; each row is that application's `EntryFor` row |
| AccountsUtils.InsertByScore | accounts/utils.py:446 | insertion keeps the same rows plus the new one |
| AccountsUtils.SortByPriority | accounts/utils.py:446 | sorting is a permutation |
| AccountsUtils.InsertKeepsOrder | accounts/utils.py:446 | inserting a later row keeps descending score with ties in submission order |
| AccountsUtils.SortIsStable | accounts/utils.py:446 | the sort gives descending scores, ties in submission order, as Python's stable sort does |
| AccountsUtils.PendingApplicationsSummary | accounts/utils.py:402-448 | the loop builds the rows and returns them sorted, in priority order |
| StokvelForms.CleanMaximumMembers | stokvel/forms.py:87-94 | refused exactly when both numbers are given and non-zero and the maximum is below the minimum; a passing maximum is returned unchanged and is at least a truthy minimum |
| StokvelForms.CleanConstitution | stokvel/forms.py:171-179 | the same bound on the constitution's fields |
| StokvelForms.AcceptedConstitutionCanReachMinimum | stokvel/forms.py:171-179 | an accepted constitution never caps membership below its minimum |
| StokvelForms.CleanDateEstablished | stokvel/forms.py:96-102 | refused exactly when the date is in the future |
| StokvelForms.CleanContributionAmount | stokvel/forms.py:225-234 | accepted exactly when absent or within 0..1,000,000: zero passes |
| StokvelForms.ZeroContributionAmountPasses | stokvel/forms.py:228 | 0 passes the form while the amount validator refuses it |
| StokvelForms.CleanContributionRuleAsWritten | stokvel/forms.py:236-271 | with stokvel, start and end given and ordered, the form raises NameError |
| StokvelForms.CleanContributionRule | stokvel/forms.py:236-271 | a reversed window is refused, then any active rule of the stokvel and type the filter finds |
| StokvelForms.OpenEndedRuleFormAgrees | stokvel/forms.py:249-260 | without an end date the code as written agrees with the corrected form |
| StokvelForms.ClosedRuleFormMatchesService | stokvel/forms.py:249-260 | with an end date, the form's filter finds exactly the service's conflicts |
| StokvelForms.OpenEndedRuleBlockedByEndedRule | stokvel/forms.py:249-260 | without an end date, an ended active rule still blocks a new one, which the service would accept |
| StokvelForms.CleanPenaltyAmount | stokvel/forms.py:324-334 | accepted exactly when absent, or non-negative and at most 100 for a percentage |
| StokvelForms.CleanPenaltyRule | stokvel/forms.py:336-350 | refused exactly for a reversed window or a truthy cap below a truthy amount |
| StokvelForms.FormCapNeverCutsFixedPenalty | stokvel/forms.py:347-348 | a fixed rule accepted by the form charges its amount past grace: the cap never cuts it |
| StokvelForms.CleanCycleStartDate | stokvel/forms.py:390-396 | refused exactly when the start is before today |
| StokvelForms.CleanCycle | stokvel/forms.py:405-426 | refused exactly when both dates are given and the end is not after the start or less than 30 days later, or a stokvel is given and another of its cycles overlaps; each refusal with its own message in the code's order |
| StokvelForms.AcceptedCycleKeepsNoOverlap | stokvel/forms.py:403-424 | adding an accepted cycle keeps the stokvel's cycles free of overlaps |
| StokvelForms.CleanAccountNumber | stokvel/forms.py:460-470 | accepted exactly when empty or valid, and returned as typed |
| StokvelForms.BranchCodeFaultOf | stokvel/forms.py:472-485 | no fault exactly when empty or six digits after removing spaces; not-digits is checked first |
| StokvelForms.CleanBranchCode | stokvel/forms.py:472-485 | returns the code without spaces, empty or six digits, or the fault's message |
| StokvelForms.BranchCodeIsStable | stokvel/forms.py:472-485 | a cleaned code passes again unchanged |
| StokvelForms.CleanBankAccount | stokvel/forms.py:487-508 | refused exactly when another account has the same bank and number |
| AccountsForms.CleanRegistrationEmail | accounts/forms.py:91-95 | refused exactly when the address is registered |
| AccountsForms.CleanProfileEmail | accounts/forms.py:185-190 | keeping one's own address always passes; another user's address is refused |
| AccountsForms.CleanPhone | accounts/forms.py:97-104 | empty passes unchanged; otherwise the normalised "+27" form, or the validator's message |
| AccountsForms.CleanPhoneIsIdempotent | accounts/forms.py:192-199 | cleaning a cleaned number changes nothing |
| AccountsForms.CleanDateOfBirth | accounts/forms.py:106-119 | an accepted date lies 18 × 365 to 100 × 365 days before today, and within the calendar those are exactly the accepted ones |
| AccountsForms.AdultStaysAdult | accounts/forms.py:106-119 | a date accepted today stays accepted later while within 100 years |
| AccountsForms.CleanIdNumber | accounts/forms.py:201-206 | accepted exactly when empty or a valid ID number |
| AccountsForms.CleanMotivation | accounts/forms.py:253-257 | refused exactly when given and shorter than 100 characters after stripping |
| AccountsForms.PaddedMotivationRefused | accounts/forms.py:253-257 | a motivation of blanks alone is refused |
| AccountsForms.CleanDecision | accounts/forms.py:291-295 | refused exactly when empty |
| AccountsForms.CleanAction | accounts/forms.py:480-484 | refused exactly when empty |
| AccountsForms.CleanMemberAccountNumber | accounts/forms.py:383-391 | accepts exactly what the stokvel form accepts, with this form's message |
| AccountsForms.CleanMemberBranchCode | accounts/forms.py:393-406 | the same branch code check, with this form's messages |
| AccountsForms.CleanVerificationCode | accounts/forms.py:501-505 | refused exactly when it has a non-digit |
| AccountsForms.CleanReportRange | accounts/forms.py:559-568 | refused exactly when the end is before the start; equal dates pass |

## Left out

- Views, URL routing, admin pages and managers: HTTP handling, HTML rendering and query builders with no rules of their own.
- Notifications (e-mail, SMS), activity logging, `generate_verification_code` and the random fallback of `generate_username`. The random number is a parameter of `AccountsUtils.GenerateUsername`.
- `create_user_account` and password hashing: user creation internals.
- `create_stokvel_with_constitution`, `update_stokvel_status` and `get_stokvel_summary`: creation and summary wrappers outside the rules modelled.
- `calculate_penalty_amount` (stokvel/services.py:318-326): a direct call of `PenaltyRule.calculate_penalty`, modelled as `StokvelModels.PenaltyRule.CalculatePenalty`.
- `get_pending_applications`, `get_user_verification_status`, the member and activity summaries, the engagement score, `generate_member_report`, `get_progress_percentage` and `days_since_joining`: reporting built on floats or on the clock.
- `round()` to two decimals in the reports: the model keeps exact rates.
- Average processing days, recent applications, and the contributed totals and late counts of the compliance report.
- `@transaction.atomic` and concurrency: every operation runs alone.
- `timezone.now()` and `date.today()`: passed in as parameters.
- Unicode: `isdigit`, `isspace` and `lower` are modelled on ASCII.
- accounts/forms.py imports `ValidationUtils` from accounts/utils.py, which defines no such class. The module would fail to import. The forms are modelled as if the import worked, with the stokvel app's validators.
- The field-level bounds Django forms enforce (`min_value`, `max_length`, choice lists): only the `clean_*` methods are modelled.
- StokvelModels.SaveStokvelBankAccount: the `unique_together` IntegrityError on a duplicate account is not modelled; the services check for a duplicate first.
- AccountsModels.SaveMemberBankAccount: the `unique_together` IntegrityError on a duplicate account is not modelled; the services check for a duplicate first.
- StokvelReportUtils.ComplianceSummary: the year is a parameter; the default to the current year for a missing year (stokvel/utils.py:310-311) is left to the caller.
- ValidationUtils.ValidateContributionAmount: the below-minimum message leaves out the amount, because the model has no decimal-to-text conversion.
- AccountsUtils.ProbationEligibility: the outstanding-penalty query is a count parameter.
- StokvelReportUtils.ContributionStatistics: the period totals are passed in as snapshots of `total_expected_amount` and `total_received_amount`.
- AccountsUtils.PendingEntries: it takes key order as submission order, since `submitted_date` is set when the row is created.
- StokvelReportUtils.MemberStatistics: the percentage is the exact rate; the `round()` to two decimals is left out.
- PenaltyCalculator.FirstApplicable: the `stokvel, penalty_type` ordering leaves the filtered rules tied, so the database picks one; the model takes the lowest key.
- StokvelServices.FirstBlocking: the same tie as `FirstApplicable`, resolved by the lowest key.
- StokvelServices.CurrentCycleAmong: among cycles with the same start the `-start_date` ordering leaves the choice to the database; the model takes the lowest key.

## Findings

| source | as written | input that shows it | evidently intended | confidence | as-written member | corrected member |
|---|---|---|---|---|---|---|
| stokvel/utils.py:159 | `models.Q` is used, but `models` is not imported, so the call raises NameError | any period of a stokvel with a regular rule | the sum of the rules in force during the period | not executed | ExpectedContribution.ExpectedContributionAlwaysRaises | ExpectedContribution.CalculateExpectedContribution |
| stokvel/utils.py:195 | the late-payment lookup uses `models.Q` and raises NameError | a payment made one day after the due date | the first late-payment rule in force, applied | not executed | PenaltyCalculator.LateLookupRaises | PenaltyCalculator.LatePaymentPenalty |
| stokvel/utils.py:226 | the short-payment lookup uses `models.Q` and raises NameError | R50 paid against R100 expected | the first insufficient-payment rule in force, applied | not executed | PenaltyCalculator.InsufficientLookupRaises | PenaltyCalculator.InsufficientPaymentPenalty |
| stokvel/forms.py:258 | the contribution rule form's overlap query uses `models.Q` and raises NameError | a rule form with an end date | the overlap filter refusing a clashing rule | not executed | StokvelForms.CleanContributionRuleAsWritten | StokvelForms.CleanContributionRule |
| stokvel/services.py:197-203 | an open-ended rule passes None to `effective_until__gte`, and a closed rule only finds rules with an end date | existing rule from 2024-01-01 with no end; new rule 2024-07-01 to 2024-12-31 | refuse any active rule of the type whose window meets the new one | not executed | StokvelServices.ConflictAsWrittenMissesOpenEndedRule | StokvelServices.CreateContributionRule |
| stokvel/services.py:289-313 | the duplicate filter only finds rules with an end date, and this service creates none | the same penalty rule requested twice | refuse a second rule of the type in force today | not executed | StokvelServices.OpenEndedPenaltyRuleInvisibleAsWritten | StokvelServices.SecondPenaltyRuleRefused |
| stokvel/services.py:515-518 | `.first()` is called twice, so the promoted account is never saved | deactivate the primary account of a stokvel with a second active account | the other account becomes primary | not executed | StokvelServices.DeactivatingPrimaryLosesPrimary | StokvelServices.DeactivateAccount |
| accounts/models.py:156-165 | the last member is chosen by descending string order | members "999" and "1000" | the next number above the numeric maximum, "1001" | not executed | AccountsModels.StringOrderRepeatsNumber | AccountsModels.NewMemberNumberIsUnique |
| accounts/utils.py:113-126 | the formatting looks at the leading digits, not at the pattern that matched | "271234567" and "012345678" | "+27" followed by the nine subscriber digits | not executed | AccountsUtils.LeadingTwentySevenTruncated | AccountsUtils.NormalisedPhoneIsStable |
| accounts/services.py:500 | the log description reads `masked_account_number`, which a member's bank account does not define, so the call raises AttributeError and the atomic block undoes the insert | a valid first account for a member | the account stored and returned | not executed | AccountsServices.AddMemberBankAccountAsWritten | AccountsServices.AddMemberBankAccount |
| accounts/services.py:517 | the account is saved verified, then the log description raises AttributeError | verifying any account | the account returned verified | not executed | AccountsServices.FailedVerifyIsStored | AccountsServices.VerifyMemberBankAccount |
| accounts/services.py:547 | the primary flags are saved, then the log description raises AttributeError | making a second account primary | the account returned as the only primary one | not executed | AccountsServices.FailedSetPrimaryIsStored | AccountsServices.SetMemberPrimaryAccount |
| stokvel/utils.py:260-263 | the loop adds `*_percentage` keys to the dictionary it iterates over, which raises RuntimeError | a stokvel with one active member | each status's share of the members in percent | not executed | StokvelReportUtils.OneMemberStatisticsRaise | StokvelReportUtils.MemberStatistics |
