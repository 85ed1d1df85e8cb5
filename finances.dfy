/**
 * The finance records (finances/models.py): payment periods with their
 * expected and collected amounts, contributions and their lateness and
 * shortage, penalties and their settlement, transactions, statement imports
 * and payouts. The records whose methods assign fields and save are classes;
 * `timezone.now()` is a parameter of each method that reads it.
 */
module Finances
{
  import opened Common
  import opened Dates
  import opened StokvelModels

  /**
   * A payment period. `expectedAmountPerMember` is `None` only on a period
   * that has not been saved yet; the column itself is not nullable.
   */
  class PaymentPeriod
  {
    var stokvel: nat
    var contributionRule: ContributionRule
    var name: string
    var year: int
    var month: Option<int>
    var quarter: Option<int>
    var periodStartDate: Date
    var periodEndDate: Date
    var dueDate: Date
    var expectedAmountPerMember: Option<Money>
    var isOpen: bool
    var isFinalized: bool

    constructor (stokvel: nat, contributionRule: ContributionRule, name: string, year: int, month: Option<int>, quarter: Option<int>,
                 periodStartDate: Date, periodEndDate: Date, dueDate: Date, expectedAmountPerMember: Option<Money>)
      ensures this.stokvel == stokvel && this.contributionRule == contributionRule && this.name == name
      ensures this.year == year && this.month == month && this.quarter == quarter
      ensures this.periodStartDate == periodStartDate && this.periodEndDate == periodEndDate && this.dueDate == dueDate
      ensures this.expectedAmountPerMember == expectedAmountPerMember
      ensures isOpen && !isFinalized
    {
      this.stokvel := stokvel;
      this.contributionRule := contributionRule;
      this.name := name;
      this.year := year;
      this.month := month;
      this.quarter := quarter;
      this.periodStartDate := periodStartDate;
      this.periodEndDate := periodEndDate;
      this.dueDate := dueDate;
      this.expectedAmountPerMember := expectedAmountPerMember;
      isOpen := true;
      isFinalized := false;
    }

    /** `save`: an unset or zero expected amount is taken from the contribution rule; any other value is kept. */
    method Save()
      modifies this`expectedAmountPerMember
      ensures !TruthyMoney(old(expectedAmountPerMember)) ==> expectedAmountPerMember == Some(contributionRule.amount)
      ensures TruthyMoney(old(expectedAmountPerMember)) ==> expectedAmountPerMember == old(expectedAmountPerMember)
    {
      if !TruthyMoney(expectedAmountPerMember) {
        expectedAmountPerMember := Some(contributionRule.amount);
      }
    }

    /** `is_overdue`, with today passed in. */
    predicate IsOverdue(today: Date)
      reads this
    {
      Lt(dueDate, today)
    }

    /** `total_expected_amount`: the amount per member times the active members. */
    function TotalExpectedAmount(activeMembers: nat): (total: Money)
      requires expectedAmountPerMember.Some?
      reads this
      ensures activeMembers == 0 ==> total == 0.0
      ensures expectedAmountPerMember.value >= 0.0 ==> total >= 0.0
    {
      expectedAmountPerMember.value * activeMembers as real
    }

    /** `total_received_amount`: the verified contributions to this period, summed; zero when there are none. */
    function TotalReceivedAmount(contributions: seq<Contribution>): (total: Money)
      reads this, contributions
      ensures (forall k :: 0 <= k < |contributions| ==> contributions[k].amount >= 0.0) ==> total >= 0.0
    {
      if contributions == [] then 0.0
      else
        var last := contributions[|contributions| - 1];
        TotalReceivedAmount(contributions[..|contributions| - 1])
        + (if last.paymentPeriod == this && last.verificationStatus == Verified then last.amount else 0.0)
    }

    /** `collection_percentage`: received over expected, as a percentage, and 0 when nothing is expected. */
    function CollectionPercentage(activeMembers: nat, contributions: seq<Contribution>): (percentage: real)
      requires expectedAmountPerMember.Some?
      reads this, contributions
      ensures TotalExpectedAmount(activeMembers) <= 0.0 ==> percentage == 0.0
      ensures TotalExpectedAmount(activeMembers) > 0.0 ==>
        percentage * TotalExpectedAmount(activeMembers) == TotalReceivedAmount(contributions) * 100.0
    {
      Rate(TotalReceivedAmount(contributions), TotalExpectedAmount(activeMembers))
    }
  }

  /** A period with no active members has nothing to collect and reports 0 per cent, never a division by zero. */
  lemma EmptyStokvelCollectsNothing(period: PaymentPeriod, contributions: seq<Contribution>)
    requires period.expectedAmountPerMember.Some?
    ensures period.CollectionPercentage(0, contributions) == 0.0
  {
  }

  /** Collecting no more than expected keeps the percentage within 0 to 100. */
  lemma CollectionPercentageBounds(period: PaymentPeriod, activeMembers: nat, contributions: seq<Contribution>)
    requires period.expectedAmountPerMember.Some?
    requires 0.0 <= period.TotalReceivedAmount(contributions) <= period.TotalExpectedAmount(activeMembers)
    ensures 0.0 <= period.CollectionPercentage(activeMembers, contributions) <= 100.0
  {
    RateBounds(period.TotalReceivedAmount(contributions), period.TotalExpectedAmount(activeMembers));
  }

  datatype VerificationStatus = Pending | Verified | Rejected | Reversed

  datatype PaymentMethod = BankTransfer | Cash | Eft | DebitOrder | MobilePayment | OtherMethod

  class Contribution
  {
    var member: nat
    var paymentPeriod: PaymentPeriod
    var amount: Money
    var paymentDate: Date
    var paymentMethod: PaymentMethod
    var referenceNumber: string
    var verificationStatus: VerificationStatus
    var verifiedBy: Option<nat>
    var verificationDate: Option<DateTime>
    var verificationNotes: string

    constructor (member: nat, paymentPeriod: PaymentPeriod, amount: Money, paymentDate: Date, paymentMethod: PaymentMethod)
      ensures this.member == member && this.paymentPeriod == paymentPeriod && this.amount == amount
      ensures this.paymentDate == paymentDate && this.paymentMethod == paymentMethod
      ensures referenceNumber == "" && verificationStatus == Pending && verifiedBy.None? && verificationDate.None?
      ensures verificationNotes == ""
    {
      this.member := member;
      this.paymentPeriod := paymentPeriod;
      this.amount := amount;
      this.paymentDate := paymentDate;
      this.paymentMethod := paymentMethod;
      referenceNumber := "";
      verificationStatus := Pending;
      verifiedBy := None;
      verificationDate := None;
      verificationNotes := "";
    }

    /** `is_late_payment`: paid strictly after the period's due date. */
    predicate IsLatePayment()
      reads this, paymentPeriod
    {
      Lt(paymentPeriod.dueDate, paymentDate)
    }

    /** `is_full_payment`: at least the expected amount per member. */
    predicate IsFullPayment()
      requires paymentPeriod.expectedAmountPerMember.Some?
      reads this, paymentPeriod
    {
      amount >= paymentPeriod.expectedAmountPerMember.value
    }

    /** `shortage_amount`: what is missing from the expected amount, never negative, and zero exactly for a full payment. */
    function ShortageAmount(): (shortage: Money)
      requires paymentPeriod.expectedAmountPerMember.Some?
      reads this, paymentPeriod
      ensures shortage >= 0.0
      ensures shortage == 0.0 <==> IsFullPayment()
      ensures !IsFullPayment() ==> amount + shortage == paymentPeriod.expectedAmountPerMember.value
    {
      if amount < paymentPeriod.expectedAmountPerMember.value then paymentPeriod.expectedAmountPerMember.value - amount else 0.0
    }

    /** `days_late`: the days between due date and payment for a late payment, otherwise 0; never negative. */
    function DaysLate(): (days: int)
      reads this, paymentPeriod
      ensures days >= 0
      ensures days > 0 <==> IsLatePayment()
      ensures IsLatePayment() ==> days == Ordinal(paymentDate) - Ordinal(paymentPeriod.dueDate)
    {
      OrdinalOrder(paymentPeriod.dueDate, paymentDate);
      if IsLatePayment() then DaysBetween(paymentPeriod.dueDate, paymentDate) else 0
    }

    /** `verify`: marks the contribution verified by `verifiedByUser` at `now`; the amount and dates are untouched. */
    method Verify(verifiedByUser: nat, now: DateTime, notes: string)
      modifies this`verificationStatus, this`verifiedBy, this`verificationDate, this`verificationNotes
      ensures verificationStatus == Verified && verifiedBy == Some(verifiedByUser)
      ensures verificationDate == Some(now) && verificationNotes == notes
    {
      verificationStatus := Verified;
      verifiedBy := Some(verifiedByUser);
      verificationDate := Some(now);
      verificationNotes := notes;
    }

    /** `reject`: the same fields as `verify`, with status rejected. */
    method Reject(verifiedByUser: nat, now: DateTime, notes: string)
      modifies this`verificationStatus, this`verifiedBy, this`verificationDate, this`verificationNotes
      ensures verificationStatus == Rejected && verifiedBy == Some(verifiedByUser)
      ensures verificationDate == Some(now) && verificationNotes == notes
    {
      verificationStatus := Rejected;
      verifiedBy := Some(verifiedByUser);
      verificationDate := Some(now);
      verificationNotes := notes;
    }
  }

  /** Verifying a contribution counts it, once, towards its period's received amount. */
  lemma VerifiedContributionIsReceived(period: PaymentPeriod, earlier: seq<Contribution>, c: Contribution)
    requires c.paymentPeriod == period && c.verificationStatus == Verified
    ensures period.TotalReceivedAmount(earlier + [c]) == period.TotalReceivedAmount(earlier) + c.amount
  {
    assert (earlier + [c])[..|earlier|] == earlier;
  }

  /** A contribution still pending or rejected adds nothing to what was received. */
  lemma UnverifiedContributionIsNotReceived(period: PaymentPeriod, earlier: seq<Contribution>, c: Contribution)
    requires c.verificationStatus != Verified
    ensures period.TotalReceivedAmount(earlier + [c]) == period.TotalReceivedAmount(earlier)
  {
    assert (earlier + [c])[..|earlier|] == earlier;
  }

  datatype PenaltyStatus = Applied | Waived | Paid | Outstanding

  class Penalty
  {
    var member: nat
    var penaltyRule: nat
    var penaltyAmount: Money
    var reason: string
    var appliedDate: Date
    var status: PenaltyStatus
    var waivedBy: Option<nat>
    var waivedDate: Option<Date>
    var waivedReason: string
    var paidDate: Option<Date>
    var paidAmount: Money

    constructor (member: nat, penaltyRule: nat, penaltyAmount: Money, reason: string, appliedDate: Date)
      ensures this.member == member && this.penaltyRule == penaltyRule && this.penaltyAmount == penaltyAmount
      ensures this.reason == reason && this.appliedDate == appliedDate
      ensures status == Applied && waivedBy.None? && waivedDate.None? && waivedReason == ""
      ensures paidDate.None? && paidAmount == 0.0
    {
      this.member := member;
      this.penaltyRule := penaltyRule;
      this.penaltyAmount := penaltyAmount;
      this.reason := reason;
      this.appliedDate := appliedDate;
      status := Applied;
      waivedBy := None;
      waivedDate := None;
      waivedReason := "";
      paidDate := None;
      paidAmount := 0.0;
    }

    /** `outstanding_amount`: what remains of the penalty after what was paid. */
    function OutstandingAmount(): (outstanding: Money)
      reads this
      ensures outstanding + paidAmount == penaltyAmount
      ensures outstanding <= 0.0 <==> paidAmount >= penaltyAmount
    {
      penaltyAmount - paidAmount
    }

    /** `waive`: only the status and the waiver fields change; the amounts stay. */
    method Waive(waivedByUser: nat, today: Date, reason: string)
      modifies this`status, this`waivedBy, this`waivedDate, this`waivedReason
      ensures status == Waived && waivedBy == Some(waivedByUser) && waivedDate == Some(today) && waivedReason == reason
      ensures OutstandingAmount() == old(OutstandingAmount())
    {
      status := Waived;
      waivedBy := Some(waivedByUser);
      waivedDate := Some(today);
      waivedReason := reason;
    }

    /**
     * `mark_as_paid`: the paid amount is set, not added to, and defaults to the
     * whole penalty; the status is paid when that covers the penalty and
     * outstanding otherwise.
     */
    method MarkAsPaid(amount: Option<Money>, paymentDate: Option<Date>, today: Date)
      modifies this`paidAmount, this`paidDate, this`status
      ensures paidAmount == (if amount.Some? then amount.value else penaltyAmount)
      ensures paidDate == (if paymentDate.Some? then paymentDate else Some(today))
      ensures status == Paid <==> OutstandingAmount() <= 0.0
      ensures status == Paid || status == Outstanding
      ensures amount.None? ==> OutstandingAmount() == 0.0 && status == Paid
    {
      var paid := if amount.None? then penaltyAmount else amount.value;
      paidAmount := paid;
      paidDate := if paymentDate.None? then Some(today) else paymentDate;
      if paidAmount >= penaltyAmount {
        status := Paid;
      } else {
        status := Outstanding;
      }
    }
  }

  datatype TransactionType = ContributionPayment | PenaltyPayment | PayoutTransfer | Expense | Transfer | Interest | BankFee | Adjustment

  /** A ledger entry: a positive amount is money in, a negative one money out. */
  datatype Transaction = Transaction(
    stokvel: nat,
    transactionType: TransactionType,
    amount: Money,
    description: string,
    transactionDate: Date)
  {
    predicate IsCredit()
    {
      amount > 0.0
    }

    predicate IsDebit()
    {
      amount < 0.0
    }
  }

  /** No transaction is both a credit and a debit, and one of zero is neither. */
  lemma CreditAndDebitExclusive(t: Transaction)
    ensures !(t.IsCredit() && t.IsDebit())
    ensures t.amount == 0.0 <==> !t.IsCredit() && !t.IsDebit()
  {
  }

  datatype ImportStatus = Processing | ImportCompleted | ImportFailed | PartiallyMatched

  class BankStatementImport
  {
    var stokvel: nat
    var fileName: string
    var status: ImportStatus
    var totalTransactionsImported: int
    var matchedContributions: int
    var processingCompletedDate: Option<DateTime>
    var errorLog: string

    constructor (stokvel: nat, fileName: string)
      ensures this.stokvel == stokvel && this.fileName == fileName && status == Processing
      ensures totalTransactionsImported == 0 && matchedContributions == 0
      ensures processingCompletedDate.None? && errorLog == ""
    {
      this.stokvel := stokvel;
      this.fileName := fileName;
      status := Processing;
      totalTransactionsImported := 0;
      matchedContributions := 0;
      processingCompletedDate := None;
      errorLog := "";
    }

    /** `match_percentage`: matched over imported, as a percentage, and 0 when nothing was imported. */
    function MatchPercentage(): (percentage: real)
      reads this
      ensures totalTransactionsImported <= 0 ==> percentage == 0.0
      ensures totalTransactionsImported > 0 ==>
        percentage * totalTransactionsImported as real == matchedContributions as real * 100.0
    {
      Rate(matchedContributions as real, totalTransactionsImported as real)
    }

    method MarkCompleted(now: DateTime)
      modifies this`status, this`processingCompletedDate
      ensures status == ImportCompleted && processingCompletedDate == Some(now)
    {
      status := ImportCompleted;
      processingCompletedDate := Some(now);
    }

    method MarkFailed(errorMessage: string, now: DateTime)
      modifies this`status, this`errorLog, this`processingCompletedDate
      ensures status == ImportFailed && errorLog == errorMessage && processingCompletedDate == Some(now)
    {
      status := ImportFailed;
      errorLog := errorMessage;
      processingCompletedDate := Some(now);
    }
  }

  /** A fresh import, before any transaction is read, reports 0 per cent. */
  lemma FreshImportMatchesNothing(statement: BankStatementImport)
    requires statement.totalTransactionsImported == 0
    ensures statement.MatchPercentage() == 0.0
  {
  }

  /** Matching at most what was imported keeps the percentage within 0 to 100. */
  lemma MatchPercentageBounds(statement: BankStatementImport)
    requires 0 <= statement.matchedContributions <= statement.totalTransactionsImported
    ensures 0.0 <= statement.MatchPercentage() <= 100.0
  {
    RateBounds(statement.matchedContributions as real, statement.totalTransactionsImported as real);
  }

  datatype PayoutStatus = PayoutPending | Approved | Processed | PayoutCompleted | PayoutFailed | Cancelled

  /** A payout. None of its steps checks the status it starts from. */
  class Payout
  {
    var member: nat
    var payoutAmount: Money
    var status: PayoutStatus
    var approvedBy: Option<nat>
    var processedBy: Option<nat>
    var approvalDate: Option<DateTime>
    var processingDate: Option<DateTime>
    var completionDate: Option<DateTime>
    var referenceNumber: string
    var notes: string

    constructor (member: nat, payoutAmount: Money)
      ensures this.member == member && this.payoutAmount == payoutAmount && status == PayoutPending
      ensures approvedBy.None? && processedBy.None? && approvalDate.None? && processingDate.None? && completionDate.None?
      ensures referenceNumber == "" && notes == ""
    {
      this.member := member;
      this.payoutAmount := payoutAmount;
      status := PayoutPending;
      approvedBy := None;
      processedBy := None;
      approvalDate := None;
      processingDate := None;
      completionDate := None;
      referenceNumber := "";
      notes := "";
    }

    /** `approve`: empty notes leave the existing notes in place. */
    method Approve(approvedByUser: nat, now: DateTime, newNotes: string)
      modifies this`status, this`approvedBy, this`approvalDate, this`notes
      ensures status == Approved && approvedBy == Some(approvedByUser) && approvalDate == Some(now)
      ensures notes == if newNotes != "" then newNotes else old(notes)
    {
      status := Approved;
      approvedBy := Some(approvedByUser);
      approvalDate := Some(now);
      if newNotes != "" {
        notes := newNotes;
      }
    }

    /** `process`: an empty reference leaves the existing reference in place. */
    method Process(processedByUser: nat, now: DateTime, reference: string)
      modifies this`status, this`processedBy, this`processingDate, this`referenceNumber
      ensures status == Processed && processedBy == Some(processedByUser) && processingDate == Some(now)
      ensures referenceNumber == if reference != "" then reference else old(referenceNumber)
    {
      status := Processed;
      processedBy := Some(processedByUser);
      processingDate := Some(now);
      if reference != "" {
        referenceNumber := reference;
      }
    }

    method Complete(now: DateTime)
      modifies this`status, this`completionDate
      ensures status == PayoutCompleted && completionDate == Some(now)
    {
      status := PayoutCompleted;
      completionDate := Some(now);
    }
  }

  /** The three steps in order record who approved and processed the payout and when it completed. */
  method ApproveProcessComplete(payout: Payout, approver: nat, processor: nat, t1: DateTime, t2: DateTime, t3: DateTime, reference: string)
    modifies payout
    ensures payout.status == PayoutCompleted
    ensures payout.approvedBy == Some(approver) && payout.processedBy == Some(processor)
    ensures payout.approvalDate == Some(t1) && payout.processingDate == Some(t2) && payout.completionDate == Some(t3)
    ensures payout.payoutAmount == old(payout.payoutAmount) && payout.notes == old(payout.notes)
  {
    payout.Approve(approver, t1, "");
    payout.Process(processor, t2, reference);
    payout.Complete(t3);
  }
}
