/** The billing service: recording a payment against a stored bill, and the
    patient's outstanding total. The class stands in for the service together with
    its repository, whose rows it holds. */
module BillPayments {
  import opened Common
  import opened Collections
  import opened Bills
  import opened BillRepository

  /** The bill `BillService.addPayment` saves: the entity records the payment, then
      both status fields are overwritten from `isPaid` and the payment details are
      stamped. A bill the entity cannot compare (no final amount, non-zero balance)
      throws before anything is set. */
  function PaymentApplied(b: Bill, amount: Money, paymentMethod: PaymentMethod, reference: string, today: Day)
    : (r: Result<Bill>)
    ensures r.Err? <==> b.paidAmount + amount != 0 && b.finalAmount.None?
    ensures r.Err? ==> r.error == NullFinalAmount
    ensures r.Ok? ==> r.value.paidAmount == b.paidAmount + amount
    ensures r.Ok? ==> (r.value.paymentStatus == PaymentStatus.Paid <==>
                         b.finalAmount.Some? && b.finalAmount.value <= b.paidAmount + amount)
    ensures r.Ok? ==> r.value.paymentStatus in {PaymentStatus.Paid, PaymentStatus.PartiallyPaid}
    ensures r.Ok? ==> (r.value.status == BillStatus.Paid <==> r.value.paymentStatus == PaymentStatus.Paid)
    ensures r.Ok? ==> (r.value.status == BillStatus.PartiallyPaid <==>
                         r.value.paymentStatus == PaymentStatus.PartiallyPaid)
    ensures r.Ok? ==> r.value == b.(paidAmount := b.paidAmount + amount,
                                    paymentStatus := r.value.paymentStatus, status := r.value.status,
                                    paymentDate := Some(today), paymentMethod := Some(paymentMethod),
                                    paymentReference := Some(reference))
  {
    match AddPayment(b, amount)
    case Err(e) => Err(e)
    case Ok(recorded) =>
      var settled :=
        if IsPaid(recorded) then recorded.(paymentStatus := PaymentStatus.Paid, status := BillStatus.Paid)
        else recorded.(paymentStatus := PaymentStatus.PartiallyPaid, status := BillStatus.PartiallyPaid);
      Ok(settled.(paymentDate := Some(today), paymentMethod := Some(paymentMethod), paymentReference := Some(reference)))
  }

  /** The outcome of `addPayment` on the stored rows `s`. */
  function PaymentOutcome(s: seq<Bill>, billId: nat, amount: Money, paymentMethod: PaymentMethod, reference: string,
                          today: Day): (r: Result<Bill>)
    ensures (r == Err(BillNotFound)) <==> forall b :: b in s ==> b.id != billId
    ensures r.Ok? ==> r.value.id == billId
                      && r.value.paidAmount == s[IndexOfBill(s, billId).value].paidAmount + amount
                      && r.value.paymentDate == Some(today)
  {
    match IndexOfBill(s, billId)
    case None => Err(BillNotFound)
    case Some(i) => PaymentApplied(s[i], amount, paymentMethod, reference, today)
  }

  /** After a payment the bill is either paid or partially paid, never both and
      never neither: `isPartiallyPaid` holds exactly when `isPaid` does not. */
  lemma PaidOrPartiallyPaid(b: Bill, amount: Money, paymentMethod: PaymentMethod, reference: string, today: Day)
    requires PaymentApplied(b, amount, paymentMethod, reference, today).Ok?
    ensures var r := PaymentApplied(b, amount, paymentMethod, reference, today).value;
      IsPartiallyPaid(r) <==> !IsPaid(r)
  {
  }

  /** A payment that leaves nothing paid on a positive bill: the entity derives
      PENDING, and the service overrides it to PARTIALLY_PAID on both fields. */
  lemma ZeroBalanceBecomesPartiallyPaid(b: Bill, amount: Money, paymentMethod: PaymentMethod, reference: string, today: Day)
    requires b.finalAmount.Some? && b.finalAmount.value > 0
    requires b.paidAmount + amount == 0
    ensures AddPayment(b, amount).Ok? && AddPayment(b, amount).value.paymentStatus == PaymentStatus.Pending
    ensures var r := PaymentApplied(b, amount, paymentMethod, reference, today);
      r.Ok? && r.value.paymentStatus == PaymentStatus.PartiallyPaid && r.value.status == BillStatus.PartiallyPaid
  {
  }

  /** Applying the same payment twice records it twice: the paid amount grows by
      twice the amount, so a non-zero payment is not idempotent. */
  lemma {:induction false} PaymentIsNotIdempotent(b: Bill, amount: Money, paymentMethod: PaymentMethod, reference: string, today: Day)
    requires b.finalAmount.Some?
    ensures var once := PaymentApplied(b, amount, paymentMethod, reference, today);
      && once.Ok?
      && var twice := PaymentApplied(once.value, amount, paymentMethod, reference, today);
      && twice.Ok?
      && twice.value.paidAmount == b.paidAmount + 2 * amount
      && (amount != 0 ==> twice.value != once.value)
  {
    var once := PaymentApplied(b, amount, paymentMethod, reference, today);
    assert once.value.finalAmount == b.finalAmount;
  }

  /** With non-negative payments the paid amount never decreases over a run of
      payments that all succeed. */
  lemma PaidAmountMonotone(b: Bill, amount: Money, paymentMethod: PaymentMethod, reference: string, today: Day)
    requires amount >= 0
    requires PaymentApplied(b, amount, paymentMethod, reference, today).Ok?
    ensures PaymentApplied(b, amount, paymentMethod, reference, today).value.paidAmount >= b.paidAmount
  {
  }

  /** A bill whose final amount has been reached stays PAID on both fields under any
      further non-negative payment. */
  lemma PaidInFullStaysPaid(b: Bill, amount: Money, paymentMethod: PaymentMethod, reference: string, today: Day)
    requires PaidInFull(b) && amount >= 0
    ensures var r := PaymentApplied(b, amount, paymentMethod, reference, today);
      r.Ok? && r.value.paymentStatus == PaymentStatus.Paid && r.value.status == BillStatus.Paid
  {
  }

  /** A bill that is paid only because it is marked PAID, with its final amount not
      reached, loses the mark on the next payment that does not reach it: `isPaid`
      held before and fails after, and both fields become PARTIALLY_PAID. */
  lemma PaidByMarkOnlyIsDemoted(b: Bill, amount: Money, paymentMethod: PaymentMethod, reference: string, today: Day)
    requires b.paymentStatus == PaymentStatus.Paid
    requires b.finalAmount.Some? && b.paidAmount + amount < b.finalAmount.value
    ensures IsPaid(b)
    ensures var r := PaymentApplied(b, amount, paymentMethod, reference, today);
      && r.Ok? && !IsPaid(r.value)
      && r.value.paymentStatus == PaymentStatus.PartiallyPaid && r.value.status == BillStatus.PartiallyPaid
  {
  }

  /** After any payment the bill no longer accepts a discount, and a bill the payment
      marks PAID is not overdue on any day. */
  lemma PaymentClosesDiscountsAndOverdue(b: Bill, amount: Money, paymentMethod: PaymentMethod, reference: string,
                                         today: Day, later: Day)
    requires PaymentApplied(b, amount, paymentMethod, reference, today).Ok?
    ensures var r := PaymentApplied(b, amount, paymentMethod, reference, today).value;
      && !CanApplyDiscount(r)
      && (r.paymentStatus == PaymentStatus.Paid ==> !IsOverdue(r, later))
  {
  }

  /** A bill of 99.00: paying 60.00 leaves it PARTIALLY_PAID with 39.00 remaining,
      and paying the 39.00 makes it PAID with nothing remaining. */
  lemma SixtyThenThirtyNine(b: Bill, paymentMethod: PaymentMethod, reference: string, today: Day)
    requires b.finalAmount == Some(9900) && b.paidAmount == 0
    ensures var first := PaymentApplied(b, 6000, paymentMethod, reference, today);
      && first.Ok?
      && first.value.paidAmount == 6000
      && first.value.paymentStatus == PaymentStatus.PartiallyPaid
      && RemainingAmount(first.value) == Ok(3900)
      && var second := PaymentApplied(first.value, 3900, paymentMethod, reference, today);
      && second.Ok?
      && second.value.paymentStatus == PaymentStatus.Paid && second.value.status == BillStatus.Paid
      && RemainingAmount(second.value) == Ok(0)
  {
    var first := PaymentApplied(b, 6000, paymentMethod, reference, today);
    assert first.value.finalAmount == Some(9900);
  }

  class BillService {
    var bills: seq<Bill>

    /** The stored bills keep their primary key distinct. */
    ghost predicate Valid()
      reads this
    {
      DistinctIds(bills)
    }

    constructor ()
      ensures Valid() && bills == []
    {
      bills := [];
    }

    /** `getOutstandingAmountForPatient`: empty exactly when the SUM is NULL, that is
        when none of the patient's bills not marked PAID has a final amount. */
    function OutstandingAmountForPatient(patientId: nat): (r: Option<Money>)
      reads this
      ensures r.None? <==> forall b :: b in bills && Outstanding(b, patientId) ==> b.finalAmount.None?
    {
      OutstandingTotalIsNullIff(bills, patientId);
      GetTotalOutstandingAmount(bills, patientId)
    }

    /** `addPayment`: loads the bill, records the payment on the entity, overwrites
        both status fields from `isPaid`, stamps the payment details and saves it. */
    method AddPayment(billId: nat, amount: Money, paymentMethod: PaymentMethod, reference: string, today: Day)
      returns (r: Result<Bill>)
      requires Valid()
      modifies this
      ensures Valid()
      ensures r == PaymentOutcome(old(bills), billId, amount, paymentMethod, reference, today)
      ensures r.Err? ==> bills == old(bills)
      ensures r.Ok? ==> bills == old(bills)[IndexOfBill(old(bills), billId).value := r.value]
    {
      var found := IndexOfBill(bills, billId);
      if found.None? {
        return Err(BillNotFound);
      }
      var i := found.value;
      var recorded := Bills.AddPayment(bills[i], amount);
      if recorded.Err? {
        return Err(recorded.error);
      }
      var bill := recorded.value;
      if IsPaid(bill) {
        bill := bill.(paymentStatus := PaymentStatus.Paid);
        bill := bill.(status := BillStatus.Paid);
      } else {
        bill := bill.(paymentStatus := PaymentStatus.PartiallyPaid);
        bill := bill.(status := BillStatus.PartiallyPaid);
      }
      bill := bill.(paymentDate := Some(today));
      bill := bill.(paymentMethod := Some(paymentMethod));
      bill := bill.(paymentReference := Some(reference));
      IndexOfBillIsTheRow(bills, i, bill);
      bills := bills[i := bill];
      r := Ok(bill);
    }
  }
}
