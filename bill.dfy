/** The Bill entity: its status enumerations, the amounts it tracks, the predicates
    it answers about itself, and the payment it records. */
module Bills {
  import opened Common

  datatype BillStatus = Draft | Pending | Approved | Paid | PartiallyPaid | Cancelled | Refunded

  datatype PaymentStatus = Pending | PartiallyPaid | Paid | Overdue | Cancelled

  datatype PaymentMethod = Cash | CreditCard | DebitCard | BankTransfer | Check | Insurance | Online | Installment

  /** A stored bill. `finalAmount` and `dueDate` are nullable on the Java side (the
      predicates test them for null); `paidAmount` starts at zero and is never null. */
  datatype Bill = Bill(
    id: nat,
    patientId: nat,
    billDate: Day,
    dueDate: Option<Day>,
    finalAmount: Option<Money>,
    paidAmount: Money,
    status: BillStatus,
    paymentStatus: PaymentStatus,
    paymentMethod: Option<PaymentMethod>,
    paymentDate: Option<Day>,
    paymentReference: Option<string>,
    isInsuranceCovered: bool)

  /** `finalAmount <= paidAmount`, false when there is no final amount. */
  predicate PaidInFull(b: Bill) {
    b.finalAmount.Some? && b.finalAmount.value <= b.paidAmount
  }

  /** Marked PAID, or paid in full. */
  predicate IsPaid(b: Bill) {
    b.paymentStatus == PaymentStatus.Paid || PaidInFull(b)
  }

  /** Past a due date and not paid; `today` strictly after the due date. */
  predicate IsOverdue(b: Bill, today: Day) {
    b.dueDate.Some? && today > b.dueDate.value && !IsPaid(b)
  }

  /** `isPartiallyPaid`: reads the stored payment status only. */
  predicate IsPartiallyPaid(b: Bill) {
    b.paymentStatus == PaymentStatus.PartiallyPaid
  }

  /** `isPartiallyPaid` and `isPaid` are not exclusive on a stored bill: a bill marked
      PARTIALLY_PAID whose paid amount reaches the final amount is both. */
  lemma PartiallyPaidCanBePaid(b: Bill)
    requires b.paymentStatus == PaymentStatus.PartiallyPaid && b.finalAmount == Some(b.paidAmount)
    ensures IsPartiallyPaid(b) && IsPaid(b)
  {
  }

  /** `canApplyDiscount`: only a DRAFT or PENDING bill takes a discount. */
  predicate CanApplyDiscount(b: Bill) {
    b.status == BillStatus.Draft || b.status == BillStatus.Pending
  }

  /** `getRemainingAmount`: the final amount less what was paid, not clamped at zero;
      a bill without a final amount throws. */
  function RemainingAmount(b: Bill): (r: Result<Money>)
    ensures r.Err? <==> b.finalAmount.None?
    ensures r.Ok? ==> r.value + b.paidAmount == b.finalAmount.value
    ensures r.Ok? ==> (r.value <= 0 <==> PaidInFull(b))
  {
    match b.finalAmount
    case None => Err(NullFinalAmount)
    case Some(f) => Ok(f - b.paidAmount)
  }

  /** Euclidean division bounds the quotient on both sides. */
  lemma DivisionBounds(a: int, b: int)
    requires a >= 0 && b > 0
    ensures b * (a / b) <= a < b * (a / b) + b
  {
  }

  /** Multiplying by a non-negative factor keeps an order. */
  lemma MulMonotone(k: int, a: int, b: int)
    requires k >= 0 && a <= b
    ensures k * a <= k * b
  {
    assert k * b - k * a == k * (b - a);
  }

  /** A quotient is fixed by its bounds: `k * q <= m < k * q + k` has one solution. */
  lemma QuotientUnique(k: int, m: int, q: int, q': int)
    requires k > 0
    requires k * q <= m < k * q + k
    requires k * q' <= m < k * q' + k
    ensures q == q'
  {
    if q < q' {
      assert k * (q + 1) == k * q + k;
      MulMonotone(k, q + 1, q');
    } else if q' < q {
      assert k * (q' + 1) == k * q' + k;
      MulMonotone(k, q' + 1, q);
    }
  }

  /** `n / d` rounded to an integer, halves away from zero (`RoundingMode.HALF_UP`). */
  function RoundHalfUp(n: int, d: int): (q: int)
    requires d != 0
    ensures 0 <= n && 0 < d ==> 2 * d * q <= 2 * n + d < 2 * d * q + 2 * d
  {
    var an := if n < 0 then -n else n;
    var ad := if d < 0 then -d else d;
    var m := (2 * an + ad) / (2 * ad);
    DivisionBounds(2 * an + ad, 2 * ad);
    if (n < 0) != (d < 0) then -m else m
  }

  /** The payment ratio `paidAmount / finalAmount` at scale 2, in hundredths (so
      100 is a bill paid exactly), before its conversion to `double`; 0 when the
      final amount is missing or zero. */
  function PaymentProgressHundredths(b: Bill): (r: int)
    ensures b.finalAmount.None? || b.finalAmount == Some(0) ==> r == 0
  {
    match b.finalAmount
    case None => 0
    case Some(f) => if f == 0 then 0 else RoundHalfUp(b.paidAmount * 100, f)
  }

  /** On a positive bill, nothing paid shows 0, the exact amount shows 100, and a
      partial payment something in between. */
  lemma ProgressWithinBounds(b: Bill)
    requires b.finalAmount.Some? && b.finalAmount.value > 0
    requires 0 <= b.paidAmount <= b.finalAmount.value
    ensures 0 <= PaymentProgressHundredths(b) <= 100
    ensures b.paidAmount == 0 ==> PaymentProgressHundredths(b) == 0
    ensures b.paidAmount == b.finalAmount.value ==> PaymentProgressHundredths(b) == 100
  {
    var f := b.finalAmount.value;
    var n := b.paidAmount * 100;
    var q := RoundHalfUp(n, f);
    var k := 2 * f;
    var m := 2 * n + f;
    assert k * q <= m < k * q + k;
    if b.paidAmount == 0 {
      QuotientUnique(k, m, q, 0);
    }
    if b.paidAmount == f {
      assert m == k * 100 + f;
      QuotientUnique(k, m, q, 100);
    }
    if q < 0 {
      assert k * (q + 1) == k * q + k;
      MulMonotone(k, q + 1, 0);
    }
    if q > 100 {
      MulMonotone(k, 101, q);
      MulMonotone(100, b.paidAmount, f);
    }
  }

  /** `updatePaymentStatus`: a zero balance is PENDING (whatever the final amount);
      paid in full makes both statuses PAID; anything else is PARTIALLY_PAID with the
      bill status kept. Comparing a non-zero balance with a missing final amount
      throws. */
  function UpdatePaymentStatus(b: Bill): (r: Result<Bill>)
    ensures r.Err? <==> b.paidAmount != 0 && b.finalAmount.None?
    ensures r.Ok? ==> r.value == b.(paymentStatus := r.value.paymentStatus, status := r.value.status)
    ensures r.Ok? ==> (r.value.paymentStatus == PaymentStatus.Pending <==> b.paidAmount == 0)
    ensures r.Ok? ==> (r.value.paymentStatus == PaymentStatus.Paid <==> b.paidAmount != 0 && PaidInFull(b))
    ensures r.Ok? ==> r.value.paymentStatus in {PaymentStatus.Pending, PaymentStatus.Paid, PaymentStatus.PartiallyPaid}
    ensures r.Ok? && r.value.paymentStatus != PaymentStatus.Paid ==> r.value.status == b.status
    ensures r.Ok? && r.value.paymentStatus == PaymentStatus.Paid ==> r.value.status == BillStatus.Paid
  {
    if b.paidAmount == 0 then Ok(b.(paymentStatus := PaymentStatus.Pending))
    else if b.finalAmount.None? then Err(NullFinalAmount)
    else if b.paidAmount >= b.finalAmount.value then
      Ok(b.(paymentStatus := PaymentStatus.Paid, status := BillStatus.Paid))
    else Ok(b.(paymentStatus := PaymentStatus.PartiallyPaid))
  }

  /** `Bill.addPayment`: the amount (of either sign) is added to what was paid, then
      the payment status is derived again. */
  function AddPayment(b: Bill, amount: Money): (r: Result<Bill>)
    ensures r.Err? <==> b.paidAmount + amount != 0 && b.finalAmount.None?
    ensures r.Ok? ==> r.value.paidAmount == b.paidAmount + amount
    ensures r.Ok? ==> r.value == b.(paidAmount := r.value.paidAmount, paymentStatus := r.value.paymentStatus,
                                    status := r.value.status)
  {
    UpdatePaymentStatus(b.(paidAmount := b.paidAmount + amount))
  }

  /** A payment that brings the balance back to zero leaves the bill PENDING even
      when the final amount is zero too, so that `isPaid` holds while the status
      says PENDING. */
  lemma ZeroBalanceIsPendingEvenWhenSettled(b: Bill, amount: Money)
    requires b.paidAmount + amount == 0
    ensures AddPayment(b, amount).Ok?
    ensures AddPayment(b, amount).value.paymentStatus == PaymentStatus.Pending
    ensures b.finalAmount == Some(0) ==> IsPaid(AddPayment(b, amount).value)
  {
  }

  /** A bill that is paid is never overdue, and a bill whose final amount has been
      reached is paid, whatever its status fields say; overpaying leaves a negative
      remaining amount. */
  lemma PaidBillsAreNeverOverdue(b: Bill, today: Day)
    ensures IsPaid(b) ==> !IsOverdue(b, today)
    ensures PaidInFull(b) ==> IsPaid(b)
    ensures PaidInFull(b) && b.paidAmount > b.finalAmount.value ==>
              RemainingAmount(b).Ok? && RemainingAmount(b).value < 0
  {
  }
}
