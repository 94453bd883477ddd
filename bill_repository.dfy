/** The queries and aggregates of the bill repository, as functions of the
    stored rows `s`. A comparison with a NULL column is never true, so a bill
    without the compared date or amount drops out of a filter, and a SUM skips it. */
module BillRepository {
  import opened Common
  import opened Collections
  import opened Bills

  /** `findById`: the position of the bill with that key. */
  function IndexOfBill(s: seq<Bill>, id: nat): (r: Option<nat>)
    ensures r.Some? ==> r.value < |s| && s[r.value].id == id
    ensures r.None? <==> forall b :: b in s ==> b.id != id
  {
    FirstIndex(s, (b: Bill) => b.id == id)
  }

  /** The primary key: no two stored bills share an id. */
  ghost predicate DistinctIds(s: seq<Bill>) {
    forall i, j :: 0 <= i < j < |s| ==> s[i].id != s[j].id
  }

  /** With distinct ids, `findById` finds the one bill with that id, and replacing a
      bill by one with the same id keeps the ids distinct. */
  lemma IndexOfBillIsTheRow(s: seq<Bill>, i: nat, b: Bill)
    requires DistinctIds(s) && i < |s|
    ensures IndexOfBill(s, s[i].id) == Some(i)
    ensures b.id == s[i].id ==> DistinctIds(s[i := b])
  {
    var found := IndexOfBill(s, s[i].id);
    if found != Some(i) {
      assert false;
    }
  }

  /** `findBillsByPatientAndStatus`: the patient's bills in one payment status, latest
      bill date first. */
  function FindBillsByPatientAndStatus(s: seq<Bill>, patientId: nat, paymentStatus: PaymentStatus): (r: seq<Bill>)
    ensures forall b :: multiset(r)[b] ==
                        (if b.patientId == patientId && b.paymentStatus == paymentStatus then multiset(s)[b] else 0)
    ensures forall i, j :: 0 <= i < j < |r| ==> r[i].billDate >= r[j].billDate
  {
    var p := (b: Bill) => b.patientId == patientId && b.paymentStatus == paymentStatus;
    FilterMultiset(s, p);
    SortBy(Filter(s, p), (b: Bill) => -b.billDate)
  }

  /** `findOverdueBills`: bills due before `date` whose payment status is not PAID. */
  function FindOverdueBills(s: seq<Bill>, date: Day): (r: seq<Bill>)
    ensures forall b :: b in r <==>
      b in s && b.dueDate.Some? && b.dueDate.value < date && b.paymentStatus != PaymentStatus.Paid
  {
    Filter(s, (b: Bill) => b.dueDate.Some? && b.dueDate.value < date && b.paymentStatus != PaymentStatus.Paid)
  }

  /** The rows `getTotalOutstandingAmount` adds up. */
  predicate Outstanding(b: Bill, patientId: nat) {
    b.patientId == patientId && b.paymentStatus != PaymentStatus.Paid
  }

  /** The WHERE clause of `getTotalOutstandingAmount`, as a row filter. */
  function OutstandingFor(patientId: nat): Bill -> bool {
    (b: Bill) => Outstanding(b, patientId)
  }

  /** The summed columns. */
  function FinalAmountOf(b: Bill): Option<Money> {
    b.finalAmount
  }

  function PaidAmountOf(b: Bill): Option<Money> {
    Some(b.paidAmount)
  }

  /** `getTotalOutstandingAmount`: the sum of the final amounts of the patient's bills not marked PAID: the full final
      amount of each, however much of it has been paid; NULL when none of them has
      a final amount. */
  function GetTotalOutstandingAmount(s: seq<Bill>, patientId: nat): Option<Money> {
    SqlSum(Filter(s, OutstandingFor(patientId)), FinalAmountOf)
  }

  /** The outstanding total is NULL exactly when none of the patient's bills not
      marked PAID has a final amount. */
  lemma OutstandingTotalIsNullIff(s: seq<Bill>, patientId: nat)
    ensures GetTotalOutstandingAmount(s, patientId).None? <==>
              forall b :: b in s && Outstanding(b, patientId) ==> b.finalAmount.None?
  {
    SqlSumNone(Filter(s, OutstandingFor(patientId)), FinalAmountOf);
  }

  /** `getTotalBillsInPeriod`: the sum of the final amounts of bills dated within
      [startDate, endDate]. */
  function GetTotalBillsInPeriod(s: seq<Bill>, startDate: Day, endDate: Day): Option<Money> {
    SqlSum(Filter(s, BilledWithinPeriod(startDate, endDate)), FinalAmountOf)
  }

  /** A bill date within [startDate, endDate], as a row filter. */
  function BilledWithinPeriod(startDate: Day, endDate: Day): Bill -> bool {
    (b: Bill) => startDate <= b.billDate <= endDate
  }

  /** The period's billed total is NULL exactly when no bill dated within it has a
      final amount. */
  lemma BilledTotalIsNullIff(s: seq<Bill>, startDate: Day, endDate: Day)
    ensures GetTotalBillsInPeriod(s, startDate, endDate).None? <==>
              forall b :: b in s && startDate <= b.billDate <= endDate ==> b.finalAmount.None?
  {
    SqlSumNone(Filter(s, BilledWithinPeriod(startDate, endDate)), FinalAmountOf);
  }

  /** A payment date within [startDate, endDate]. */
  predicate PaidWithin(b: Bill, startDate: Day, endDate: Day) {
    b.paymentDate.Some? && startDate <= b.paymentDate.value <= endDate
  }

  /** The WHERE clause of `getTotalCollectionsInPeriod`, as a row filter. */
  function PaidWithinPeriod(startDate: Day, endDate: Day): Bill -> bool {
    (b: Bill) => PaidWithin(b, startDate, endDate)
  }

  /** `getTotalCollectionsInPeriod`: the sum of the paid amounts of bills whose last payment falls within [startDate, endDate]:
      each such bill contributes everything paid on it so far; NULL when there is none. */
  function GetTotalCollectionsInPeriod(s: seq<Bill>, startDate: Day, endDate: Day): Option<Money> {
    SqlSum(Filter(s, PaidWithinPeriod(startDate, endDate)), PaidAmountOf)
  }

  /** The period's collections are NULL exactly when no bill was paid within it. */
  lemma CollectedTotalIsNullIff(s: seq<Bill>, startDate: Day, endDate: Day)
    ensures GetTotalCollectionsInPeriod(s, startDate, endDate).None? <==>
              forall b :: b in s ==> !PaidWithin(b, startDate, endDate)
  {
    SqlSumNone(Filter(s, PaidWithinPeriod(startDate, endDate)), PaidAmountOf);
  }

  /** `findPendingInsuranceBills`: insurance-covered bills whose payment is PENDING. */
  function FindPendingInsuranceBills(s: seq<Bill>): (r: seq<Bill>)
    ensures forall b :: b in r <==> b in s && b.isInsuranceCovered && b.paymentStatus == PaymentStatus.Pending
  {
    Filter(s, (b: Bill) => b.isInsuranceCovered && b.paymentStatus == PaymentStatus.Pending)
  }

  /** One more outstanding bill adds its whole final amount to the patient's total,
      even when most of it has already been paid; a bill marked PAID adds nothing. */
  lemma OutstandingCountsFullFinalAmount(s: seq<Bill>, b: Bill)
    requires b.finalAmount.Some?
    ensures Outstanding(b, b.patientId) ==>
              GetTotalOutstandingAmount(s + [b], b.patientId)
              == Some(GetTotalOutstandingAmount(s, b.patientId).GetOr(0) + b.finalAmount.value)
    ensures !Outstanding(b, b.patientId) ==>
              GetTotalOutstandingAmount(s + [b], b.patientId) == GetTotalOutstandingAmount(s, b.patientId)
  {
    var p := OutstandingFor(b.patientId);
    assert p(b) == Outstanding(b, b.patientId);
    assert FinalAmountOf(b) == b.finalAmount;
    FilteredSumAppend(s, b, p, FinalAmountOf);
  }

  /** A bill paid in full but not marked PAID still counts as owed in full: the
      outstanding total is not the remaining amount. */
  lemma OutstandingIgnoresPaidAmount(b: Bill)
    requires b.finalAmount.Some? && b.finalAmount.value > 0
    requires b.paidAmount == b.finalAmount.value && b.paymentStatus == PaymentStatus.PartiallyPaid
    ensures GetTotalOutstandingAmount([b], b.patientId) == Some(b.finalAmount.value)
    ensures RemainingAmount(b) == Ok(0)
  {
    OutstandingCountsFullFinalAmount([], b);
    assert [] + [b] == [b];
  }

  /** One more bill paid within the period adds everything paid on it to the
      collections total, not only its latest payment. */
  lemma CollectionsCountCumulativePaid(s: seq<Bill>, b: Bill, startDate: Day, endDate: Day)
    requires PaidWithin(b, startDate, endDate)
    ensures GetTotalCollectionsInPeriod(s + [b], startDate, endDate)
            == Some(GetTotalCollectionsInPeriod(s, startDate, endDate).GetOr(0) + b.paidAmount)
  {
    FilteredSumAppend(s, b, PaidWithinPeriod(startDate, endDate), PaidAmountOf);
  }
}
