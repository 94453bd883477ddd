/** The Prescription entity: its status enumeration, the refill and quantity
    counters, and the predicates it answers about itself. */
module Prescriptions {
  import opened Common

  datatype PrescriptionStatus = Prescribed | Dispensed | Discontinued | Completed | Expired | Cancelled

  /** A stored prescription. The counters are Java `Integer` columns. */
  datatype Prescription = Prescription(
    id: nat,
    patientId: nat,
    doctorId: nat,
    prescriptionDate: Day,
    medicationName: string,
    instructions: string,
    refillsAllowed: Int32,
    refillsUsed: Int32,
    prescribedQuantity: Int32,
    dispensedQuantity: Int32,
    dispensedDate: Option<Day>,
    dispensedBy: Option<string>,
    status: PrescriptionStatus,
    endDate: Option<Day>,
    isEmergency: bool,
    isControlledSubstance: bool)

  predicate IsActive(p: Prescription) {
    p.status == Prescribed || p.status == Dispensed
  }

  /** `today` strictly after the end date; a prescription without one never expires. */
  predicate IsExpired(p: Prescription, today: Day) {
    p.endDate.Some? && today > p.endDate.value
  }

  /** Refills left and not expired; the status plays no part. */
  predicate CanRefill(p: Prescription, today: Day) {
    p.refillsAllowed > p.refillsUsed && !IsExpired(p, today)
  }

  predicate IsFullCourseCompleted(p: Prescription) {
    p.dispensedQuantity >= p.prescribedQuantity
  }

  /** `getRemainingRefills`: a Java `int` subtraction, which wraps on overflow. */
  function RemainingRefills(p: Prescription): (r: Int32)
    ensures Int32Min <= p.refillsAllowed - p.refillsUsed <= Int32Max ==> r == p.refillsAllowed - p.refillsUsed
  {
    Wrap32(p.refillsAllowed - p.refillsUsed)
  }

  /** `getProgressPercentage` as an exact ratio: 0 when nothing was prescribed. */
  function ProgressPercentage(p: Prescription): (r: real)
    ensures p.prescribedQuantity == 0 ==> r == 0.0
    ensures p.prescribedQuantity > 0 && p.dispensedQuantity >= 0 ==> r >= 0.0
    ensures p.prescribedQuantity > 0 ==> (r >= 100.0 <==> IsFullCourseCompleted(p))
  {
    if p.prescribedQuantity == 0 then 0.0
    else
      var ratio := p.dispensedQuantity as real / p.prescribedQuantity as real;
      assert ratio * p.prescribedQuantity as real == p.dispensedQuantity as real;
      assert p.prescribedQuantity > 0 ==> (ratio >= 1.0 <==> ratio * p.prescribedQuantity as real >= p.prescribedQuantity as real);
      ratio * 100.0
  }

  /** Only PRESCRIBED and DISPENSED prescriptions are active. */
  lemma ActiveStatuses(p: Prescription)
    ensures IsActive(p) <==> p.status in {Prescribed, Dispensed}
  {
  }

  /** The end date itself is not past it: on that day the prescription is not expired
      yet, and from the next day on it is. */
  lemma ExpiryIsStrict(p: Prescription, today: Day)
    requires p.endDate == Some(today)
    ensures !IsExpired(p, today) && IsExpired(p, today + 1)
  {
  }

  /** A refillable prescription (with a non-negative count of refills used) has at
      least one refill remaining. */
  lemma CanRefillLeavesRefills(p: Prescription, today: Day)
    requires CanRefill(p, today) && p.refillsUsed >= 0
    ensures RemainingRefills(p) > 0
  {
  }

  /** With a negative count of refills used, the `int` subtraction overflows: the
      prescription can be refilled while its remaining refills read negative. */
  lemma RemainingRefillsWrapsOnNegativeUse()
    ensures var p := Prescription(1, 1, 1, 0, "m", "i", Int32Max, -1, 10, 0, None, None, Prescribed, None, false, false);
      CanRefill(p, 0) && RemainingRefills(p) == Int32Min
  {
  }

  /** Refilling ignores the status: a CANCELLED or DISCONTINUED prescription with
      refills left and no end date can be refilled. */
  lemma CanRefillIgnoresStatus(p: Prescription, today: Day)
    requires p.refillsAllowed > p.refillsUsed && p.endDate.None?
    ensures CanRefill(p.(status := Cancelled), today) && CanRefill(p.(status := Discontinued), today)
  {
  }
}
