/** The prescription service: dispensing a stored prescription, and the patient's
    recent and refillable prescriptions. The class stands in for the service
    together with its repository, whose rows it holds. */
module PrescriptionDispensing {
  import opened Common
  import opened Collections
  import opened Prescriptions
  import opened PrescriptionRepository

  /** The prescription `dispensePrescription` saves: DISPENSED, whatever the status
      was, with the given quantity, today's date and the dispenser. */
  function DispenseApplied(p: Prescription, quantity: Int32, dispensedBy: string, today: Day): (r: Prescription)
    ensures r.status == Dispensed && r.dispensedQuantity == quantity
    ensures r.dispensedDate == Some(today) && r.dispensedBy == Some(dispensedBy)
    ensures r == p.(status := r.status, dispensedQuantity := r.dispensedQuantity,
                    dispensedDate := r.dispensedDate, dispensedBy := r.dispensedBy)
  {
    p.(status := Dispensed, dispensedQuantity := quantity, dispensedDate := Some(today), dispensedBy := Some(dispensedBy))
  }

  /** Dispensing again replaces the quantity instead of adding to it, and leaves the
      prescription active. */
  lemma DispenseOverwritesQuantity(p: Prescription, q1: Int32, q2: Int32, by1: string, by2: string, d1: Day, d2: Day)
    ensures DispenseApplied(DispenseApplied(p, q1, by1, d1), q2, by2, d2) == DispenseApplied(p, q2, by2, d2)
    ensures IsActive(DispenseApplied(p, q1, by1, d1))
  {
  }

  /** Any quantity is accepted, even beyond what was prescribed, and it completes the
      course; the refill counters, the dates and the prescribed quantity are untouched,
      so dispensing never changes whether the prescription can be refilled. */
  lemma DispenseIsUnchecked(p: Prescription, quantity: Int32, dispensedBy: string, today: Day, day: Day)
    ensures var r := DispenseApplied(p, quantity, dispensedBy, today);
      && r.refillsUsed == p.refillsUsed && r.refillsAllowed == p.refillsAllowed
      && r.prescribedQuantity == p.prescribedQuantity && r.endDate == p.endDate
      && (CanRefill(r, day) <==> CanRefill(p, day))
      && (quantity >= p.prescribedQuantity ==> IsFullCourseCompleted(r))
  {
  }

  /** A terminal prescription (CANCELLED, COMPLETED, EXPIRED, DISCONTINUED) is
      dispensed all the same and becomes active again. */
  lemma DispenseReopensTerminalStatuses(p: Prescription, quantity: Int32, dispensedBy: string, today: Day)
    requires !IsActive(p)
    ensures IsActive(DispenseApplied(p, quantity, dispensedBy, today))
  {
  }

  /** The outcome of `dispensePrescription` on the stored rows `s`. */
  function DispenseOutcome(s: seq<Prescription>, id: nat, quantity: Int32, dispensedBy: string, today: Day)
    : (r: Result<Prescription>)
    ensures r.Err? <==> forall p :: p in s ==> p.id != id
    ensures r.Err? ==> r.error == PrescriptionNotFound
    ensures r.Ok? ==> r.value.id == id && r.value.status == Dispensed && r.value.dispensedQuantity == quantity
                      && r.value.prescribedQuantity == s[IndexOfPrescription(s, id).value].prescribedQuantity
  {
    match IndexOfPrescription(s, id)
    case None => Err(PrescriptionNotFound)
    case Some(i) => Ok(DispenseApplied(s[i], quantity, dispensedBy, today))
  }

  /** `getRecentPrescriptionsForPatient`: the first page, of `limit` rows, of the
      patient's prescriptions newest first; a page size below one is rejected. */
  function RecentPrescriptionsForPatient(s: seq<Prescription>, patientId: nat, limit: Int32)
    : (r: Result<seq<Prescription>>)
    ensures r.Err? <==> limit < 1
    ensures r.Err? ==> r.error == PageSizeTooSmall
    ensures r.Ok? ==> |r.value| == if limit < |FindPrescriptionsByPatientId(s, patientId)| then limit
                                   else |FindPrescriptionsByPatientId(s, patientId)|
    ensures r.Ok? ==> r.value == FindPrescriptionsByPatientId(s, patientId)[..|r.value|]
    ensures r.Ok? ==> forall p :: p in r.value ==> p in s && p.patientId == patientId
    ensures r.Ok? ==> forall i, j :: 0 <= i < j < |r.value| ==> r.value[i].prescriptionDate >= r.value[j].prescriptionDate
  {
    if limit < 1 then Err(PageSizeTooSmall)
    else
      var all := FindPrescriptionsByPatientId(s, patientId);
      Ok(Take(all, limit))
  }

  class PrescriptionService {
    var prescriptions: seq<Prescription>

    /** The stored prescriptions keep their primary key distinct. */
    ghost predicate Valid()
      reads this
    {
      DistinctIds(prescriptions)
    }

    constructor ()
      ensures Valid() && prescriptions == []
    {
      prescriptions := [];
    }

    /** `getRefillablePrescriptions`: delegates to the repository query. */
    function RefillablePrescriptions(patientId: nat, today: Day): (r: seq<Prescription>)
      reads this
      ensures forall p :: p in r <==> p in prescriptions && Refillable(p, patientId, today)
      ensures forall p :: p in r ==> CanRefill(p, today)
    {
      FindRefillablePrescriptions(prescriptions, patientId, today)
    }

    /** `dispensePrescription`: loads the prescription, overwrites its status and
        dispensing fields, and saves it; an unknown id saves nothing. */
    method DispensePrescription(id: nat, quantity: Int32, dispensedBy: string, today: Day)
      returns (r: Result<Prescription>)
      requires Valid()
      modifies this
      ensures Valid()
      ensures r == DispenseOutcome(old(prescriptions), id, quantity, dispensedBy, today)
      ensures r.Err? ==> prescriptions == old(prescriptions)
      ensures r.Ok? ==> prescriptions == old(prescriptions)[IndexOfPrescription(old(prescriptions), id).value := r.value]
    {
      var found := IndexOfPrescription(prescriptions, id);
      if found.None? {
        return Err(PrescriptionNotFound);
      }
      var i := found.value;
      var prescription := prescriptions[i];
      prescription := prescription.(status := Dispensed);
      prescription := prescription.(dispensedQuantity := quantity);
      prescription := prescription.(dispensedDate := Some(today));
      prescription := prescription.(dispensedBy := Some(dispensedBy));
      IndexOfPrescriptionIsTheRow(prescriptions, i, prescription);
      prescriptions := prescriptions[i := prescription];
      r := Ok(prescription);
    }
  }
}
