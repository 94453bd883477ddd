/** The MedicalRecord entity's vital-sign helpers: the blood-pressure text, the
    urgency flag and the body-mass index. */
module MedicalRecords {
  import opened Common
  import opened Text
  import opened Vitals

  datatype MedicalRecord = MedicalRecord(
    id: nat,
    patientId: nat,
    doctorId: nat,
    recordDate: Day,
    weight: Option<real>,
    height: Option<real>,
    bloodPressureSystolic: Option<Int32>,
    bloodPressureDiastolic: Option<Int32>,
    isConfidential: Option<bool>)

  const NotRecorded: string := "Not recorded"

  /** `getBloodPressureReading`: "systolic/diastolic" in decimal when both are
      recorded, and "Not recorded" otherwise. */
  function BloodPressureReading(m: MedicalRecord): (r: string)
    ensures m.bloodPressureSystolic.None? || m.bloodPressureDiastolic.None? ==> r == NotRecorded
    ensures m.bloodPressureSystolic.Some? && m.bloodPressureDiastolic.Some? ==>
              ParseReading(r) == Some((m.bloodPressureSystolic.value as int, m.bloodPressureDiastolic.value as int))
  {
    match (m.bloodPressureSystolic, m.bloodPressureDiastolic)
    case (Some(systolic), Some(diastolic)) =>
      var a := IntToString(systolic);
      var b := IntToString(diastolic);
      assert '/' !in a;
      SplitAtFirstUndoesJoin(a, '/', b);
      IntToStringRoundTrip(systolic);
      IntToStringRoundTrip(diastolic);
      a + "/" + b
    case _ => NotRecorded
  }

  /** Reads a reading back: the two numbers either side of the first '/'. */
  function ParseReading(s: string): Option<(int, int)> {
    var (a, b) := SplitAtFirst(s, '/');
    match (ParseInt(a), ParseInt(b))
    case (Some(x), Some(y)) => Some((x, y))
    case _ => None
  }

  /** A recorded reading is never the "Not recorded" text, so the two cases cannot be
      confused, and equal recorded readings come from equal pressures. */
  lemma ReadingsAreUnambiguous(m: MedicalRecord, n: MedicalRecord)
    requires m.bloodPressureSystolic.Some? && m.bloodPressureDiastolic.Some?
    ensures BloodPressureReading(m) != NotRecorded
    ensures n.bloodPressureSystolic.Some? && n.bloodPressureDiastolic.Some? && BloodPressureReading(m) == BloodPressureReading(n) ==>
              m.bloodPressureSystolic == n.bloodPressureSystolic && m.bloodPressureDiastolic == n.bloodPressureDiastolic
  {
    var a := IntToString(m.bloodPressureSystolic.value);
    assert BloodPressureReading(m)[0] == a[0];
    assert NotRecorded[0] == 'N';
  }

  /** `isUrgent`: the confidential flag, with a missing flag read as false. */
  predicate IsUrgent(m: MedicalRecord) {
    m.isConfidential == Some(true)
  }

  /** Urgency is the confidentiality flag and nothing else: a record without the flag
      is not urgent, and the vital signs play no part. */
  lemma UrgencyIsConfidentiality(m: MedicalRecord, n: MedicalRecord)
    ensures m.isConfidential.None? ==> !IsUrgent(m)
    ensures m.isConfidential == n.isConfidential ==> (IsUrgent(m) <==> IsUrgent(n))
  {
  }

  /** `getBMI`, from the record's height and weight. */
  function RecordBodyMassIndex(m: MedicalRecord): (r: real)
    ensures !HasBodyMeasurements(m.height, m.weight) ==> r == 0.0
  {
    BodyMassIndex(m.height, m.weight)
  }
}
