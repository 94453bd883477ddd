/** The Patient entity's own questions: admission, age, follow-up and body-mass
    index. The date of birth, which the Java entity reads through the patient's user
    account, is held directly on the record. */
module Patients {
  import opened Common
  import opened Calendar
  import opened Vitals

  /** A stored patient, with the fields its helpers read. Height and weight are
      `Double` columns, taken here as exact reals. */
  datatype Patient = Patient(
    id: nat,
    dateOfBirth: Option<Day>,
    heightCm: Option<real>,
    weightKg: Option<real>,
    admissionDate: Option<Day>,
    dischargeDate: Option<Day>,
    followUpRequired: bool,
    followUpDate: Option<Day>)

  /** `isAdmitted`: admitted and not yet discharged; the dates are not compared. */
  predicate IsAdmitted(p: Patient) {
    p.admissionDate.Some? && p.dischargeDate.None?
  }

  /** Recording a discharge ends an admission, and recording an admission with the
      discharge cleared starts one, whatever the dates. */
  lemma AdmissionFollowsTheDates(p: Patient, admitted: Day, discharged: Day)
    ensures IsAdmitted(p.(admissionDate := Some(admitted), dischargeDate := None))
    ensures !IsAdmitted(p.(dischargeDate := Some(discharged)))
    ensures discharged < admitted ==> !IsAdmitted(p.(admissionDate := Some(admitted), dischargeDate := Some(discharged)))
  {
  }

  /** `getAge`: this year minus the birth year, ignoring month and day; 0 without a
      date of birth. */
  ghost function Age(p: Patient, today: Day): (r: int)
    ensures p.dateOfBirth.None? ==> r == 0
    ensures p.dateOfBirth.Some? && p.dateOfBirth.value <= today ==> r >= 0
  {
    match p.dateOfBirth
    case None => 0
    case Some(born) =>
      var years := YearOf(today) - YearOf(born);
      if born <= today then YearOfMonotone(born, today); years else years
  }

  /** The age is the number of years from the year of birth to this one: going back
      that many years from today's year lands in the year the patient was born. */
  lemma AgeCountsYears(p: Patient, today: Day)
    requires p.dateOfBirth.Some?
    ensures var y := YearOf(today) - Age(p, today);
      FirstDayOfYear(y) <= p.dateOfBirth.value < FirstDayOfYear(y + 1)
  {
    var born := p.dateOfBirth.value;
    assert YearOf(today) - Age(p, today) == YearOf(born);
  }

  /** The age counts calendar years, not birthdays: a patient born on the last day of
      a year is one year old the next day. */
  lemma AgeCountsNewYears(p: Patient, y: int)
    ensures var q := p.(dateOfBirth := Some(FirstDayOfYear(y + 1) - 1));
      Age(q, FirstDayOfYear(y + 1)) == 1
  {
    YearOfLastDay(y);
    YearOfFirstDay(y + 1);
  }

  /** A patient born on the first day of a year is still 0 on its last day. */
  lemma AgeIgnoresBirthdays(p: Patient, y: int)
    ensures var q := p.(dateOfBirth := Some(FirstDayOfYear(y)));
      Age(q, FirstDayOfYear(y + 1) - 1) == 0
  {
    YearOfFirstDay(y);
    YearOfLastDay(y);
  }

  /** `requiresFollowUp`: a follow-up is wanted and booked for a day after today. */
  predicate RequiresFollowUp(p: Patient, today: Day) {
    p.followUpRequired && p.followUpDate.Some? && p.followUpDate.value > today
  }

  /** On the follow-up day itself no follow-up is required any more. */
  lemma FollowUpEndsOnItsDay(p: Patient, today: Day)
    requires p.followUpRequired && p.followUpDate == Some(today)
    ensures !RequiresFollowUp(p, today) && RequiresFollowUp(p, today - 1)
  {
  }

  /** `getBMI`, from the patient's height and weight. */
  function PatientBodyMassIndex(p: Patient): (r: real)
    ensures !HasBodyMeasurements(p.heightCm, p.weightKg) ==> r == 0.0
  {
    BodyMassIndex(p.heightCm, p.weightKg)
  }
}
