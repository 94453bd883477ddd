/** The body-mass index that Patient and MedicalRecord both compute from a height in
    centimetres and a weight in kilograms. Only its guard is modelled exactly; the
    `Double` quotient is written as a real quotient. */
module Vitals {
  import opened Common

  /** The guard of `getBMI`: both measurements present and a positive height. */
  predicate HasBodyMeasurements(heightCm: Option<real>, weightKg: Option<real>) {
    heightCm.Some? && weightKg.Some? && heightCm.value > 0.0
  }

  /** `getBMI`: 0 when either measurement is missing or the height is not positive;
      otherwise the weight over the square of the height in metres. */
  function BodyMassIndex(heightCm: Option<real>, weightKg: Option<real>): (r: real)
    ensures !HasBodyMeasurements(heightCm, weightKg) ==> r == 0.0
  {
    if HasBodyMeasurements(heightCm, weightKg) then
      weightKg.value / ((heightCm.value / 100.0) * (heightCm.value / 100.0))
    else 0.0
  }
}
