/** The Department entity's bed counts and opening state. The bed columns are
    nullable Java `Integer`s. */
module Departments {
  import opened Common

  datatype Department = Department(
    id: nat,
    departmentName: string,
    totalBeds: Option<Int32>,
    availableBeds: Option<Int32>,
    operatingHoursStart: Option<string>,
    operatingHoursEnd: Option<string>,
    workingDays: Option<string>,
    isActiveDepartment: bool)

  /** `hasAvailableBeds`: a recorded, positive number of free beds. */
  predicate HasAvailableBeds(d: Department) {
    d.availableBeds.Some? && d.availableBeds.value > 0
  }

  /** With both counts recorded and consistent, a department has free beds exactly
      when fewer beds are occupied than exist, and, with a positive total, exactly
      when its occupancy is below 100 per cent. A missing count means no free beds. */
  lemma AvailableBedsIffNotFull(d: Department)
    ensures d.availableBeds.None? ==> !HasAvailableBeds(d)
    ensures d.totalBeds.Some? && d.availableBeds.Some? && 0 <= d.availableBeds.value <= d.totalBeds.value ==>
              (HasAvailableBeds(d) <==> OccupiedBeds(d) < d.totalBeds.value)
              && (d.totalBeds.value > 0 ==> (HasAvailableBeds(d) <==> BedOccupancyRate(d) < 100.0))
  {
  }

  /** `getOccupiedBeds`: total minus available as a Java `int` subtraction, and 0 when
      either count is missing. Counts with `0 <= available` never wrap, and the
      result is then negative exactly when more beds are available than exist. */
  function OccupiedBeds(d: Department): (r: Int32)
    ensures d.totalBeds.None? || d.availableBeds.None? ==> r == 0
    ensures d.totalBeds.Some? && d.availableBeds.Some? && d.totalBeds.value >= 0 && d.availableBeds.value >= 0 ==>
              r == d.totalBeds.value - d.availableBeds.value && (r < 0 <==> d.availableBeds.value > d.totalBeds.value)
  {
    if d.totalBeds.None? || d.availableBeds.None? then 0
    else Wrap32(d.totalBeds.value - d.availableBeds.value)
  }

  /** With a negative count of available beds the subtraction overflows: the largest
      ward with one bed "negative" reports the most negative occupancy. */
  lemma OccupiedBedsWraps(d: Department)
    requires d.totalBeds == Some(Int32Max) && d.availableBeds == Some(-1)
    ensures OccupiedBeds(d) == Int32Min
  {
  }

  /** `getBedOccupancyRate`: occupied over total beds, in per cent; 0 when the total is
      missing or zero. Within consistent counts it lies between 0 and 100, and it is
      100 exactly when no bed is available. */
  function BedOccupancyRate(d: Department): (r: real)
    ensures d.totalBeds.None? || d.totalBeds.value == 0 ==> r == 0.0
    ensures d.totalBeds.Some? && d.totalBeds.value > 0 && d.availableBeds.None? ==> r == 0.0
    ensures d.totalBeds.Some? && d.availableBeds.Some? && 0 <= d.availableBeds.value <= d.totalBeds.value ==>
              0.0 <= r <= 100.0 && (r == 100.0 <==> d.totalBeds.value > 0 && d.availableBeds.value == 0)
  {
    if d.totalBeds.None? || d.totalBeds.value == 0 then 0.0
    else
      var total := d.totalBeds.value;
      var occupied := OccupiedBeds(d);
      OccupancyBounds(occupied, total);
      occupied as real / total as real * 100.0
  }

  lemma OccupancyBounds(occupied: int, total: int)
    requires total != 0
    ensures 0 <= occupied <= total ==>
              0.0 <= occupied as real / total as real * 100.0 <= 100.0
              && (occupied as real / total as real * 100.0 == 100.0 <==> occupied == total)
  {
    if 0 <= occupied <= total {
      var q := occupied as real / total as real;
      assert q * total as real == occupied as real;
      assert q <= 1.0;
      assert q == 1.0 <==> occupied == total;
    }
  }

  /** `isOpen`: the department's active flag; the operating hours and working days
      play no part. */
  predicate IsOpen(d: Department) {
    d.isActiveDepartment
  }

  lemma OpenIgnoresOperatingHours(d: Department, start: Option<string>, end: Option<string>, days: Option<string>)
    ensures IsOpen(d.(operatingHoursStart := start, operatingHoursEnd := end, workingDays := days)) == IsOpen(d)
  {
  }
}
