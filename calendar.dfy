/** The proleptic Gregorian calendar that `LocalDate.getYear` reads: which year a day
    number falls in. Years are counted as `LocalDate` counts them, so year 1 follows
    year 0 with no gap. */
module Calendar {
  import opened Common

  predicate IsLeapYear(y: int) {
    y % 4 == 0 && (y % 100 != 0 || y % 400 == 0)
  }

  /** The number of leap years among years 1 to `k` (for `k < 0`, minus the number
      among years `k + 1` to 0). Counted from the start of a 400-year cycle, these
      are the cycle's years 4, 8, ... skipping 100, 200 and 300. */
  function LeapYearsIn(k: int): int {
    k / 4 - k / 100 + k / 400
  }

  /** Days from the start of a cycle to the start of its `k`-th year. */
  function CycleDays(k: int): int {
    365 * k + LeapYearsIn(k)
  }

  /** The day number of January 1st of year `y`; 1970-01-01 is day 0. */
  function FirstDayOfYear(y: int): Day {
    365 * (y - 1970) + LeapYearsIn(y - 1) - 477
  }

  /** A year has 366 days exactly when it is a leap year. */
  lemma YearLength(y: int)
    ensures FirstDayOfYear(y + 1) - FirstDayOfYear(y) == if IsLeapYear(y) then 366 else 365
  {
    var a := y - 1;
    assert y / 4 == a / 4 + (if y % 4 == 0 then 1 else 0);
    assert y / 100 == a / 100 + (if y % 100 == 0 then 1 else 0);
    assert y / 400 == a / 400 + (if y % 400 == 0 then 1 else 0);
  }

  /** Days between two first days grow with the years. */
  lemma {:induction false} FirstDayIncreasing(y1: int, y2: int)
    requires y1 < y2
    ensures FirstDayOfYear(y1) + 365 * (y2 - y1) <= FirstDayOfYear(y2)
    decreases y2 - y1
  {
    YearLength(y2 - 1);
    if y1 < y2 - 1 {
      FirstDayIncreasing(y1, y2 - 1);
    }
  }

  /** Year `1 + 400 e + k` starts `e` whole cycles and `k` years after year 1. */
  lemma CycleShift(e: int, k: int)
    requires 0 <= k <= 400
    ensures FirstDayOfYear(1 + 400 * e + k) == FirstDayOfYear(1) + 146097 * e + CycleDays(k)
  {
    assert (400 * e + k) / 4 == 100 * e + k / 4;
    assert (400 * e + k) / 100 == 4 * e + k / 100;
    assert (400 * e + k) / 400 == e + k / 400;
  }

  /** The year of a cycle that contains day `r` of that cycle, searching upwards
      from a year that starts no later than `r`. */
  function YearInCycle(r: int, k: nat): (y: nat)
    requires k < 400 && CycleDays(k) <= r < CycleDays(400)
    ensures k <= y < 400 && CycleDays(y) <= r < CycleDays(y + 1)
    decreases 400 - k
  {
    if CycleDays(k + 1) <= r then YearInCycle(r, k + 1) else k
  }

  /** Finds the year containing day `d` by counting whole 400-year cycles from
      year 1 and then years within the cycle. */
  function YearSearch(d: Day): (y: int)
    ensures FirstDayOfYear(y) <= d < FirstDayOfYear(y + 1)
  {
    var z := d - FirstDayOfYear(1);
    var era := z / 146097;
    var r := z % 146097;
    assert CycleDays(400) == 146097;
    assert CycleDays(r / 366) <= r;
    var k := YearInCycle(r, r / 366);
    assert FirstDayOfYear(1 + 400 * era + k) <= d by { CycleShift(era, k); }
    assert d < FirstDayOfYear(1 + 400 * era + k + 1) by { CycleShift(era, k + 1); }
    1 + 400 * era + k
  }

  /** No day lies in two years. */
  lemma YearsAreDisjoint(d: Day, y1: int, y2: int)
    requires FirstDayOfYear(y1) <= d < FirstDayOfYear(y1 + 1)
    requires FirstDayOfYear(y2) <= d < FirstDayOfYear(y2 + 1)
    ensures y1 == y2
  {
    if y1 + 1 < y2 { FirstDayIncreasing(y1 + 1, y2); }
    if y2 + 1 < y1 { FirstDayIncreasing(y2 + 1, y1); }
  }

  /** `LocalDate.getYear`: the year whose first day is at or before `d` and whose
      successor's first day is after it. There is exactly one such year
      (`YearsAreDisjoint`); `YearSearch` finds it. */
  ghost function YearOf(d: Day): (y: int)
    ensures FirstDayOfYear(y) <= d < FirstDayOfYear(y + 1)
  {
    var found := YearSearch(d);
    var y :| FirstDayOfYear(y) <= d < FirstDayOfYear(y + 1);
    y
  }

  /** The year of a day is the only year containing it. */
  lemma YearOfUnique(d: Day, y: int)
    requires FirstDayOfYear(y) <= d < FirstDayOfYear(y + 1)
    ensures YearOf(d) == y
  {
    YearsAreDisjoint(d, YearOf(d), y);
  }

  /** Later days never fall in earlier years. */
  lemma YearOfMonotone(d1: Day, d2: Day)
    requires d1 <= d2
    ensures YearOf(d1) <= YearOf(d2)
  {
    var y1, y2 := YearOf(d1), YearOf(d2);
    if y2 < y1 {
      if y2 + 1 < y1 { FirstDayIncreasing(y2 + 1, y1); }
    }
  }

  /** The first day of year `y` is in `y`. */
  lemma YearOfFirstDay(y: int)
    ensures YearOf(FirstDayOfYear(y)) == y
  {
    YearLength(y);
    YearOfUnique(FirstDayOfYear(y), y);
  }

  /** The last day of year `y` is in `y`. */
  lemma YearOfLastDay(y: int)
    ensures YearOf(FirstDayOfYear(y + 1) - 1) == y
  {
    YearLength(y);
    YearOfUnique(FirstDayOfYear(y + 1) - 1, y);
  }

  /** Day 0 is in 1970, and the year 2000 starts on day 10957. */
  lemma EpochYears()
    ensures YearOf(0) == 1970 && FirstDayOfYear(2000) == 10957 && YearOf(10957) == 2000
  {
    YearOfFirstDay(1970);
    YearOfFirstDay(2000);
  }
}
