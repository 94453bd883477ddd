/** Shared vocabulary of the hospital model: optional values, results carrying the
    service layer's exceptions, Java's 32-bit `int`, money, dates and times. */
module Common {

  /** A nullable column or an `Optional` return value. */
  datatype Option<+T> = None | Some(value: T) {
    function GetOr(default: T): T {
      match this
      case Some(v) => v
      case None => default
    }
  }

  /** The runtime exceptions the services throw, one constructor per message. */
  datatype Error =
    | InvalidTime                  // LocalTime.parse rejects the text
    | DoctorNotAvailableAtTime     // "Doctor is not available at the selected time"
    | DoctorNotAvailableOnDate     // "Doctor is not available on the selected date"
    | AppointmentNotFound          // "Appointment not found"
    | AppointmentCannotBeCancelled // "Appointment cannot be cancelled"
    | NegativeLimit                // Stream.limit with a negative size
    | BillNotFound                 // "Bill not found"
    | NullFinalAmount              // NullPointerException on a bill without finalAmount
    | PrescriptionNotFound         // "Prescription not found"
    | PageSizeTooSmall             // Pageable.ofSize with a size below one
    | EmailAlreadyExists(email: string) // "User with email ... already exists"
    | InvalidOldPassword           // "Invalid old password"

  /** Either the value an operation returns or the exception it throws. */
  datatype Result<+T> = Ok(value: T) | Err(error: Error)

  /** Java `int`: the values an `Integer` column or variable can hold. */
  const Int32Min: int := -0x8000_0000
  const Int32Max: int := 0x7fff_ffff
  type Int32 = x: int | -0x8000_0000 <= x <= 0x7fff_ffff

  /** Two's-complement wrap-around of Java `int` arithmetic. */
  function Wrap32(x: int): (r: Int32)
    ensures Int32Min <= x <= Int32Max ==> r == x
    ensures (x - r) % 0x1_0000_0000 == 0
  {
    var m := x % 0x1_0000_0000;
    if m <= Int32Max then m else m - 0x1_0000_0000
  }

  /** Every amount is a scale-2 `BigDecimal`: an integer number of cents. */
  type Money = int

  /** A `LocalDate` as a day number (days since 1970-01-01, possibly negative). */
  type Day = int

  /** A `LocalTime` at minute resolution: minutes since midnight. */
  const MinutesPerDay: int := 1440
  type MinuteOfDay = m: int | 0 <= m < 1440

  /** A `LocalDateTime` at minute resolution: minutes since 1970-01-01T00:00. */
  type Instant = int

  /** `LocalDateTime.of(date, time)`. */
  function At(date: Day, time: MinuteOfDay): (r: Instant)
    ensures date * MinutesPerDay <= r < (date + 1) * MinutesPerDay
  {
    date * MinutesPerDay + time
  }

  /** Instants order like (date, time) pairs: `isAfter` on date-times is lexicographic. */
  lemma AtOrdersLexicographically(d1: Day, t1: MinuteOfDay, d2: Day, t2: MinuteOfDay)
    ensures At(d1, t1) < At(d2, t2) <==> d1 < d2 || (d1 == d2 && t1 < t2)
  {
    if d1 < d2 {
      assert (d1 + 1) * MinutesPerDay <= d2 * MinutesPerDay;
    } else if d2 < d1 {
      assert (d2 + 1) * MinutesPerDay <= d1 * MinutesPerDay;
    }
  }
}
