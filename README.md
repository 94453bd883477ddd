# Hospital management core in Dafny

This project models the core of a Spring hospital management system (`com.hms`). It covers:

- the scheduling, billing, prescription and user-account services;
- the queries of the repositories those services call;
- the helper methods of the entities they work on: Appointment, Bill, Prescription, User, Patient, Department and MedicalRecord.

**Entities.** Each entity is an immutable datatype record, one field per column the core reads or writes.

- A nullable column is an `Option`.
- A `BigDecimal` amount is an integer number of cents.
- A Java `int` is `Int32`. Where the code does `int` arithmetic, it wraps explicitly through `Wrap32`.
- A `LocalDate` is a day number counted from 1970-01-01.
- A `LocalTime` is a minute of the day.
- A `LocalDateTime` is a minute counted from the epoch.

**Repositories.** Each repository query is a function of the stored rows:

- a WHERE clause is a filter;
- ORDER BY is a sort on a key;
- SUM is an aggregate that is NULL over no rows and skips NULL values;
- `findById` is the first row with that key.

**Services.** Each service is a class holding the rows of its repository. Its methods change those rows step by step, as the Java code does. Each method is proved equal to a specification function (`Book`, `PaymentOutcome`, `DispenseOutcome`, `UpdateById`, ...). The lemmas state what the code promises about those functions.

**Parameters instead of I/O.**

- The clock (`LocalDate.now()`, `LocalDateTime.now()`) is a `today` or `now` parameter.
- The password encoder is a pair of functions that the user service is constructed with.
- Exceptions become the `Err` case of a `Result`, with one error constructor per message the services throw.

**Where the code departs from the documented behaviour, the model follows the code:**

- Booking runs two checks, and both include CANCELLED appointments.
  - The first check is a query with a closed window of times of day, from the start `t` to the time of day the slot ends. Before 23:30 that is `[t, t+30]`, so an appointment starting exactly when the new one ends still blocks the booking. From 23:30 on the end falls on the next day, the window's end is earlier than its start, and the query finds nothing.
  - The second check is the half-open overlap test.
  - A 10:15 booking next to a 10:00 appointment fails at the second check.
- `confirmAppointment`, `startAppointment` and `completeAppointment` accept any prior status. Only cancellation is guarded.
- `addPayment` does not check that the amount is positive.
  - The entity derives PENDING when the balance returns to zero, and the service then overrides that to PARTIALLY_PAID.
  - The paid amount only grows for non-negative amounts.
- `findRefillablePrescriptions` excludes a prescription whose end date is today, although `canRefill` accepts it.
- `finalAmount` is taken as stored. Nothing in the core derives it from the line amounts.
- The no-double-booking invariant the model keeps covers every status, because the checks do.

## Model

| member | source | states |
|---|---|---|
| Common.At | src/main/java/com/hms/service/AppointmentService.java:64 | A date and time combine into an instant that lies within that date's minutes |
| Common.AtOrdersLexicographically | src/main/java/com/hms/service/AppointmentService.java:148-154 | Instants compare as (date, time) pairs, as `LocalDateTime.isBefore`/`isAfter` do |
| Common.Wrap32 | src/main/java/com/hms/entity/Prescription.java:139-141 | Java `int` arithmetic: the identity within the `int` range, and congruent to the exact value modulo 2^32 |
| Collections.Take | src/main/java/com/hms/service/AppointmentService.java:38-42 | `Stream.limit(n)`: a prefix of the input of length min(n, size), holding only input elements |
| Collections.Filter | src/main/java/com/hms/repository/AppointmentRepository.java:46-47 | A WHERE clause: at most the input's rows, and exactly the input's rows that satisfy the condition; `Collections.FilterMultiset` adds that each is kept as often as it occurs |
| Collections.FirstIndex | src/main/java/com/hms/service/AppointmentService.java:97 | The lookup behind `findById`: the first position satisfying the key test, with none before it, and none exactly when no position does |
| Collections.SqlSum | src/main/java/com/hms/repository/BillRepository.java:36-43 | SQL `SUM`: NULL values skipped, NULL over no values; `Collections.SqlSumNone` and `SqlSumAppend` state both |
| Collections.PageOf | src/main/java/com/hms/repository/PrescriptionRepository.java:41 | A `Pageable` page: at most `size` rows; empty once the page starts past the end; otherwise the run of consecutive rows starting at `page * size`, full whenever enough rows remain |
| Collections.PageKeepsOrder | src/main/java/com/hms/repository/PrescriptionRepository.java:39-41 | A page of rows sorted by a key in descending order is itself sorted |
| Collections.PageFollowsPrefix | src/main/java/com/hms/repository/PrescriptionRepository.java:41 | The rows before page `n` followed by page `n` are the rows before page `n + 1` |
| Collections.PagesArePrefix | src/main/java/com/hms/repository/PrescriptionRepository.java:41 | Pages 0 to `n - 1` laid end to end are the first `n * size` rows: the pages split the query result without gaps or repeats |
| Collections.SortBy | src/main/java/com/hms/repository/AppointmentRepository.java:34-38 | ORDER BY: the same rows (as a multiset), in non-decreasing key order |
| Collections.SqlSumNone | src/main/java/com/hms/repository/BillRepository.java:36-43 | A SUM is NULL exactly when no row has a non-NULL value |
| Collections.SqlSumAppend | src/main/java/com/hms/repository/BillRepository.java:36-43 | One more row adds its value to a SUM, or leaves it unchanged when the value is NULL |
| Collections.FilteredSumAppend | src/main/java/com/hms/repository/BillRepository.java:36-43 | One more row adds its value to a filtered SUM exactly when the row matches the WHERE clause and its value is not NULL |
| Calendar.YearLength | src/main/java/com/hms/entity/Patient.java:158-163 | A year has 366 days exactly when it is a Gregorian leap year, and 365 otherwise |
| Calendar.FirstDayIncreasing | src/main/java/com/hms/entity/Patient.java:158-163 | Later years start at least 365 days per year later |
| Calendar.IsLeapYear | src/main/java/com/hms/entity/Patient.java:160 | The Gregorian leap rule of the ISO calendar behind `getYear`; `Calendar.YearLength` states it gives the 366-day years |
| Calendar.FirstDayOfYear | src/main/java/com/hms/entity/Patient.java:160 | The epoch day of January 1st of a year in the ISO calendar; `Calendar.YearLength`, `FirstDayIncreasing` and `EpochYears` state its spacing and anchor |
| Calendar.CycleShift | src/main/java/com/hms/entity/Patient.java:158-163 | Every 400 years the calendar repeats after 146097 days |
| Calendar.YearInCycle | src/main/java/com/hms/entity/Patient.java:158-163 | Finds the year of a 400-year cycle that contains a given day of the cycle |
| Calendar.YearSearch | src/main/java/com/hms/entity/Patient.java:158-163 | `LocalDate.getYear`, computed: the year found contains the day |
| Calendar.YearsAreDisjoint | src/main/java/com/hms/entity/Patient.java:158-163 | No day lies in two years |
| Calendar.YearOf | src/main/java/com/hms/entity/Patient.java:158-163 | `getYear`: the year whose first day is at or before the day and whose successor's first day is after it |
| Calendar.YearOfUnique | src/main/java/com/hms/entity/Patient.java:158-163 | Any year that contains the day is its year |
| Calendar.YearOfMonotone | src/main/java/com/hms/entity/Patient.java:158-163 | A later day never falls in an earlier year |
| Calendar.YearOfFirstDay | src/main/java/com/hms/entity/Patient.java:158-163 | January 1st of a year lies in that year |
| Calendar.YearOfLastDay | src/main/java/com/hms/entity/Patient.java:158-163 | December 31st of a year lies in that year |
| Calendar.EpochYears | src/main/java/com/hms/entity/Patient.java:158-163 | Day 0 is in 1970, and 2000-01-01 is day 10957 |
| Text.IntToString | src/main/java/com/hms/entity/MedicalRecord.java:120-125 | `Integer` to text: non-empty, led by '-' exactly for negative values, otherwise digits only |
| Text.IntToStringRoundTrip | src/main/java/com/hms/entity/MedicalRecord.java:120-125 | Reading back an `int` rendered as text gives the same value |
| Text.ParseTime | src/main/java/com/hms/service/AppointmentService.java:63 | `LocalTime.parse` on the HH:mm form: only five-character texts with a colon at position 2 are accepted |
| Text.FormatTime | src/main/java/com/hms/service/AppointmentService.java:63 | A time of day rendered as HH:mm is five characters long |
| Text.FormatThenParse | src/main/java/com/hms/service/AppointmentService.java:63 | Every time of day has an HH:mm text that parses back to it |
| Text.ParseThenFormat | src/main/java/com/hms/service/AppointmentService.java:63 | Every text the parser accepts is the HH:mm rendering of the time it denotes |
| Text.ToLower | src/main/java/com/hms/repository/PrescriptionRepository.java:39-41 | `LOWER`, character by character: same length, each Latin-1 capital (A-Z, À-Þ without ×) replaced by its small letter, every other character unchanged, and no capital left |
| Text.LowerChar | src/main/java/com/hms/repository/PrescriptionRepository.java:39-41 | The case fold of one character: a capital moves 32 code points on to its small letter, anything else is kept, and the result is never a capital |
| Text.ToLowerIdempotent | src/main/java/com/hms/repository/PrescriptionRepository.java:39-41 | Lower-casing an already lower-cased text changes nothing |
| Text.ToLowerAppend | src/main/java/com/hms/repository/PrescriptionRepository.java:39-41 | Lower-casing a concatenation lower-cases each part, so `LOWER(CONCAT('%', x, '%'))` is `'%' + LOWER(x) + '%'` |
| Text.LikePercentMatchesAll | src/main/java/com/hms/repository/PrescriptionRepository.java:39-41 | The pattern `%` matches every text, the empty one included |
| Text.LikeLeadingPercent | src/main/java/com/hms/repository/PrescriptionRepository.java:39-41 | A text matches `%q` exactly when some suffix of it matches `q` |
| Text.LikeLiteralPrefix | src/main/java/com/hms/repository/PrescriptionRepository.java:39-41 | For a pattern part without wildcards, a text matches `n%` exactly when it begins with `n` |
| Text.LikeContains | src/main/java/com/hms/repository/PrescriptionRepository.java:39-41 | For a search text without wildcards, `LIKE '%' + n + '%'` holds exactly when `n` occurs in the text |
| Text.UnderscoreMatchesAnyNonEmpty | src/main/java/com/hms/repository/PrescriptionRepository.java:39-41 | `%_%` matches exactly the non-empty texts, so `_` is a live wildcard |
| Text.Like | src/main/java/com/hms/repository/PrescriptionRepository.java:39-40 | JPQL `LIKE` with `%`, `_` and literal characters; `Text.LikePercentMatchesAll`, `LikeLeadingPercent`, `LikeLiteralPrefix`, `LikeContains` and `UnderscoreMatchesAnyNonEmpty` state its meaning |
| Appointments.CompletedIffStatus | src/main/java/com/hms/entity/Appointment.java:85-99 | `isCompleted` holds exactly for COMPLETED, and a completed appointment is never cancellable |
| Appointments.UpcomingIffCancellable | src/main/java/com/hms/entity/Appointment.java:89-99 | `isUpcoming` and `canBeCancelled` agree on every appointment at every instant |
| Appointments.NotCancellableFromStart | src/main/java/com/hms/entity/Appointment.java:89-99 | From its own start time on, an appointment is neither upcoming nor cancellable |
| Appointments.CancellableStatuses | src/main/java/com/hms/entity/Appointment.java:95-103 | Only SCHEDULED and CONFIRMED appointments are ever cancellable; for those it holds exactly before the start |
| Appointments.TransitionsIgnorePriorStatus | src/main/java/com/hms/service/AppointmentService.java:96-140 | Confirm, start and complete reach their status from any status. Start and complete stamp the visit time; confirm keeps it, and cancel keeps it too. Confirm, start and complete keep the cancellation reason and date. No transition moves the slot or changes the booking |
| Appointments.ClosedAppointmentsStayUncancellable | src/main/java/com/hms/service/AppointmentService.java:106-140 | After a cancel, start or complete, no later cancellation passes the guard. Confirming makes a future appointment cancellable again |
| Appointments.IsCompleted | src/main/java/com/hms/entity/Appointment.java:85-87 | `isCompleted`; `Appointments.CompletedIffStatus` states it holds exactly for COMPLETED and excludes cancellation |
| Appointments.IsUpcoming | src/main/java/com/hms/entity/Appointment.java:89-93 | `isUpcoming` with `now` as a parameter; `Appointments.UpcomingIffCancellable` and `NotCancellableFromStart` state it is the cancel guard and fails from the start time on |
| Appointments.CanBeCancelled | src/main/java/com/hms/entity/Appointment.java:95-99 | `canBeCancelled`; `Appointments.CancellableStatuses` states it holds only for SCHEDULED and CONFIRMED, exactly before the start |
| Appointments.Confirm | src/main/java/com/hms/service/AppointmentService.java:96-103 | `confirmAppointment`'s update: CONFIRMED from any status; the booking, the cancellation reason and date, and the visit time are all kept |
| Appointments.Start | src/main/java/com/hms/service/AppointmentService.java:132-140 | `startAppointment`'s update: IN_PROGRESS with the visit time now; the booking and the cancellation reason and date are kept |
| Appointments.Complete | src/main/java/com/hms/service/AppointmentService.java:121-129 | `completeAppointment`'s update: COMPLETED with the visit time now; the booking and the cancellation reason and date are kept |
| Appointments.Cancel | src/main/java/com/hms/service/AppointmentService.java:106-118 | `cancelAppointment`'s update: CANCELLED with the reason and date now; the booking and the visit time are kept |
| Appointments.StartOf | src/main/java/com/hms/entity/Appointment.java:96 | `LocalDateTime.of(appointmentDate, appointmentTime)`; `Common.AtOrdersLexicographically` states instants order as (date, time) |
| Appointments.EndOf | src/main/java/com/hms/service/AppointmentService.java:153-154 | The start plus `plusMinutes(durationMinutes)`, the end of a stored appointment in the conflict check; `AppointmentScheduling.IsDoctorAvailable` states its use |
| Appointments.SameBooking | src/main/java/com/hms/service/AppointmentService.java:96-140 | The fields no transition touches: id, patient, doctor, date, time, duration, reason, notes and the emergency flag; `Appointments.TransitionsIgnorePriorStatus` states every transition keeps them |
| Appointments.ReconfirmKeepsStaleCancellation | src/main/java/com/hms/service/AppointmentService.java:96-118 | Confirming a cancelled appointment re-opens it as CONFIRMED with the old cancellation reason and date still recorded |
| AppointmentRepository.FindRecentAppointmentsByPatientId | src/main/java/com/hms/repository/AppointmentRepository.java:34-35 | Each of the patient's non-cancelled rows, with its multiplicity, latest date first |
| AppointmentRepository.FindTodaysAppointments | src/main/java/com/hms/repository/AppointmentRepository.java:37-38 | Each of the doctor's rows on that date, with its multiplicity, earliest time first |
| AppointmentRepository.FindUpcomingAppointments | src/main/java/com/hms/repository/AppointmentRepository.java:40-41 | Exactly the SCHEDULED or CONFIRMED rows dated after the date |
| AppointmentRepository.FindAppointmentsByDoctorAndDateRange | src/main/java/com/hms/repository/AppointmentRepository.java:46-49 | Exactly the doctor's rows dated within the closed range, of any status |
| AppointmentRepository.FindConflictingAppointments | src/main/java/com/hms/repository/AppointmentRepository.java:54-58 | Exactly the doctor's rows on the date whose start time of day lies in the closed window, regardless of duration and status; nothing when the window's end is earlier than its start |
| AppointmentRepository.FindOverdueAppointments | src/main/java/com/hms/repository/AppointmentRepository.java:63-64 | Exactly the rows with the given status dated before the date |
| AppointmentRepository.FindEmergencyAppointments | src/main/java/com/hms/repository/AppointmentRepository.java:66-67 | Exactly the emergency rows that are SCHEDULED, CONFIRMED or IN_PROGRESS |
| AppointmentScheduling.TimeConflictSymmetric | src/main/java/com/hms/service/AppointmentService.java:157-159 | The conflict test is symmetric, and windows that only touch do not conflict |
| AppointmentScheduling.IsTimeConflict | src/main/java/com/hms/service/AppointmentService.java:157-159 | `isTimeConflict`, the half-open overlap test; `AppointmentScheduling.TimeConflictSymmetric` states it is symmetric and that touching windows do not conflict |
| AppointmentScheduling.IsDoctorAvailable | src/main/java/com/hms/service/AppointmentService.java:143-155 | Available exactly when no stored appointment of the doctor on that date overlaps the 30-minute window. Each stored appointment counts with its own duration and any status |
| AppointmentScheduling.BookingOutcome | src/main/java/com/hms/service/AppointmentService.java:60-93 | A booking succeeds exactly when the time parses, no appointment starts between t and the slot's end time of day (t+30 before 23:30, an empty window from 23:30 on), and none overlaps [t, t+30). The result is a new SCHEDULED, non-emergency, 30-minute appointment with exactly the given details. An unparsable time fails with the time error |
| AppointmentScheduling.SlotEndTime | src/main/java/com/hms/service/AppointmentService.java:64-69 | The time of day of `plusMinutes(30)`: t+30, or t+30-1440 when the slot crosses midnight, which is exactly when it is earlier than t |
| AppointmentScheduling.Book | src/main/java/com/hms/service/AppointmentService.java:60-93 | The outcome of `bookAppointment`; `AppointmentScheduling.BookingOutcome` states when it succeeds and what it creates |
| AppointmentScheduling.NewAppointment | src/main/java/com/hms/service/AppointmentService.java:80-90 | The builder in `bookAppointment`: SCHEDULED, 30 minutes, not an emergency, with the given details; `AppointmentScheduling.BookingOutcome` states every field |
| AppointmentScheduling.BookingRejectsStartInWindow | src/main/java/com/hms/service/AppointmentService.java:66-73 | An appointment starting between t and the slot's end time of day makes the booking fail with "not available at the selected time" |
| AppointmentScheduling.LateBookingSkipsFirstCheck | src/main/java/com/hms/service/AppointmentService.java:64-78 | From 23:30 on the query window is empty and the overlap test alone decides the booking |
| AppointmentScheduling.LateOverlapFailsSecondCheck | src/main/java/com/hms/service/AppointmentService.java:64-78 | A 23:45 booking next to a 23:50 appointment fails with "not available on the selected date", not with the time error |
| AppointmentScheduling.BookingRejectsOverlap | src/main/java/com/hms/service/AppointmentService.java:66-78 | Any overlapping appointment of the doctor on that date, CANCELLED included, makes the booking fail |
| AppointmentScheduling.BookingRejectsTouchingNextSlot | src/main/java/com/hms/service/AppointmentService.java:66-73 | An appointment starting exactly when the new one would end blocks the booking, although the two windows do not overlap |
| AppointmentScheduling.BookedSlotIsFree | src/main/java/com/hms/service/AppointmentService.java:60-93 | A booked window overlaps no stored appointment of the same doctor on that date, in either direction |
| AppointmentScheduling.BookingPreservesNoDoubleBooking | src/main/java/com/hms/service/AppointmentService.java:60-93 | Saving a successful booking keeps every doctor's appointments on every date free of overlaps |
| AppointmentScheduling.NoDoubleBooking | src/main/java/com/hms/service/AppointmentService.java:66-78 | What the two booking checks protect: no two stored appointments of one doctor on one date overlap, whatever their status; `AppointmentScheduling.BookingPreservesNoDoubleBooking` states a booking keeps it |
| AppointmentScheduling.PreviousDayOverrunNotChecked | src/main/java/com/hms/service/AppointmentService.java:143-155 | An appointment running past midnight does not block a 00:00 booking on the next day, although the windows overlap |
| AppointmentScheduling.TenFifteenFailsTenThirtySucceeds | src/main/java/com/hms/service/AppointmentService.java:60-93 | Next to a 10:00 appointment of 30 minutes, a 10:15 booking fails and a 10:30 booking succeeds |
| AppointmentScheduling.IndexOfId | src/main/java/com/hms/service/AppointmentService.java:97 | `findById`: the index found holds that id; none is found exactly when no row has it |
| AppointmentScheduling.UnknownIdChangesNothing | src/main/java/com/hms/service/AppointmentService.java:96-140 | Every transition on an unknown id fails with "Appointment not found" and saves nothing |
| AppointmentScheduling.ConfirmOutcome | src/main/java/com/hms/service/AppointmentService.java:96-103 | Fails with "Appointment not found" exactly when no row has the id; otherwise that row, CONFIRMED, with its booking, cancellation fields and visit time kept |
| AppointmentScheduling.StartOutcome | src/main/java/com/hms/service/AppointmentService.java:132-140 | Fails with "Appointment not found" exactly when no row has the id; otherwise that row, IN_PROGRESS with the visit time now, its booking and cancellation fields kept |
| AppointmentScheduling.CompleteOutcome | src/main/java/com/hms/service/AppointmentService.java:121-129 | Fails with "Appointment not found" exactly when no row has the id; otherwise that row, COMPLETED with the visit time now, its booking and cancellation fields kept |
| AppointmentScheduling.CancelOutcome | src/main/java/com/hms/service/AppointmentService.java:106-118 | "Appointment not found" exactly when no row has the id; "cannot be cancelled" exactly when the row fails `canBeCancelled`; otherwise that row, CANCELLED with the reason and date, its booking and visit time kept |
| AppointmentScheduling.SaveKeepsPosition | src/main/java/com/hms/service/AppointmentService.java:100 | Saving an updated row replaces it in place, where it is found again |
| AppointmentScheduling.Save | src/main/java/com/hms/service/AppointmentService.java:100 | `save`: the row with the same key is replaced, or a new row appended; `AppointmentScheduling.SaveKeepsPosition` states the replacement stays in place |
| AppointmentScheduling.Saved | src/main/java/com/hms/service/AppointmentService.java:96-140 | The rows after a transition: a failure saves nothing; `AppointmentScheduling.UnknownIdChangesNothing` states it |
| AppointmentScheduling.SecondCancelFails | src/main/java/com/hms/service/AppointmentService.java:106-118 | After a saved cancellation, cancelling the same id fails with "cannot be cancelled" at any instant |
| AppointmentScheduling.AppendKeepsStoreValid | src/main/java/com/hms/service/AppointmentService.java:92 | Appending a row under the next key without a double booking keeps ids unique and the store valid |
| AppointmentScheduling.TransitionKeepsStoreValid | src/main/java/com/hms/service/AppointmentService.java:96-140 | Replacing a row with a transition of it keeps the store valid, because transitions never move a slot |
| AppointmentScheduling.ValidStore | src/main/java/com/hms/service/AppointmentService.java:60-140 | The store invariant: ids distinct and below the next key, and no double booking; `AppendKeepsStoreValid` and `TransitionKeepsStoreValid` state every operation keeps it |
| AppointmentScheduling.RecentAppointmentsForPatient | src/main/java/com/hms/service/AppointmentService.java:38-42 | A negative limit fails. Otherwise the result is the first min(limit, count) of the patient's non-cancelled appointments, latest date first |
| AppointmentScheduling.AppointmentService.constructor | src/main/java/com/hms/repository/AppointmentRepository.java:18 | An empty repository: an empty, valid store whose first key is 1 |
| AppointmentScheduling.AppointmentService.BookAppointment | src/main/java/com/hms/service/AppointmentService.java:60-93 | Returns `Book` of the old rows. On success it appends the appointment under the next key, otherwise it changes nothing. It keeps the no-double-booking invariant |
| AppointmentScheduling.AppointmentService.ConfirmAppointment | src/main/java/com/hms/service/AppointmentService.java:96-103 | Returns the confirm outcome and saves it, keeping the store valid |
| AppointmentScheduling.AppointmentService.StartAppointment | src/main/java/com/hms/service/AppointmentService.java:132-140 | Returns the start outcome and saves it, keeping the store valid |
| AppointmentScheduling.AppointmentService.CompleteAppointment | src/main/java/com/hms/service/AppointmentService.java:121-129 | Returns the complete outcome and saves it, keeping the store valid |
| AppointmentScheduling.AppointmentService.CancelAppointment | src/main/java/com/hms/service/AppointmentService.java:106-118 | Returns the guarded cancel outcome and saves only a success, keeping the store valid |
| Bills.RemainingAmount | src/main/java/com/hms/entity/Bill.java:149-151 | Throws exactly without a final amount. Otherwise it is the amount that added to what was paid gives the final amount. It is at most zero exactly when the bill is paid in full |
| Bills.RoundHalfUp | src/main/java/com/hms/entity/Bill.java:144-147 | HALF_UP division: for non-negative operands the quotient is the nearest integer, with halves rounded up |
| Bills.PaymentProgressHundredths | src/main/java/com/hms/entity/Bill.java:144-147 | The payment progress is 0 when the final amount is missing or zero |
| Bills.ProgressWithinBounds | src/main/java/com/hms/entity/Bill.java:144-147 | On a positive bill the progress is 0 when nothing is paid, 100 when paid exactly, and in between otherwise |
| Bills.UpdatePaymentStatus | src/main/java/com/hms/entity/Bill.java:162-171 | A zero balance is PENDING. Paid in full makes both fields PAID. Anything else is PARTIALLY_PAID with the bill status kept. A missing final amount with a non-zero balance throws. No other field changes |
| Bills.AddPayment | src/main/java/com/hms/entity/Bill.java:157-160 | The amount is added to the paid amount and the statuses are derived again; only those fields change |
| Bills.ZeroBalanceIsPendingEvenWhenSettled | src/main/java/com/hms/entity/Bill.java:162-171 | A payment bringing the balance to zero leaves PENDING, even on a zero bill that `isPaid` calls paid |
| Bills.PaidBillsAreNeverOverdue | src/main/java/com/hms/entity/Bill.java:131-151 | A paid bill is never overdue. Reaching the final amount makes a bill paid. Overpaying leaves a negative remaining amount |
| Bills.PaidInFull | src/main/java/com/hms/entity/Bill.java:133 | The amount half of `isPaid`: a final amount at or below what was paid; `Bills.PaidBillsAreNeverOverdue` states reaching it makes a bill paid |
| Bills.IsPaid | src/main/java/com/hms/entity/Bill.java:131-134 | `isPaid`; `Bills.PaidBillsAreNeverOverdue` states that reaching the final amount makes a bill paid |
| Bills.IsOverdue | src/main/java/com/hms/entity/Bill.java:136-138 | `isOverdue` with `today` as a parameter; `Bills.PaidBillsAreNeverOverdue` states a paid bill is never overdue |
| Bills.IsPartiallyPaid | src/main/java/com/hms/entity/Bill.java:140-142 | `isPartiallyPaid`, the stored status alone; `Bills.PartiallyPaidCanBePaid` and `BillPayments.PaidOrPartiallyPaid` relate it to `isPaid` |
| Bills.PartiallyPaidCanBePaid | src/main/java/com/hms/entity/Bill.java:131-142 | A stored bill can be both partially paid and paid: PARTIALLY_PAID with the paid amount at the final amount |
| Bills.CanApplyDiscount | src/main/java/com/hms/entity/Bill.java:153-155 | `canApplyDiscount`; `BillPayments.PaymentClosesDiscountsAndOverdue` states no discount applies after a payment |
| BillRepository.IndexOfBill | src/main/java/com/hms/service/BillService.java:61 | `findById`: the index found holds that id; none is found exactly when no row has it |
| BillRepository.IndexOfBillIsTheRow | src/main/java/com/hms/service/BillService.java:61-76 | With distinct ids, looking up the id of row i finds row i, and replacing that row by one with the same id keeps the ids distinct |
| BillRepository.FindBillsByPatientAndStatus | src/main/java/com/hms/repository/BillRepository.java:30-31 | Each of the patient's rows in that payment status, with its multiplicity, latest bill date first |
| BillRepository.FindOverdueBills | src/main/java/com/hms/repository/BillRepository.java:33-34 | Exactly the rows with a due date before the date whose payment status is not PAID |
| BillRepository.OutstandingTotalIsNullIff | src/main/java/com/hms/repository/BillRepository.java:36-37 | The outstanding SUM is NULL exactly when none of the patient's non-PAID bills has a final amount |
| BillRepository.BilledTotalIsNullIff | src/main/java/com/hms/repository/BillRepository.java:39-40 | The period's billed SUM is NULL exactly when no bill dated within it has a final amount |
| BillRepository.CollectedTotalIsNullIff | src/main/java/com/hms/repository/BillRepository.java:42-43 | The period's collections SUM is NULL exactly when no bill has a payment date within it |
| BillRepository.FindPendingInsuranceBills | src/main/java/com/hms/repository/BillRepository.java:49-50 | Exactly the insurance-covered rows whose payment status is PENDING |
| BillRepository.OutstandingCountsFullFinalAmount | src/main/java/com/hms/repository/BillRepository.java:36-37 | One more non-PAID bill adds its whole final amount to the outstanding total, however much is paid on it. A PAID bill adds nothing |
| BillRepository.OutstandingIgnoresPaidAmount | src/main/java/com/hms/repository/BillRepository.java:36-37 | A bill paid in full but not marked PAID is still owed in full, although its remaining amount is zero |
| BillRepository.CollectionsCountCumulativePaid | src/main/java/com/hms/repository/BillRepository.java:42-43 | A bill paid within the period adds everything paid on it to the collections, not just its last payment |
| BillRepository.GetTotalOutstandingAmount | src/main/java/com/hms/repository/BillRepository.java:36-37 | The outstanding SUM; `BillRepository.OutstandingTotalIsNullIff`, `OutstandingCountsFullFinalAmount` and `OutstandingIgnoresPaidAmount` state its NULL case and what each bill adds |
| BillRepository.Outstanding | src/main/java/com/hms/repository/BillRepository.java:36 | The WHERE clause of the outstanding SUM: the patient's bills not marked PAID; `BillRepository.OutstandingTotalIsNullIff` states its use |
| BillRepository.GetTotalBillsInPeriod | src/main/java/com/hms/repository/BillRepository.java:39-40 | The period's billed SUM; `BillRepository.BilledTotalIsNullIff` states its NULL case |
| BillRepository.GetTotalCollectionsInPeriod | src/main/java/com/hms/repository/BillRepository.java:42-43 | The period's collections SUM; `BillRepository.CollectedTotalIsNullIff` and `CollectionsCountCumulativePaid` state its NULL case and what each bill adds |
| BillRepository.PaidWithin | src/main/java/com/hms/repository/BillRepository.java:42 | The WHERE clause of the collections SUM: a payment date within the closed period; `BillRepository.CollectedTotalIsNullIff` states its use |
| BillPayments.PaymentApplied | src/main/java/com/hms/service/BillService.java:62-74 | The saved bill has the amount added. Both status fields are PAID exactly when the final amount is reached, and PARTIALLY_PAID otherwise. The payment date, method and reference are stamped. It fails exactly when the entity cannot compare |
| BillPayments.PaymentOutcome | src/main/java/com/hms/service/BillService.java:60-77 | Fails with "Bill not found" exactly when no row has the id; otherwise that bill, with the amount added to what was paid and today's payment date |
| BillPayments.PaidOrPartiallyPaid | src/main/java/com/hms/service/BillService.java:62-74 | After a payment a bill is partially paid exactly when it is not paid |
| BillPayments.ZeroBalanceBecomesPartiallyPaid | src/main/java/com/hms/service/BillService.java:63-70 | When the balance returns to zero, the entity derives PENDING and the service overrides it to PARTIALLY_PAID |
| BillPayments.PaymentIsNotIdempotent | src/main/java/com/hms/service/BillService.java:60-77 | Applying a payment twice records it twice |
| BillPayments.PaidAmountMonotone | src/main/java/com/hms/entity/Bill.java:157-160 | A non-negative payment never lowers the paid amount |
| BillPayments.PaidInFullStaysPaid | src/main/java/com/hms/service/BillService.java:64-66 | A bill that has reached its final amount stays PAID on both fields under any non-negative payment |
| BillPayments.PaidByMarkOnlyIsDemoted | src/main/java/com/hms/service/BillService.java:64-70 | A bill paid only by its PAID mark is demoted to PARTIALLY_PAID by a payment that does not reach the final amount |
| BillPayments.PaymentClosesDiscountsAndOverdue | src/main/java/com/hms/service/BillService.java:64-70 | After a payment no discount applies, and a bill marked PAID is never overdue |
| BillPayments.SixtyThenThirtyNine | src/main/java/com/hms/service/BillService.java:60-77 | On a 99.00 bill, paying 60.00 leaves it PARTIALLY_PAID with 39.00 remaining; paying 39.00 more makes it PAID with nothing remaining |
| BillPayments.BillService.constructor | src/main/java/com/hms/repository/BillRepository.java:17 | An empty repository, whose ids are trivially distinct |
| BillPayments.BillService.OutstandingAmountForPatient | src/main/java/com/hms/service/BillService.java:39-42 | Empty exactly when none of the patient's non-PAID bills has a final amount |
| BillPayments.BillService.AddPayment | src/main/java/com/hms/service/BillService.java:60-77 | Returns `PaymentOutcome` of the old rows. It replaces the bill in place on success and changes nothing on failure. The stored ids stay distinct |
| Prescriptions.RemainingRefills | src/main/java/com/hms/entity/Prescription.java:139-141 | Refills allowed minus refills used, whenever that fits in an `int` |
| Prescriptions.ProgressPercentage | src/main/java/com/hms/entity/Prescription.java:143-146 | 0 when nothing was prescribed, and non-negative for non-negative counts. It reaches 100 exactly when the full course has been dispensed |
| Prescriptions.ActiveStatuses | src/main/java/com/hms/entity/Prescription.java:123-125 | Active exactly in PRESCRIBED and DISPENSED |
| Prescriptions.ExpiryIsStrict | src/main/java/com/hms/entity/Prescription.java:127-129 | A prescription is not expired on its end date, and is expired the day after |
| Prescriptions.CanRefillLeavesRefills | src/main/java/com/hms/entity/Prescription.java:131-141 | A refillable prescription has a refill remaining |
| Prescriptions.RemainingRefillsWrapsOnNegativeUse | src/main/java/com/hms/entity/Prescription.java:131-141 | With a negative count of refills used, a refillable prescription reads the most negative remaining count |
| Prescriptions.CanRefillIgnoresStatus | src/main/java/com/hms/entity/Prescription.java:131-133 | Cancelled and discontinued prescriptions can still be refilled |
| Prescriptions.IsActive | src/main/java/com/hms/entity/Prescription.java:123-125 | `isActive`; `Prescriptions.ActiveStatuses` states it holds exactly in PRESCRIBED and DISPENSED |
| Prescriptions.IsExpired | src/main/java/com/hms/entity/Prescription.java:127-129 | `isExpired` with `today` as a parameter; `Prescriptions.ExpiryIsStrict` states the end date itself is not expired |
| Prescriptions.CanRefill | src/main/java/com/hms/entity/Prescription.java:131-133 | `canRefill`; `Prescriptions.CanRefillLeavesRefills` and `CanRefillIgnoresStatus` state it leaves a refill and ignores the status |
| Prescriptions.IsFullCourseCompleted | src/main/java/com/hms/entity/Prescription.java:135-137 | `isFullCourseCompleted`; `Prescriptions.ProgressPercentage` states the progress reaches 100 exactly then |
| PrescriptionRepository.IndexOfPrescription | src/main/java/com/hms/service/PrescriptionService.java:60 | `findById`: the index found holds that id; none is found exactly when no row has it |
| PrescriptionRepository.IndexOfPrescriptionIsTheRow | src/main/java/com/hms/service/PrescriptionService.java:59-69 | With distinct ids, looking up the id of row i finds row i, and replacing that row by one with the same id keeps the ids distinct |
| PrescriptionRepository.NewestFirst | src/main/java/com/hms/repository/PrescriptionRepository.java:24 | The same rows, latest prescription date first |
| PrescriptionRepository.FindRefillablePrescriptions | src/main/java/com/hms/repository/PrescriptionRepository.java:21-25 | Each of the patient's rows with refills left and no end date or a later one, with its multiplicity, newest first |
| PrescriptionRepository.Refillable | src/main/java/com/hms/repository/PrescriptionRepository.java:21-23 | The WHERE clause of the refill query; `PrescriptionRepository.RefillableImpliesCanRefill` states every row passing it passes `canRefill` |
| PrescriptionRepository.RefillableImpliesCanRefill | src/main/java/com/hms/repository/PrescriptionRepository.java:21-25 | Every row the query returns passes `canRefill`, but a row ending today is left out although `canRefill` accepts it |
| PrescriptionRepository.RefillEligibilityCases | src/main/java/com/hms/repository/PrescriptionRepository.java:21-25 | Of three prescriptions (refills used up, refills left, already ended), only the one with refills left is returned |
| PrescriptionRepository.FindExpiredPrescriptions | src/main/java/com/hms/repository/PrescriptionRepository.java:29-30 | Exactly the patient's PRESCRIBED rows ending on or before the date |
| PrescriptionRepository.ExpiredQueryIncludesEndDate | src/main/java/com/hms/repository/PrescriptionRepository.java:29-30 | The expiry query returns a row on its end date, which `isExpired` does not call expired |
| PrescriptionRepository.FindPrescriptionsByPatientId | src/main/java/com/hms/repository/PrescriptionRepository.java:33-34 | Each of the patient's rows, with its multiplicity, newest first |
| PrescriptionRepository.SearchPrescriptions | src/main/java/com/hms/repository/PrescriptionRepository.java:39-41 | The requested page of the matching rows: at most `size` rows, each a row of the patient that matches, newest first; the run of matches starting at `page * size`, full whenever enough matches remain, and empty past the end |
| PrescriptionRepository.SearchMatches | src/main/java/com/hms/repository/PrescriptionRepository.java:39-40 | Each of the patient's rows whose lower-cased medication name or instructions is LIKE the lower-cased `%search%`, with its multiplicity, newest first |
| PrescriptionRepository.MatchesSearch | src/main/java/com/hms/repository/PrescriptionRepository.java:39-40 | The search's WHERE condition on one row: either lower-cased column LIKE the lower-cased `%search%`; `PlainSearchIsSubstring`, `EmptySearchMatchesAll` and `SearchWildcardsAreLive` state its meaning |
| PrescriptionRepository.PlainSearchIsSubstring | src/main/java/com/hms/repository/PrescriptionRepository.java:39-40 | For a search text without `%` or `_`, a row matches exactly when the lower-cased text occurs in either lower-cased column |
| PrescriptionRepository.SearchWildcardsAreLive | src/main/java/com/hms/repository/PrescriptionRepository.java:39-40 | The search text's wildcards are not escaped: `_` matches every non-empty medication name, and `a%c` matches "Abc" |
| PrescriptionRepository.EmptySearchMatchesAll | src/main/java/com/hms/repository/PrescriptionRepository.java:39-40 | An empty search text matches every one of the patient's prescriptions |
| PrescriptionRepository.FindControlledSubstancePrescriptions | src/main/java/com/hms/repository/PrescriptionRepository.java:46-47 | Exactly the PRESCRIBED controlled-substance rows |
| PrescriptionRepository.FindEmergencyPrescriptions | src/main/java/com/hms/repository/PrescriptionRepository.java:49-50 | Exactly the emergency rows that are active |
| PrescriptionDispensing.DispenseApplied | src/main/java/com/hms/service/PrescriptionService.java:61-66 | The saved prescription is DISPENSED with the given quantity, today's date and the dispenser; no other field changes |
| PrescriptionDispensing.DispenseOutcome | src/main/java/com/hms/service/PrescriptionService.java:59-69 | Fails with "Prescription not found" exactly when no row has the id; otherwise that row, DISPENSED with the given quantity and its prescribed quantity kept |
| PrescriptionDispensing.DispenseOverwritesQuantity | src/main/java/com/hms/service/PrescriptionService.java:59-69 | Dispensing twice keeps only the second quantity, and the prescription is active afterwards |
| PrescriptionDispensing.DispenseIsUnchecked | src/main/java/com/hms/service/PrescriptionService.java:59-69 | Any quantity is accepted. Refill counters, prescribed quantity and end date are untouched, so refillability is unchanged. A quantity of at least the prescribed one completes the course |
| PrescriptionDispensing.DispenseReopensTerminalStatuses | src/main/java/com/hms/service/PrescriptionService.java:59-69 | Dispensing a cancelled, completed, expired or discontinued prescription makes it active again |
| PrescriptionDispensing.RecentPrescriptionsForPatient | src/main/java/com/hms/service/PrescriptionService.java:33-36 | A page size below one fails. Otherwise the result is the first page: the first min(limit, count) of the patient's prescriptions, newest first |
| PrescriptionDispensing.PrescriptionService.constructor | src/main/java/com/hms/repository/PrescriptionRepository.java:16 | An empty repository, whose ids are trivially distinct |
| PrescriptionDispensing.PrescriptionService.RefillablePrescriptions | src/main/java/com/hms/service/PrescriptionService.java:72-74 | Exactly the stored rows the refill query selects, each of which passes `canRefill` |
| PrescriptionDispensing.PrescriptionService.DispensePrescription | src/main/java/com/hms/service/PrescriptionService.java:59-69 | Returns `DispenseOutcome` of the old rows. It replaces the prescription in place on success and changes nothing for an unknown id. The stored ids stay distinct |
| Users.Authorities | src/main/java/com/hms/entity/User.java:108-111 | Exactly one authority, "ROLE_" followed by the role name, from which the role can be read back |
| Users.RoleName | src/main/java/com/hms/entity/User.java:110 | `role.name()`; `Users.Authorities` and `AuthoritiesDetermineRole` state it can be read back from the authority |
| Users.AuthoritiesDetermineRole | src/main/java/com/hms/entity/User.java:108-111 | Two users have the same authorities exactly when they have the same role |
| Users.NothingEverExpires | src/main/java/com/hms/entity/User.java:118-131 | Neither the account nor the credentials ever expire |
| Users.LockTestIsInverted | src/main/java/com/hms/entity/User.java:123-126 | On a locked account, the written lock test answers the opposite of the intended one. Without a lock they agree |
| Users.LockedUserReportedNonLocked | src/main/java/com/hms/entity/User.java:123-126 | A user locked until 10:30 reads non-locked at 10:00, and locked from 10:30 on |
| Users.FullName | src/main/java/com/hms/entity/User.java:138-140 | First name, a space and the last name. When the first name has no space, splitting at the first space gives both names back |
| Users.FullNamesCanCollide | src/main/java/com/hms/entity/User.java:138-140 | "Mary Ann" + "Lee" and "Mary" + "Ann Lee" give the same full name |
| Users.Username | src/main/java/com/hms/entity/User.java:113-116 | `getUsername` is the email; `UserAccounts.UsernameIdentifiesUser` states it identifies a stored user |
| Users.IsEnabled | src/main/java/com/hms/entity/User.java:133-136 | `isEnabled`; `UserAccounts.RegisteredThenVerifiedIsEnabled` and the flag updates state when it holds |
| Users.IsAccountNonLocked | src/main/java/com/hms/entity/User.java:123-126 | `isAccountNonLocked` as written; `Users.LockTestIsInverted` states it answers the opposite of the intended test on a locked account |
| Users.IsAccountNonLockedIntended | src/main/java/com/hms/entity/User.java:123-126 | The intended lock test; `Users.LockTestIsInverted` and `UserAccounts.LockingFailureReadsNonLocked` state how it differs from the written one |
| Users.IsAccountNonExpired | src/main/java/com/hms/entity/User.java:118-121 | `isAccountNonExpired`; `Users.NothingEverExpires` states it always holds |
| Users.IsCredentialsNonExpired | src/main/java/com/hms/entity/User.java:128-131 | `isCredentialsNonExpired`; `Users.NothingEverExpires` states it always holds |
| UserAccounts.IndexOf | src/main/java/com/hms/service/UserService.java:93 | `findById` and `findByEmail` through one key: the index found holds a row with that key; none is found exactly when no row has it |
| UserAccounts.UsernameIdentifiesUser | src/main/java/com/hms/entity/User.java:113-116 | With unique emails, two stored users share a login name exactly when they are the same user |
| UserAccounts.UpdateById | src/main/java/com/hms/service/UserService.java:92-98 | Load, update and save: the user with that id is replaced by its update, and nothing changes for an unknown id |
| UserAccounts.ReplaceKeepsKeysUnique | src/main/java/com/hms/service/UserService.java:92-180 | An update that keeps a user's id and email keeps ids and emails unique |
| UserAccounts.Registered | src/main/java/com/hms/service/UserService.java:73-84 | A new user is active, not deleted, unverified (so disabled), with the encoded password and the assigned id; everything else is as submitted |
| UserAccounts.SoftDeleted | src/main/java/com/hms/service/UserService.java:92-98 | Deleted and inactive, so disabled; nothing else changes |
| UserAccounts.Activated | src/main/java/com/hms/service/UserService.java:101-107 | Active and not deleted, so enabled exactly when verified; nothing else changes |
| UserAccounts.Deactivated | src/main/java/com/hms/service/UserService.java:110-115 | Inactive, so disabled, with the deletion flag kept; nothing else changes |
| UserAccounts.Verified | src/main/java/com/hms/service/UserService.java:118-123 | Verified, so enabled exactly when active; nothing else changes |
| UserAccounts.PasswordChanged | src/main/java/com/hms/service/UserService.java:126-136 | Only the password is replaced |
| UserAccounts.PasswordReset | src/main/java/com/hms/service/UserService.java:139-146 | The new password, with the reset token and its expiry cleared; nothing else changes |
| UserAccounts.LoggedIn | src/main/java/com/hms/service/UserService.java:149-156 | The login time recorded, the counter zero and no lock, so non-locked at every instant; nothing else changes |
| UserAccounts.Unlocked | src/main/java/com/hms/service/UserService.java:174-180 | The counter zero and no lock, so non-locked at every instant; nothing else changes |
| UserAccounts.FailedLogin | src/main/java/com/hms/service/UserService.java:159-171 | The counter goes up by one in `int` arithmetic. From five on, the account is locked for 30 minutes from now; below five the lock is kept. Nothing else changes |
| UserAccounts.RepeatedFailures | src/main/java/com/hms/service/UserService.java:159-171 | Without overflow, n failures add n to the counter. Below five in total the lock is untouched; from the fifth on, it runs 30 minutes from the latest failure |
| UserAccounts.FiveFailuresLock | src/main/java/com/hms/service/UserService.java:159-171 | On a fresh account four failures leave it unlocked, and five lock it until 30 minutes after the fifth |
| UserAccounts.LockingFailureReadsNonLocked | src/main/java/com/hms/service/UserService.java:159-171 | After the locking failure the account reads non-locked for the 30 minutes of the lock and locked afterwards; the intended test reads the reverse |
| UserAccounts.AttemptCounterWraps | src/main/java/com/hms/service/UserService.java:161-167 | At the largest `int` the counter wraps to the smallest, and that failure neither locks the account nor keeps a count |
| UserAccounts.DeleteAndActivateUndoEachOther | src/main/java/com/hms/service/UserService.java:92-107 | Delete and activate each undo the other, and a deleted then reactivated account is enabled exactly when verified |
| UserAccounts.DeactivateIsNotDelete | src/main/java/com/hms/service/UserService.java:92-115 | Deactivating keeps the deletion flag, unlike deleting, and activation restores both |
| UserAccounts.RegisteredThenVerifiedIsEnabled | src/main/java/com/hms/service/UserService.java:73-123 | A registered user is disabled until verified, and enabled once verified |
| UserAccounts.LoginResetsLikeUnlock | src/main/java/com/hms/service/UserService.java:149-180 | A login equals an unlock plus the login time, and the next failure after either counts from one without a lock |
| UserAccounts.UserService.constructor | src/main/java/com/hms/repository/UserRepository.java:16 | An empty repository with the given password encoder: an empty, valid store whose first key is 1 |
| UserAccounts.UserService.ExistsByEmail | src/main/java/com/hms/service/UserService.java:55-57 | True exactly when a stored user has that email |
| UserAccounts.UserService.CreateUser | src/main/java/com/hms/service/UserService.java:73-84 | Fails exactly when the email is taken, and then changes nothing. Otherwise it appends the registered user under the next id. Keys stay unique |
| UserAccounts.UserService.DeleteUser | src/main/java/com/hms/service/UserService.java:92-98 | The rows become `UpdateById` with the soft delete; keys stay unique |
| UserAccounts.UserService.ActivateUser | src/main/java/com/hms/service/UserService.java:101-107 | The rows become `UpdateById` with activation; keys stay unique |
| UserAccounts.UserService.DeactivateUser | src/main/java/com/hms/service/UserService.java:110-115 | The rows become `UpdateById` with deactivation; keys stay unique |
| UserAccounts.UserService.VerifyUser | src/main/java/com/hms/service/UserService.java:118-123 | The rows become `UpdateById` with verification; keys stay unique |
| UserAccounts.UserService.ChangePassword | src/main/java/com/hms/service/UserService.java:126-136 | An unknown id is ignored. It succeeds exactly when the old password matches the stored one, and a mismatch saves nothing. Only the password changes, and with a sound encoder the new password is the one that matches |
| UserAccounts.UserService.ResetPassword | src/main/java/com/hms/service/UserService.java:139-146 | The user with that email gets the new password with the reset token cleared; an unknown email changes nothing |
| UserAccounts.UserService.UpdateLastLogin | src/main/java/com/hms/service/UserService.java:149-156 | The rows become `UpdateById` with the login update; keys stay unique |
| UserAccounts.UserService.IncrementLoginAttempts | src/main/java/com/hms/service/UserService.java:159-171 | The rows become `UpdateById` with the failed-login update; keys stay unique |
| UserAccounts.UserService.UnlockAccount | src/main/java/com/hms/service/UserService.java:174-180 | The rows become `UpdateById` with the unlock; keys stay unique |
| Patients.AdmissionFollowsTheDates | src/main/java/com/hms/entity/Patient.java:154-156 | Admitted exactly while an admission date is recorded and no discharge date is, whatever the dates say |
| Patients.Age | src/main/java/com/hms/entity/Patient.java:158-163 | 0 without a date of birth, and never negative for a birth date on or before today |
| Patients.AgeCountsYears | src/main/java/com/hms/entity/Patient.java:158-163 | Going back `age` years from today's year lands in the year of birth |
| Patients.AgeCountsNewYears | src/main/java/com/hms/entity/Patient.java:158-163 | A patient born on December 31st is 1 on the next day |
| Patients.AgeIgnoresBirthdays | src/main/java/com/hms/entity/Patient.java:158-163 | A patient born on January 1st is still 0 on December 31st |
| Patients.FollowUpEndsOnItsDay | src/main/java/com/hms/entity/Patient.java:165-167 | On the follow-up day no follow-up is required any more, and the day before it is |
| Patients.PatientBodyMassIndex | src/main/java/com/hms/entity/Patient.java:147-152 | 0 when a measurement is missing or the height is not positive |
| Patients.IsAdmitted | src/main/java/com/hms/entity/Patient.java:154-156 | `isAdmitted`; `Patients.AdmissionFollowsTheDates` states it reads the presence of the two dates only |
| Patients.RequiresFollowUp | src/main/java/com/hms/entity/Patient.java:165-167 | `requiresFollowUp` with `today` as a parameter; `Patients.FollowUpEndsOnItsDay` states it ends on the follow-up day |
| Vitals.BodyMassIndex | src/main/java/com/hms/entity/Patient.java:147-152 | 0 when a measurement is missing or the height is not positive |
| Departments.OccupiedBeds | src/main/java/com/hms/entity/Department.java:90-93 | 0 when a count is missing. For non-negative counts it is total minus available, negative exactly when more beds are available than exist |
| Departments.OccupiedBedsWraps | src/main/java/com/hms/entity/Department.java:90-93 | The `int` subtraction overflows on a negative count of available beds |
| Departments.BedOccupancyRate | src/main/java/com/hms/entity/Department.java:95-98 | 0 without a positive total. For consistent counts it lies between 0 and 100, and is 100 exactly when no bed is free |
| Departments.OccupancyBounds | src/main/java/com/hms/entity/Department.java:95-98 | A fraction of at most the whole, in per cent, lies in [0, 100] and is 100 exactly for the whole |
| Departments.OpenIgnoresOperatingHours | src/main/java/com/hms/entity/Department.java:100-103 | Whether a department is open does not depend on its operating hours or working days |
| Departments.HasAvailableBeds | src/main/java/com/hms/entity/Department.java:86-88 | `hasAvailableBeds`; `Departments.AvailableBedsIffNotFull` ties it to the occupied beds and the occupancy rate |
| Departments.AvailableBedsIffNotFull | src/main/java/com/hms/entity/Department.java:86-98 | A missing count means no free beds. With consistent counts there are free beds exactly when fewer beds are occupied than exist, and, with a positive total, exactly when the occupancy is below 100 per cent |
| Departments.IsOpen | src/main/java/com/hms/entity/Department.java:100-103 | `isOpen`; `Departments.OpenIgnoresOperatingHours` states it reads the active flag only |
| MedicalRecords.BloodPressureReading | src/main/java/com/hms/entity/MedicalRecord.java:120-125 | "Not recorded" when a pressure is missing. Otherwise a text from which both pressures read back exactly |
| MedicalRecords.ReadingsAreUnambiguous | src/main/java/com/hms/entity/MedicalRecord.java:120-125 | A recorded reading never equals "Not recorded", and equal readings come from equal pressures |
| MedicalRecords.RecordBodyMassIndex | src/main/java/com/hms/entity/MedicalRecord.java:113-118 | 0 when a measurement is missing or the height is not positive |
| MedicalRecords.IsUrgent | src/main/java/com/hms/entity/MedicalRecord.java:127-129 | `isUrgent`; `MedicalRecords.UrgencyIsConfidentiality` states it is the confidentiality flag and nothing else |
| MedicalRecords.UrgencyIsConfidentiality | src/main/java/com/hms/entity/MedicalRecord.java:127-129 | A record without the confidentiality flag is not urgent, and records with the same flag are equally urgent |

## Left out

- Vitals.BodyMassIndex: only the zero guard is stated. The `double` arithmetic of the quotient is not modelled, and heights and weights are exact reals.
- Patients.PatientBodyMassIndex and MedicalRecords.RecordBodyMassIndex: the same; only the zero guard is stated.
- Departments.BedOccupancyRate and Prescriptions.ProgressPercentage: computed as exact reals, not as `double` with its rounding.
- Bills.PaymentProgressHundredths: modelled as the HALF_UP scale-2 quotient before its conversion to `double`. The conversion is not modelled.
- Prescriptions.CanRefillLeavesRefills: requires a non-negative count of refills used, because with a negative count the `int` subtraction wraps (shown by `Prescriptions.RemainingRefillsWrapsOnNegativeUse`).
- BillPayments.PaidAmountMonotone: holds only for non-negative amounts, because `addPayment` accepts negative ones.
- Patients.Age and Calendar.YearOf are ghost, specification-level definitions. `Calendar.YearSearch` is the computable search that YearOf is proved to agree with.
- Patients.Age: the date of birth is taken from the patient record. The NullPointerException of a patient without a linked user account is not modelled.
- UserAccounts.UserService.CreateUser: always stores the draft as a new row under the next id. A draft that already carries an id, which JPA would merge into the existing row, is not modelled.
- The password encoder is a pair of functions given to the user service. BCrypt hashing itself is outside this model.
- The clock is a parameter (`now`, `today`). Timestamps have minute resolution. Dates are unbounded day numbers rather than the `LocalDate` range.
- `LocalTime.parse` is modelled for the `HH:mm` form only. Seconds and fractions are rejected rather than accepted.
- Paging: `searchPrescriptions` takes a page number and a page size, and `getRecentPrescriptionsForPatient` asks for the first page. A `Page` is its rows only; the total count and other page metadata are not modelled. Sort orders passed inside a `Pageable` are not modelled. Rows with equal ORDER BY keys come out in an unspecified order, as in the database.
- Text.ToLower: folds A-Z and the Latin-1 capitals À-Þ only. The database's full Unicode `LOWER` and its collation are not modelled.
- PrescriptionRepository.SearchPrescriptions: `LIKE` is modelled without an escape character, and the page is returned without its `Page` metadata.
- AppointmentScheduling.BookingOutcome: the query's `LocalDateTime` bound is compared with the `TIME` column as a time of day. The slot's end is therefore its time of day, and a slot crossing midnight gives an empty window.
- The service constructors stand for a service wired to an empty database; Spring's dependency injection and a database that already holds rows at start-up are not modelled.
- Transactions, concurrency and the persistence context are not modelled. In particular, the aliasing of a managed entity that is changed in place and flushed later is not modelled. Each service saves a new value of the row in place of the old one.
- The repository methods that only delegate (findAll, findByX derived queries, counts, searchBills, and the paged patient and doctor lists) and the service methods that only pass them through (createBill, updateBill, deleteBill, saveUser, updateUser, searchUsers, getters) are not part of this model.
- UserRepository, the controllers, the security configuration and the web layer are not part of this model.

## Findings

| source | as written | input that shows it | evidently intended | confidence | as-written member | corrected member |
|---|---|---|---|---|---|---|
| src/main/java/com/hms/entity/User.java:123-126 | `isAccountNonLocked` (`Users.IsAccountNonLocked`) is true when there is no lock or when `lockedUntil` is after now. So it reports a locked account as non-locked while the lock is in force; `UserAccounts.LockingFailureReadsNonLocked` shows this for the lock set by the fifth failed login | `lockedUntil` = 10:30 and now = 10:00: the account reads non-locked. From 10:30 on it reads locked for ever | Non-locked when there is no lock or the lock has run out. `Users.LockTestIsInverted` proves the two tests opposite on every locked account. `UserAccounts.LockingFailureReadsNonLocked` proves that the intended test reads locked for exactly the thirty minutes | not executed | Users.LockedUserReportedNonLocked | Users.IsAccountNonLockedIntended |
