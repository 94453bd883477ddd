/** The Appointment entity: its status enumeration, its fields, the predicates it
    answers about itself and the field updates the scheduler applies to it. */
module Appointments {
  import opened Common

  datatype AppointmentStatus =
    Scheduled | Confirmed | InProgress | Completed | Cancelled | NoShow | Rescheduled

  /** A stored appointment. `id` is the primary key the repository assigns; the
      patient and the doctor are referenced by id. */
  datatype Appointment = Appointment(
    id: nat,
    patientId: nat,
    doctorId: nat,
    date: Day,
    time: MinuteOfDay,
    durationMinutes: Int32,
    status: AppointmentStatus,
    reason: string,
    notes: string,
    isEmergency: bool,
    cancellationReason: Option<string>,
    cancellationDate: Option<Instant>,
    actualVisitTime: Option<Instant>)

  /** `LocalDateTime.of(appointmentDate, appointmentTime)`. */
  function StartOf(a: Appointment): Instant {
    At(a.date, a.time)
  }

  /** The start plus the appointment's own duration. */
  function EndOf(a: Appointment): Instant {
    StartOf(a) + a.durationMinutes
  }

  predicate IsCompleted(a: Appointment) {
    a.status == Completed
  }

  /** Still ahead of `now` and neither started nor closed. */
  predicate IsUpcoming(a: Appointment, now: Instant) {
    StartOf(a) > now && (a.status == Scheduled || a.status == Confirmed)
  }

  /** The guard of a cancellation. */
  predicate CanBeCancelled(a: Appointment, now: Instant) {
    StartOf(a) > now && (a.status == Scheduled || a.status == Confirmed)
  }

  /** `isCompleted` holds exactly for the COMPLETED status. */
  lemma CompletedIffStatus(a: Appointment)
    ensures IsCompleted(a) <==> a.status == Completed
    ensures IsCompleted(a) ==> forall now :: !CanBeCancelled(a, now)
  {
  }

  /** The two predicates are one and the same test, for every appointment and instant. */
  lemma UpcomingIffCancellable(a: Appointment, now: Instant)
    ensures IsUpcoming(a, now) <==> CanBeCancelled(a, now)
  {
  }

  /** The comparison with now is strict: at its own start time an appointment is
      neither upcoming nor cancellable, and it stays so afterwards. */
  lemma NotCancellableFromStart(a: Appointment, now: Instant)
    requires now >= StartOf(a)
    ensures !CanBeCancelled(a, now) && !IsUpcoming(a, now)
  {
  }

  /** Only SCHEDULED and CONFIRMED appointments can ever be cancelled, whatever
      their date; in those two statuses it depends only on the time. */
  lemma CancellableStatuses(a: Appointment)
    ensures a.status !in {Scheduled, Confirmed} ==> forall now :: !CanBeCancelled(a, now)
    ensures a.status in {Scheduled, Confirmed} ==> forall now :: CanBeCancelled(a, now) <==> now < StartOf(a)
  {
  }

  /** `confirmAppointment`'s update: only the status changes, so a cancelled row that
      is confirmed again keeps its cancellation reason and date. */
  function Confirm(a: Appointment): (r: Appointment)
    ensures r.status == Confirmed && SameBooking(a, r)
    ensures r.cancellationReason == a.cancellationReason && r.cancellationDate == a.cancellationDate
    ensures r.actualVisitTime == a.actualVisitTime
  {
    a.(status := Confirmed)
  }

  /** `startAppointment`'s update: the visit begins now; the cancellation fields are kept. */
  function Start(a: Appointment, now: Instant): (r: Appointment)
    ensures r.status == InProgress && r.actualVisitTime == Some(now) && SameBooking(a, r)
    ensures r.cancellationReason == a.cancellationReason && r.cancellationDate == a.cancellationDate
  {
    a.(status := InProgress, actualVisitTime := Some(now))
  }

  /** `completeAppointment`'s update: the visit time is stamped again; the cancellation
      fields are kept. */
  function Complete(a: Appointment, now: Instant): (r: Appointment)
    ensures r.status == Completed && r.actualVisitTime == Some(now) && SameBooking(a, r)
    ensures r.cancellationReason == a.cancellationReason && r.cancellationDate == a.cancellationDate
  {
    a.(status := Completed, actualVisitTime := Some(now))
  }

  /** `cancelAppointment`'s update once the guard has passed; the visit time is kept. */
  function Cancel(a: Appointment, reason: string, now: Instant): (r: Appointment)
    ensures r.status == Cancelled && r.cancellationReason == Some(reason) && r.cancellationDate == Some(now)
    ensures SameBooking(a, r) && r.actualVisitTime == a.actualVisitTime
  {
    a.(status := Cancelled, cancellationReason := Some(reason), cancellationDate := Some(now))
  }

  /** The transitions keep the patient, doctor, slot and booking details. */
  predicate SameBooking(a: Appointment, b: Appointment) {
    a.id == b.id && a.patientId == b.patientId && a.doctorId == b.doctorId
    && a.date == b.date && a.time == b.time && a.durationMinutes == b.durationMinutes
    && a.reason == b.reason && a.notes == b.notes && a.isEmergency == b.isEmergency
  }

  /** Confirm, start and complete accept every prior status, including the closed
      ones, and land in CONFIRMED, IN_PROGRESS and COMPLETED; only start and complete
      stamp the visit time, and none of them touches the booking itself. */
  lemma TransitionsIgnorePriorStatus(a: Appointment, now: Instant, reason: string)
    ensures Confirm(a).status == Confirmed && Confirm(a).actualVisitTime == a.actualVisitTime
    ensures Start(a, now).status == InProgress && Start(a, now).actualVisitTime == Some(now)
    ensures Complete(a, now).status == Completed && Complete(a, now).actualVisitTime == Some(now)
    ensures SameBooking(a, Confirm(a)) && SameBooking(a, Start(a, now))
    ensures SameBooking(a, Complete(a, now)) && SameBooking(a, Cancel(a, reason, now))
    ensures Cancel(a, reason, now).actualVisitTime == a.actualVisitTime
    ensures Confirm(a).cancellationReason == a.cancellationReason && Confirm(a).cancellationDate == a.cancellationDate
    ensures Start(a, now).cancellationReason == a.cancellationReason
            && Start(a, now).cancellationDate == a.cancellationDate
    ensures Complete(a, now).cancellationReason == a.cancellationReason
            && Complete(a, now).cancellationDate == a.cancellationDate
  {
  }

  /** Confirming a cancelled appointment re-opens it with its stale cancellation
      reason and date still recorded. */
  lemma ReconfirmKeepsStaleCancellation(a: Appointment, reason: string, now: Instant)
    ensures var c := Confirm(Cancel(a, reason, now));
      c.status == Confirmed && c.cancellationReason == Some(reason) && c.cancellationDate == Some(now)
  {
  }

  /** After a cancellation, and after a start or a completion, no later cancellation
      passes the guard, at any instant: a second cancel of the same appointment fails.
      Confirming, which accepts any prior status, makes a future appointment
      cancellable again, even a cancelled or completed one. */
  lemma ClosedAppointmentsStayUncancellable(a: Appointment, reason: string, now: Instant, later: Instant)
    ensures !CanBeCancelled(Cancel(a, reason, now), later)
    ensures !CanBeCancelled(Start(a, now), later)
    ensures !CanBeCancelled(Complete(a, now), later)
    ensures CanBeCancelled(Confirm(a), later) <==> StartOf(a) > later
  {
  }
}
