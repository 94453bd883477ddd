/** The appointment scheduler: booking with its two availability checks, the status
    transitions, and the patient's recent-appointments list. The class stands in for
    the service together with its repository, whose rows it holds. */
module AppointmentScheduling {
  import opened Common
  import opened Collections
  import opened Text
  import opened Appointments
  import opened AppointmentRepository

  /** Every booking occupies thirty minutes. */
  const SlotMinutes: int := 30

  /** Two windows conflict when each starts before the other ends: half-open
      intervals, so windows that only touch do not conflict. */
  predicate IsTimeConflict(start1: Instant, end1: Instant, start2: Instant, end2: Instant) {
    start1 < end2 && end1 > start2
  }

  /** The conflict test does not depend on which window is the requested one, and
      windows that meet end to start do not conflict. */
  lemma TimeConflictSymmetric(start1: Instant, end1: Instant, start2: Instant, end2: Instant)
    ensures IsTimeConflict(start1, end1, start2, end2) <==> IsTimeConflict(start2, end2, start1, end1)
    ensures end1 == start2 ==> !IsTimeConflict(start1, end1, start2, end2)
  {
  }

  /** `isDoctorAvailable`: no appointment of the doctor stored on that date, of any
      status, overlaps the thirty-minute window starting at `time`. Each stored
      appointment is measured with its own duration. */
  function IsDoctorAvailable(s: seq<Appointment>, doctorId: nat, date: Day, time: MinuteOfDay): (r: bool)
    ensures r <==> forall a :: a in s && a.doctorId == doctorId && a.date == date ==>
                     !IsTimeConflict(At(date, time), At(date, time) + SlotMinutes, StartOf(a), EndOf(a))
  {
    var existing := FindAppointmentsByDoctorAndDateRange(s, doctorId, date, date);
    var requested := At(date, time);
    forall a | a in existing :: !IsTimeConflict(requested, requested + SlotMinutes, StartOf(a), EndOf(a))
  }

  /** The appointment a successful booking creates. */
  function NewAppointment(id: nat, patientId: nat, doctorId: nat, date: Day, time: MinuteOfDay,
                          reason: string, notes: string): Appointment
  {
    Appointment(id, patientId, doctorId, date, time, SlotMinutes, Scheduled, reason, notes, false, None, None, None)
  }

  /** The time of day at which a slot starting at `time` ends: `plusMinutes(30)` on the
      booking's date and time. From 23:30 on the end falls on the next day, and its
      time of day is earlier than the start. */
  function SlotEndTime(time: MinuteOfDay): (r: MinuteOfDay)
    ensures r == time + SlotMinutes || r == time + SlotMinutes - MinutesPerDay
    ensures r < time <==> time + SlotMinutes >= MinutesPerDay
  {
    (time + SlotMinutes) % MinutesPerDay
  }

  /** The outcome of `bookAppointment` on the stored rows `s`; `nextId` is the key
      the repository gives the next new row. The closed-interval query runs first,
      on the times of day of the slot's start and end, then the half-open overlap
      test. */
  function Book(s: seq<Appointment>, nextId: nat, patientId: nat, doctorId: nat, date: Day,
                timeText: string, reason: string, notes: string): Result<Appointment>
  {
    match ParseTime(timeText)
    case None => Err(InvalidTime)
    case Some(time) =>
      if |FindConflictingAppointments(s, doctorId, date, time, SlotEndTime(time))| != 0 then
        Err(DoctorNotAvailableAtTime)
      else if !IsDoctorAvailable(s, doctorId, date, time) then
        Err(DoctorNotAvailableOnDate)
      else
        Ok(NewAppointment(nextId, patientId, doctorId, date, time, reason, notes))
  }

  /** A booking succeeds exactly when the time parses, no appointment of the doctor
      on that date starts inside the closed window from t to the slot's end time of
      day (t+30 before 23:30, an empty window from then on), and none overlaps the
      half-open window [t, t+30); the new appointment is SCHEDULED, lasts thirty
      minutes, is not an emergency and carries exactly the given details. */
  lemma BookingOutcome(s: seq<Appointment>, nextId: nat, patientId: nat, doctorId: nat, date: Day,
                       timeText: string, reason: string, notes: string)
    ensures var r := Book(s, nextId, patientId, doctorId, date, timeText, reason, notes);
      && (ParseTime(timeText).None? ==> r == Err(InvalidTime))
      && (ParseTime(timeText).Some? ==>
            var t := ParseTime(timeText).value;
            r.Ok? <==>
              (forall a :: a in s && a.doctorId == doctorId && a.date == date ==> !(t <= a.time <= SlotEndTime(t)))
              && (forall a :: a in s && a.doctorId == doctorId && a.date == date ==>
                    !IsTimeConflict(At(date, t), At(date, t) + SlotMinutes, StartOf(a), EndOf(a))))
      && (r.Ok? ==>
            && r.value.id == nextId && r.value.patientId == patientId && r.value.doctorId == doctorId
            && r.value.date == date && r.value.time == ParseTime(timeText).value
            && r.value.durationMinutes == 30 && r.value.status == Scheduled && !r.value.isEmergency
            && r.value.reason == reason && r.value.notes == notes
            && r.value.cancellationReason.None? && r.value.cancellationDate.None? && r.value.actualVisitTime.None?)
  {
    if ParseTime(timeText).Some? {
      var t := ParseTime(timeText).value;
      var conflicts := FindConflictingAppointments(s, doctorId, date, t, SlotEndTime(t));
      if |conflicts| != 0 {
        assert conflicts[0] in conflicts;
      }
    }
  }

  /** An appointment of the doctor on that date whose start lies between t and the
      slot's end time of day makes the booking fail at the first check, whatever its
      status or duration. */
  lemma BookingRejectsStartInWindow(s: seq<Appointment>, nextId: nat, patientId: nat, doctorId: nat, date: Day,
                                    timeText: string, reason: string, notes: string, a: Appointment)
    requires ParseTime(timeText).Some?
    requires a in s && a.doctorId == doctorId && a.date == date
    requires ParseTime(timeText).value <= a.time <= SlotEndTime(ParseTime(timeText).value)
    ensures Book(s, nextId, patientId, doctorId, date, timeText, reason, notes) == Err(DoctorNotAvailableAtTime)
  {
    var t := ParseTime(timeText).value;
    assert a in FindConflictingAppointments(s, doctorId, date, t, SlotEndTime(t));
  }

  /** From 23:30 on the slot ends on the next day, the first check's window is empty,
      and the overlap test alone decides the booking. */
  lemma LateBookingSkipsFirstCheck(s: seq<Appointment>, nextId: nat, patientId: nat, doctorId: nat, date: Day,
                                   timeText: string, reason: string, notes: string)
    requires ParseTime(timeText).Some?
    requires ParseTime(timeText).value + SlotMinutes >= MinutesPerDay
    ensures var t := ParseTime(timeText).value;
      FindConflictingAppointments(s, doctorId, date, t, SlotEndTime(t)) == []
      && Book(s, nextId, patientId, doctorId, date, timeText, reason, notes) ==
         if IsDoctorAvailable(s, doctorId, date, t) then Ok(NewAppointment(nextId, patientId, doctorId, date, t, reason, notes))
         else Err(DoctorNotAvailableOnDate)
  {
  }

  /** A 23:45 booking next to a stored 23:50 appointment is turned down by the
      overlap test, not by the query. */
  lemma LateOverlapFailsSecondCheck(date: Day)
    ensures var booked := Appointment(1, 7, 3, date, 1430, 30, Scheduled, "check-up", "", false, None, None, None);
      Book([booked], 2, 8, 3, date, "23:45", "visit", "") == Err(DoctorNotAvailableOnDate)
  {
    var booked := Appointment(1, 7, 3, date, 1430, 30, Scheduled, "check-up", "", false, None, None, None);
    assert ParseTime("23:45") == Some(1425);
    LateBookingSkipsFirstCheck([booked], 2, 8, 3, date, "23:45", "visit", "");
    assert !IsDoctorAvailable([booked], 3, date, 1425);
  }

  /** An appointment of the doctor on that date whose own window overlaps the
      requested one makes the booking fail, CANCELLED ones included. */
  lemma BookingRejectsOverlap(s: seq<Appointment>, nextId: nat, patientId: nat, doctorId: nat, date: Day,
                              timeText: string, reason: string, notes: string, a: Appointment)
    requires ParseTime(timeText).Some?
    requires a in s && a.doctorId == doctorId && a.date == date
    requires IsTimeConflict(At(date, ParseTime(timeText).value), At(date, ParseTime(timeText).value) + SlotMinutes,
                            StartOf(a), EndOf(a))
    ensures Book(s, nextId, patientId, doctorId, date, timeText, reason, notes).Err?
  {
  }

  /** The closed upper bound rejects a booking whose window only touches the next
      appointment: the half-open test alone would accept it. */
  lemma BookingRejectsTouchingNextSlot(s: seq<Appointment>, nextId: nat, patientId: nat, doctorId: nat, date: Day,
                                       timeText: string, reason: string, notes: string, a: Appointment)
    requires ParseTime(timeText).Some?
    requires a in s && a.doctorId == doctorId && a.date == date
    requires a.time == ParseTime(timeText).value + SlotMinutes
    ensures Book(s, nextId, patientId, doctorId, date, timeText, reason, notes) == Err(DoctorNotAvailableAtTime)
    ensures !IsTimeConflict(At(date, ParseTime(timeText).value), At(date, ParseTime(timeText).value) + SlotMinutes,
                            StartOf(a), EndOf(a))
  {
    BookingRejectsStartInWindow(s, nextId, patientId, doctorId, date, timeText, reason, notes, a);
  }

  /** A booked window overlaps no appointment of the same doctor stored on that date. */
  lemma BookedSlotIsFree(s: seq<Appointment>, nextId: nat, patientId: nat, doctorId: nat, date: Day,
                         timeText: string, reason: string, notes: string)
    requires Book(s, nextId, patientId, doctorId, date, timeText, reason, notes).Ok?
    ensures var n := Book(s, nextId, patientId, doctorId, date, timeText, reason, notes).value;
      forall a :: a in s && a.doctorId == n.doctorId && a.date == n.date ==>
        !IsTimeConflict(StartOf(n), EndOf(n), StartOf(a), EndOf(a))
        && !IsTimeConflict(StartOf(a), EndOf(a), StartOf(n), EndOf(n))
  {
  }

  /** No two stored appointments of one doctor on one date overlap, whatever their status. */
  ghost predicate NoDoubleBooking(s: seq<Appointment>) {
    forall i, j :: 0 <= i < |s| && 0 <= j < |s| && i != j
      && s[i].doctorId == s[j].doctorId && s[i].date == s[j].date
      ==> !IsTimeConflict(StartOf(s[i]), EndOf(s[i]), StartOf(s[j]), EndOf(s[j]))
  }

  /** Appending a successful booking keeps the store free of double bookings. */
  lemma BookingPreservesNoDoubleBooking(s: seq<Appointment>, nextId: nat, patientId: nat, doctorId: nat, date: Day,
                                        timeText: string, reason: string, notes: string)
    requires NoDoubleBooking(s)
    requires Book(s, nextId, patientId, doctorId, date, timeText, reason, notes).Ok?
    ensures NoDoubleBooking(s + [Book(s, nextId, patientId, doctorId, date, timeText, reason, notes).value])
  {
    var n := Book(s, nextId, patientId, doctorId, date, timeText, reason, notes).value;
    var s' := s + [n];
    BookedSlotIsFree(s, nextId, patientId, doctorId, date, timeText, reason, notes);
    forall i, j | 0 <= i < |s'| && 0 <= j < |s'| && i != j
      && s'[i].doctorId == s'[j].doctorId && s'[i].date == s'[j].date
      ensures !IsTimeConflict(StartOf(s'[i]), EndOf(s'[i]), StartOf(s'[j]), EndOf(s'[j]))
    {
      if i == |s| {
        assert s'[j] in s;
      } else if j == |s| {
        assert s'[i] in s;
      } else {
        assert s'[i] == s[i] && s'[j] == s[j];
      }
    }
  }

  /** The check covers one date only: an appointment that starts late on the previous
      day and runs past midnight does not block a booking at 00:00, although the two
      windows overlap. */
  lemma PreviousDayOverrunNotChecked()
    ensures var late := Appointment(1, 7, 3, 99, 1430, 30, Scheduled, "check-up", "", false, None, None, None);
      var r := Book([late], 2, 8, 3, 100, "00:00", "visit", "");
      r.Ok? && IsTimeConflict(StartOf(late), EndOf(late), StartOf(r.value), EndOf(r.value))
  {
    var late := Appointment(1, 7, 3, 99, 1430, 30, Scheduled, "check-up", "", false, None, None, None);
    assert ParseTime("00:00") == Some(0);
    assert FindConflictingAppointments([late], 3, 100, 0, 30) == [];
    assert IsDoctorAvailable([late], 3, 100, 0);
  }

  /** With a 10:00 appointment of thirty minutes on the books, booking the same doctor
      at 10:15 that day fails, and booking at 10:30 succeeds. */
  lemma TenFifteenFailsTenThirtySucceeds(date: Day)
    ensures var booked := Appointment(1, 7, 3, date, 600, 30, Scheduled, "check-up", "", false, None, None, None);
      && Book([booked], 2, 8, 3, date, "10:15", "visit", "").Err?
      && Book([booked], 2, 8, 3, date, "10:30", "visit", "").Ok?
  {
    var booked := Appointment(1, 7, 3, date, 600, 30, Scheduled, "check-up", "", false, None, None, None);
    assert ParseTime("10:15") == Some(615);
    assert ParseTime("10:30") == Some(630);
    BookingRejectsOverlap([booked], 2, 8, 3, date, "10:15", "visit", "", booked);
    assert FindConflictingAppointments([booked], 3, date, 630, 660) == [];
    assert IsDoctorAvailable([booked], 3, date, 630);
  }

  /** `findById`: the position of the row with that key. */
  function IndexOfId(s: seq<Appointment>, id: nat): (r: Option<nat>)
    ensures r.Some? ==> r.value < |s| && s[r.value].id == id
    ensures r.None? <==> forall a :: a in s ==> a.id != id
  {
    FirstIndex(s, (a: Appointment) => a.id == id)
  }

  /** `save`: replaces the row with the same key, or appends a new one. */
  function Save(s: seq<Appointment>, a: Appointment): seq<Appointment> {
    match IndexOfId(s, a.id)
    case Some(i) => s[i := a]
    case None => s + [a]
  }

  /** The rows after an operation that returned `r`: a failed operation saves nothing. */
  function Saved(s: seq<Appointment>, r: Result<Appointment>): seq<Appointment> {
    if r.Ok? then Save(s, r.value) else s
  }

  function ConfirmOutcome(s: seq<Appointment>, id: nat): (r: Result<Appointment>)
    ensures r.Err? <==> forall a :: a in s ==> a.id != id
    ensures r.Err? ==> r.error == AppointmentNotFound
    ensures r.Ok? ==> r.value.status == Confirmed && SameBooking(s[IndexOfId(s, id).value], r.value)
                      && r.value.id == id
    ensures r.Ok? ==> var a := s[IndexOfId(s, id).value];
                      r.value.cancellationReason == a.cancellationReason && r.value.cancellationDate == a.cancellationDate
                      && r.value.actualVisitTime == a.actualVisitTime
  {
    match IndexOfId(s, id)
    case None => Err(AppointmentNotFound)
    case Some(i) => Ok(Confirm(s[i]))
  }

  function StartOutcome(s: seq<Appointment>, id: nat, now: Instant): (r: Result<Appointment>)
    ensures r.Err? <==> forall a :: a in s ==> a.id != id
    ensures r.Err? ==> r.error == AppointmentNotFound
    ensures r.Ok? ==> r.value.status == InProgress && r.value.actualVisitTime == Some(now)
                      && SameBooking(s[IndexOfId(s, id).value], r.value) && r.value.id == id
    ensures r.Ok? ==> var a := s[IndexOfId(s, id).value];
                      r.value.cancellationReason == a.cancellationReason && r.value.cancellationDate == a.cancellationDate
  {
    match IndexOfId(s, id)
    case None => Err(AppointmentNotFound)
    case Some(i) => Ok(Start(s[i], now))
  }

  function CompleteOutcome(s: seq<Appointment>, id: nat, now: Instant): (r: Result<Appointment>)
    ensures r.Err? <==> forall a :: a in s ==> a.id != id
    ensures r.Err? ==> r.error == AppointmentNotFound
    ensures r.Ok? ==> r.value.status == Completed && r.value.actualVisitTime == Some(now)
                      && SameBooking(s[IndexOfId(s, id).value], r.value) && r.value.id == id
    ensures r.Ok? ==> var a := s[IndexOfId(s, id).value];
                      r.value.cancellationReason == a.cancellationReason && r.value.cancellationDate == a.cancellationDate
  {
    match IndexOfId(s, id)
    case None => Err(AppointmentNotFound)
    case Some(i) => Ok(Complete(s[i], now))
  }

  function CancelOutcome(s: seq<Appointment>, id: nat, reason: string, now: Instant): (r: Result<Appointment>)
    ensures (r == Err(AppointmentNotFound)) <==> forall a :: a in s ==> a.id != id
    ensures (r == Err(AppointmentCannotBeCancelled)) <==>
              IndexOfId(s, id).Some? && !CanBeCancelled(s[IndexOfId(s, id).value], now)
    ensures r.Ok? ==> r.value.status == Cancelled && r.value.cancellationReason == Some(reason)
                      && r.value.cancellationDate == Some(now)
                      && SameBooking(s[IndexOfId(s, id).value], r.value) && r.value.id == id
    ensures r.Ok? ==> r.value.actualVisitTime == s[IndexOfId(s, id).value].actualVisitTime
  {
    match IndexOfId(s, id)
    case None => Err(AppointmentNotFound)
    case Some(i) =>
      if CanBeCancelled(s[i], now) then Ok(Cancel(s[i], reason, now)) else Err(AppointmentCannotBeCancelled)
  }

  /** A transition on an id the repository does not hold fails with "Appointment not
      found" and leaves every row as it was. */
  lemma UnknownIdChangesNothing(s: seq<Appointment>, id: nat, reason: string, now: Instant)
    requires forall a :: a in s ==> a.id != id
    ensures ConfirmOutcome(s, id) == Err(AppointmentNotFound) && Saved(s, ConfirmOutcome(s, id)) == s
    ensures StartOutcome(s, id, now) == Err(AppointmentNotFound) && Saved(s, StartOutcome(s, id, now)) == s
    ensures CompleteOutcome(s, id, now) == Err(AppointmentNotFound) && Saved(s, CompleteOutcome(s, id, now)) == s
    ensures CancelOutcome(s, id, reason, now) == Err(AppointmentNotFound)
    ensures Saved(s, CancelOutcome(s, id, reason, now)) == s
  {
  }

  /** Saving an updated row puts it back in its place: the row is found there again. */
  lemma SaveKeepsPosition(s: seq<Appointment>, i: nat, a: Appointment)
    requires IndexOfId(s, a.id) == Some(i)
    ensures Save(s, a) == s[i := a]
    ensures IndexOfId(s[i := a], a.id) == Some(i)
  {
    var s' := s[i := a];
    assert s'[i].id == a.id;
    assert forall j :: 0 <= j < i ==> s'[j] == s[j];
  }

  /** Once a cancellation has succeeded and been saved, cancelling the same id again
      fails with "Appointment cannot be cancelled", at any later instant. */
  lemma SecondCancelFails(s: seq<Appointment>, id: nat, reason: string, now: Instant, reason2: string, later: Instant)
    requires CancelOutcome(s, id, reason, now).Ok?
    ensures CancelOutcome(Saved(s, CancelOutcome(s, id, reason, now)), id, reason2, later)
            == Err(AppointmentCannotBeCancelled)
  {
    var i := IndexOfId(s, id).value;
    var c := Cancel(s[i], reason, now);
    SaveKeepsPosition(s, i, c);
  }

  /** The ids are distinct and below the next key to hand out, and no doctor is
      double-booked on any date. */
  ghost predicate ValidStore(s: seq<Appointment>, nextId: nat) {
    && (forall i :: 0 <= i < |s| ==> s[i].id < nextId)
    && (forall i, j :: 0 <= i < j < |s| ==> s[i].id != s[j].id)
    && NoDoubleBooking(s)
  }

  /** Appending a row under the next key, without a double booking, keeps the store valid. */
  lemma AppendKeepsStoreValid(s: seq<Appointment>, nextId: nat, a: Appointment)
    requires ValidStore(s, nextId)
    requires a.id == nextId && NoDoubleBooking(s + [a])
    ensures ValidStore(s + [a], nextId + 1)
  {
  }

  /** Saving a transition's result keeps the store valid: transitions never move a slot. */
  lemma TransitionKeepsStoreValid(s: seq<Appointment>, nextId: nat, i: nat, a: Appointment)
    requires ValidStore(s, nextId)
    requires i < |s| && SameBooking(s[i], a)
    ensures ValidStore(s[i := a], nextId)
  {
    var s' := s[i := a];
    forall j, k | 0 <= j < |s'| && 0 <= k < |s'| && j != k
      && s'[j].doctorId == s'[k].doctorId && s'[j].date == s'[k].date
      ensures !IsTimeConflict(StartOf(s'[j]), EndOf(s'[j]), StartOf(s'[k]), EndOf(s'[k]))
    {
      assert StartOf(s'[j]) == StartOf(s[j]) && EndOf(s'[j]) == EndOf(s[j]);
      assert StartOf(s'[k]) == StartOf(s[k]) && EndOf(s'[k]) == EndOf(s[k]);
    }
  }

  /** `getRecentAppointmentsForPatient`: the first `limit` of the patient's
      non-cancelled appointments, a prefix of the date-descending query result;
      a negative limit is rejected by `Stream.limit`. */
  function RecentAppointmentsForPatient(s: seq<Appointment>, patientId: nat, limit: Int32): (r: Result<seq<Appointment>>)
    ensures r.Err? <==> limit < 0
    ensures r.Err? ==> r.error == NegativeLimit
    ensures r.Ok? ==> |r.value| == if limit < |FindRecentAppointmentsByPatientId(s, patientId)| then limit
                                   else |FindRecentAppointmentsByPatientId(s, patientId)|
    ensures r.Ok? ==> r.value == FindRecentAppointmentsByPatientId(s, patientId)[..|r.value|]
    ensures r.Ok? ==> forall a :: a in r.value ==> a in s && a.patientId == patientId && a.status != Cancelled
    ensures r.Ok? ==> forall i, j :: 0 <= i < j < |r.value| ==> r.value[i].date >= r.value[j].date
  {
    if limit < 0 then Err(NegativeLimit)
    else
      var all := FindRecentAppointmentsByPatientId(s, patientId);
      Ok(Take(all, limit))
  }

  class AppointmentService {
    var appointments: seq<Appointment>
    var nextId: nat

    ghost predicate Valid()
      reads this
    {
      ValidStore(appointments, nextId)
    }

    constructor ()
      ensures Valid() && appointments == [] && nextId == 1
    {
      appointments := [];
      nextId := 1;
    }

    /** `bookAppointment`: parses the time, runs both availability checks and saves a
        new SCHEDULED appointment; on any failure nothing is saved. */
    method BookAppointment(patientId: nat, doctorId: nat, date: Day, timeText: string, reason: string, notes: string)
      returns (r: Result<Appointment>)
      requires Valid()
      modifies this
      ensures Valid()
      ensures r == Book(old(appointments), old(nextId), patientId, doctorId, date, timeText, reason, notes)
      ensures r.Ok? ==> appointments == old(appointments) + [r.value] && nextId == old(nextId) + 1
      ensures r.Err? ==> appointments == old(appointments) && nextId == old(nextId)
    {
      var parsed := ParseTime(timeText);
      if parsed.None? {
        return Err(InvalidTime);
      }
      var time := parsed.value;
      var conflicts := FindConflictingAppointments(appointments, doctorId, date, time, SlotEndTime(time));
      if |conflicts| != 0 {
        return Err(DoctorNotAvailableAtTime);
      }
      if !IsDoctorAvailable(appointments, doctorId, date, time) {
        return Err(DoctorNotAvailableOnDate);
      }
      var appointment := NewAppointment(nextId, patientId, doctorId, date, time, reason, notes);
      assert Book(appointments, nextId, patientId, doctorId, date, timeText, reason, notes) == Ok(appointment);
      BookingPreservesNoDoubleBooking(appointments, nextId, patientId, doctorId, date, timeText, reason, notes);
      AppendKeepsStoreValid(appointments, nextId, appointment);
      appointments := appointments + [appointment];
      nextId := nextId + 1;
      r := Ok(appointment);
    }

    /** `confirmAppointment`: CONFIRMED from any status. */
    method ConfirmAppointment(id: nat) returns (r: Result<Appointment>)
      requires Valid()
      modifies this
      ensures Valid() && nextId == old(nextId)
      ensures r == ConfirmOutcome(old(appointments), id)
      ensures appointments == Saved(old(appointments), r)
    {
      var found := IndexOfId(appointments, id);
      if found.None? {
        return Err(AppointmentNotFound);
      }
      var i := found.value;
      var appointment := Confirm(appointments[i]);
      SaveKeepsPosition(appointments, i, appointment);
      TransitionKeepsStoreValid(appointments, nextId, i, appointment);
      appointments := appointments[i := appointment];
      r := Ok(appointment);
    }

    /** `startAppointment`: IN_PROGRESS from any status, visit time stamped. */
    method StartAppointment(id: nat, now: Instant) returns (r: Result<Appointment>)
      requires Valid()
      modifies this
      ensures Valid() && nextId == old(nextId)
      ensures r == StartOutcome(old(appointments), id, now)
      ensures appointments == Saved(old(appointments), r)
    {
      var found := IndexOfId(appointments, id);
      if found.None? {
        return Err(AppointmentNotFound);
      }
      var i := found.value;
      var appointment := Start(appointments[i], now);
      SaveKeepsPosition(appointments, i, appointment);
      TransitionKeepsStoreValid(appointments, nextId, i, appointment);
      appointments := appointments[i := appointment];
      r := Ok(appointment);
    }

    /** `completeAppointment`: COMPLETED from any status, visit time stamped. */
    method CompleteAppointment(id: nat, now: Instant) returns (r: Result<Appointment>)
      requires Valid()
      modifies this
      ensures Valid() && nextId == old(nextId)
      ensures r == CompleteOutcome(old(appointments), id, now)
      ensures appointments == Saved(old(appointments), r)
    {
      var found := IndexOfId(appointments, id);
      if found.None? {
        return Err(AppointmentNotFound);
      }
      var i := found.value;
      var appointment := Complete(appointments[i], now);
      SaveKeepsPosition(appointments, i, appointment);
      TransitionKeepsStoreValid(appointments, nextId, i, appointment);
      appointments := appointments[i := appointment];
      r := Ok(appointment);
    }

    /** `cancelAppointment`: only when `canBeCancelled` holds at `now`. */
    method CancelAppointment(id: nat, reason: string, now: Instant) returns (r: Result<Appointment>)
      requires Valid()
      modifies this
      ensures Valid() && nextId == old(nextId)
      ensures r == CancelOutcome(old(appointments), id, reason, now)
      ensures appointments == Saved(old(appointments), r)
    {
      var found := IndexOfId(appointments, id);
      if found.None? {
        return Err(AppointmentNotFound);
      }
      var i := found.value;
      if !CanBeCancelled(appointments[i], now) {
        return Err(AppointmentCannotBeCancelled);
      }
      var appointment := Cancel(appointments[i], reason, now);
      SaveKeepsPosition(appointments, i, appointment);
      TransitionKeepsStoreValid(appointments, nextId, i, appointment);
      appointments := appointments[i := appointment];
      r := Ok(appointment);
    }
  }
}
