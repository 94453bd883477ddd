/** The JPQL queries of the appointment repository, as functions of the stored rows
    `s`. Each states which rows it returns (with their multiplicity) and, where the
    query has an ORDER BY, the order. */
module AppointmentRepository {
  import opened Common
  import opened Collections
  import opened Appointments

  /** `findRecentAppointmentsByPatientId`: the patient's appointments that are not
      cancelled, latest date first. */
  function FindRecentAppointmentsByPatientId(s: seq<Appointment>, patientId: nat): (r: seq<Appointment>)
    ensures forall a :: multiset(r)[a] ==
                        (if a.patientId == patientId && a.status != Cancelled then multiset(s)[a] else 0)
    ensures forall a :: a in r <==> a in s && a.patientId == patientId && a.status != Cancelled
    ensures forall i, j :: 0 <= i < j < |r| ==> r[i].date >= r[j].date
  {
    var p := (a: Appointment) => a.patientId == patientId && a.status != Cancelled;
    var rows := Filter(s, p);
    FilterMultiset(s, p);
    var r := SortBy(rows, (a: Appointment) => -a.date);
    assert forall a :: a in r <==> a in rows by {
      forall a ensures a in r <==> a in rows { assert a in r <==> a in multiset(r); }
    }
    r
  }

  /** `findTodaysAppointments`: the doctor's appointments on one date, earliest time first. */
  function FindTodaysAppointments(s: seq<Appointment>, doctorId: nat, date: Day): (r: seq<Appointment>)
    ensures forall a :: multiset(r)[a] ==
                        (if a.doctorId == doctorId && a.date == date then multiset(s)[a] else 0)
    ensures forall i, j :: 0 <= i < j < |r| ==> r[i].time <= r[j].time
  {
    var p := (a: Appointment) => a.doctorId == doctorId && a.date == date;
    FilterMultiset(s, p);
    SortBy(Filter(s, p), (a: Appointment) => a.time)
  }

  /** `findUpcomingAppointments`: SCHEDULED or CONFIRMED appointments on a later date. */
  function FindUpcomingAppointments(s: seq<Appointment>, date: Day): (r: seq<Appointment>)
    ensures forall a :: a in r <==> a in s && a.date > date && a.status in {Scheduled, Confirmed}
  {
    Filter(s, (a: Appointment) => a.date > date && (a.status == Scheduled || a.status == Confirmed))
  }

  /** `findAppointmentsByDoctorAndDateRange`: the doctor's appointments dated within
      the closed range, of every status, CANCELLED included. */
  function FindAppointmentsByDoctorAndDateRange(s: seq<Appointment>, doctorId: nat, startDate: Day, endDate: Day)
    : (r: seq<Appointment>)
    ensures forall a :: a in r <==> a in s && a.doctorId == doctorId && startDate <= a.date <= endDate
  {
    Filter(s, (a: Appointment) => a.doctorId == doctorId && startDate <= a.date && a.date <= endDate)
  }

  /** `findConflictingAppointments`: the doctor's appointments on the date whose start
      time lies between the two bounds, compared as times of day. Both bounds are
      inclusive, so a window whose end is earlier than its start holds nothing; the
      stored appointment's duration and status play no part. */
  function FindConflictingAppointments(s: seq<Appointment>, doctorId: nat, date: Day, startTime: MinuteOfDay,
                                       endTime: MinuteOfDay)
    : (r: seq<Appointment>)
    ensures forall a :: a in r <==>
      a in s && a.date == date && startTime <= a.time <= endTime && a.doctorId == doctorId
    ensures endTime < startTime ==> r == []
  {
    var r := Filter(s, (a: Appointment) => a.date == date && startTime <= a.time && a.time <= endTime && a.doctorId == doctorId);
    assert |r| != 0 ==> r[0] in r;
    r
  }

  /** `findOverdueAppointments`: appointments in the given status dated before `date`. */
  function FindOverdueAppointments(s: seq<Appointment>, status: AppointmentStatus, date: Day): (r: seq<Appointment>)
    ensures forall a :: a in r <==> a in s && a.status == status && a.date < date
  {
    Filter(s, (a: Appointment) => a.status == status && a.date < date)
  }

  /** `findEmergencyAppointments`: emergencies that are scheduled, confirmed or in progress. */
  function FindEmergencyAppointments(s: seq<Appointment>): (r: seq<Appointment>)
    ensures forall a :: a in r <==> a in s && a.isEmergency && a.status in {Scheduled, Confirmed, InProgress}
  {
    Filter(s, (a: Appointment) => a.isEmergency && (a.status == Scheduled || a.status == Confirmed || a.status == InProgress))
  }
}
