/** The derived queries over the appointment collection: the two
    `AppointmentRepository` declares (`findAppointmentsByStatus`,
    `findAppointmentsBetweenDates`) and the two `AppointmentService` calls
    (`findByPatientId`, `findByDoctorId`). */
module AppointmentRepository {
  import opened Common
  import opened StatusModel
  import opened AppointmentModel

  /** `findAppointmentsByStatus(status)`. */
  function ByStatus(m: map<string, Appointment>, status: Status): (r: set<Appointment>)
    ensures r <= m.Values
    ensures forall a :: a in r ==> a.fields.status == Some(status)
    ensures forall a :: a in m.Values && a.fields.status == Some(status) ==> a in r
  {
    set a | a in m.Values && a.fields.status == Some(status)
  }

  /** The appointments dated from `start` to `end`, both days included. */
  function BetweenDates(m: map<string, Appointment>, start: Date, end: Date): (r: set<Appointment>)
    ensures r <= m.Values
    ensures forall a :: a in r ==> a.fields.date.Some? && start <= a.fields.date.value <= end
    ensures forall a :: a in m.Values && a.fields.date.Some? && start <= a.fields.date.value <= end ==> a in r
  {
    set a | a in m.Values && a.fields.date.Some? && start <= a.fields.date.value <= end
  }

  /** `findByPatientId(patientId)`. */
  function ByPatientId(m: map<string, Appointment>, patientId: string): (r: set<Appointment>)
    ensures r <= m.Values
    ensures forall a :: a in r ==> a.fields.patientId == Some(patientId)
    ensures forall a :: a in m.Values && a.fields.patientId == Some(patientId) ==> a in r
  {
    set a | a in m.Values && a.fields.patientId == Some(patientId)
  }

  /** `findByDoctorId(doctorId)`. */
  function ByDoctorId(m: map<string, Appointment>, doctorId: string): (r: set<Appointment>)
    ensures r <= m.Values
    ensures forall a :: a in r ==> a.fields.doctorId == Some(doctorId)
    ensures forall a :: a in m.Values && a.fields.doctorId == Some(doctorId) ==> a in r
  {
    set a | a in m.Values && a.fields.doctorId == Some(doctorId)
  }

  /** Both bounds are inclusive: appointments dated exactly `start` or
      exactly `end` are returned. */
  lemma BoundsInclusive(m: map<string, Appointment>, start: Date, end: Date, a: Appointment)
    requires a in m.Values && start <= end
    ensures a.fields.date == Some(start) ==> a in BetweenDates(m, start, end)
    ensures a.fields.date == Some(end) ==> a in BetweenDates(m, start, end)
  {
  }

  /** A range that ends before it starts selects nothing, without error. */
  lemma ReversedRangeEmpty(m: map<string, Appointment>, start: Date, end: Date)
    requires start > end
    ensures BetweenDates(m, start, end) == {}
  {
  }

  /** A one-day range selects exactly the appointments on that day. */
  lemma SingleDay(m: map<string, Appointment>, day: Date)
    ensures BetweenDates(m, day, day) == set a | a in m.Values && a.fields.date == Some(day)
  {
  }

  /** A range split at any day into two adjacent ranges selects the same
      appointments, and no appointment falls into both halves. */
  lemma SplitRange(m: map<string, Appointment>, start: Date, mid: Date, end: Date)
    requires start <= mid < end
    ensures BetweenDates(m, start, end) == BetweenDates(m, start, mid) + BetweenDates(m, mid + 1, end)
    ensures BetweenDates(m, start, mid) !! BetweenDates(m, mid + 1, end)
  {
  }

  /** The stored appointments whose status is set. */
  function WithStatus(m: map<string, Appointment>): (r: set<Appointment>) {
    set a | a in m.Values && a.fields.status.Some?
  }

  /** The three status queries are pairwise disjoint and together return
      every stored appointment whose status is set. */
  lemma StatusesPartition(m: map<string, Appointment>)
    ensures ByStatus(m, SCHEDULED) !! ByStatus(m, COMPLETED)
    ensures ByStatus(m, SCHEDULED) !! ByStatus(m, CANCELLED)
    ensures ByStatus(m, COMPLETED) !! ByStatus(m, CANCELLED)
    ensures ByStatus(m, SCHEDULED) + ByStatus(m, COMPLETED) + ByStatus(m, CANCELLED) == WithStatus(m)
  {
    forall a | a in WithStatus(m)
      ensures a in ByStatus(m, SCHEDULED) + ByStatus(m, COMPLETED) + ByStatus(m, CANCELLED)
    {
      match a.fields.status.value
      case SCHEDULED => assert a in ByStatus(m, SCHEDULED);
      case COMPLETED => assert a in ByStatus(m, COMPLETED);
      case CANCELLED => assert a in ByStatus(m, CANCELLED);
    }
  }

  /** An appointment that passed validation on `today` is returned by every
      range that starts on or before `today` and reaches its date. */
  lemma ValidAppointmentInRange(m: map<string, Appointment>, a: Appointment, today: Date, start: Date, end: Date)
    requires a in m.Values && Valid(a, today)
    requires start <= today && a.fields.date.value <= end
    ensures a in BetweenDates(m, start, end)
  {
    ValidIff(a, today);
  }
}
