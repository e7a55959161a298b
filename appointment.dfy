/** An appointment document and the constraints its fields carry. */
module AppointmentModel {
  import opened Common
  import opened Constraints
  import opened StatusModel

  /** The mapped fields of an appointment. */
  datatype AppointmentData = AppointmentData(
    patientId: Option<string>,
    doctorId: Option<string>,
    date: Option<Date>,
    reason: Option<string>,
    status: Option<Status>)

  type Appointment = Document<AppointmentData>

  /** The violations Hibernate Validator reports for an appointment,
      judged on the day `today`. Each is one of the annotation messages, and
      a missing date is never also reported as lying in the past. */
  function Violations(a: Appointment, today: Date): (vs: set<Violation>)
    ensures vs <= {
      Violation("patientId", "Patient ID is required"),
      Violation("doctorId", "Doctor ID is required"),
      Violation("date", "Appointment date is required"),
      Violation("date", "Appointment date must be today or in the future"),
      Violation("reason", "Reason for visit required"),
      Violation("status", "Status is required")}
    ensures Violation("patientId", "Patient ID is required") in vs <==> a.fields.patientId.None?
    ensures Violation("doctorId", "Doctor ID is required") in vs <==> !NotBlank(a.fields.doctorId)
    ensures Violation("date", "Appointment date is required") in vs <==> a.fields.date.None?
    ensures Violation("date", "Appointment date must be today or in the future") in vs <==>
      a.fields.date.Some? && a.fields.date.value < today
    ensures Violation("reason", "Reason for visit required") in vs <==> a.fields.reason.None?
    ensures Violation("status", "Status is required") in vs <==> a.fields.status.None?
    ensures a.fields.date.None? ==>
      Violation("date", "Appointment date must be today or in the future") !in vs
  {
    var f := a.fields;
    Check(NotNull(f.patientId), "patientId", "Patient ID is required")
    + Check(NotBlank(f.doctorId), "doctorId", "Doctor ID is required")
    + Check(NotNull(f.date), "date", "Appointment date is required")
    + Check(FutureOrPresent(f.date, today), "date", "Appointment date must be today or in the future")
    + Check(NotNull(f.reason), "reason", "Reason for visit required")
    + Check(NotNull(f.status), "status", "Status is required")
  }

  /** An appointment passes `@Valid` on `today` when no constraint is
      violated. */
  predicate Valid(a: Appointment, today: Date) {
    Violations(a, today) == {}
  }

  /** An appointment is valid exactly when it names a patient id (possibly
      blank), a doctor id with a visible character, a date no earlier than
      today, a reason (possibly empty) and a status. */
  lemma ValidIff(a: Appointment, today: Date)
    ensures Valid(a, today) <==>
      && a.fields.patientId.Some?
      && a.fields.doctorId.Some? && HasKeptChar(a.fields.doctorId.value)
      && a.fields.date.Some? && a.fields.date.value >= today
      && a.fields.reason.Some?
      && a.fields.status.Some?
  {
    NotBlankIff(a.fields.doctorId);
  }

  /** An empty patient id and an empty reason are accepted, while an empty
      doctor id is reported. */
  lemma EmptyIdsTreatedDifferently(a: Appointment, today: Date)
    requires a.fields.patientId == Some("") && a.fields.doctorId == Some("")
    requires a.fields.reason == Some("")
    ensures Violation("patientId", "Patient ID is required") !in Violations(a, today)
    ensures Violation("reason", "Reason for visit required") !in Violations(a, today)
    ensures Violation("doctorId", "Doctor ID is required") in Violations(a, today)
  {
  }

  /** An appointment dated today is accepted, one dated yesterday is
      reported as lying in the past. */
  lemma DateBoundary(a: Appointment, today: Date)
    ensures a.fields.date == Some(today) ==>
      Violation("date", "Appointment date must be today or in the future") !in Violations(a, today)
    ensures a.fields.date == Some(today - 1) ==>
      Violation("date", "Appointment date must be today or in the future") in Violations(a, today)
  {
  }

  /** Every status is accepted alike: changing the status of an
      appointment with one never changes its violations. */
  lemma AnyStatusAccepted(a: Appointment, s: Status, today: Date)
    requires a.fields.status.Some?
    ensures Violations(a.(fields := a.fields.(status := Some(s))), today) == Violations(a, today)
  {
  }

  /** A missing date is reported as missing only: `@FutureOrPresent`
      accepts null. */
  lemma MissingDateReportedOnce(a: Appointment, today: Date)
    requires a.fields.date.None?
    ensures Violation("date", "Appointment date is required") in Violations(a, today)
    ensures Violation("date", "Appointment date must be today or in the future") !in Violations(a, today)
  {
  }

  /** The id carries no constraint: validity never depends on it. */
  lemma ValidityIgnoresId(a: Appointment, id: Option<string>, today: Date)
    ensures Violations(a.(id := id), today) == Violations(a, today)
  {
  }
}
