/** `AppointmentService`: create appointments and query them by patient,
    doctor, status and date range. There is no update and no delete. */
module AppointmentServiceModel {
  import opened Common
  import opened Store
  import opened StatusModel
  import opened AppointmentModel
  import AppointmentRepository

  class AppointmentService {
    /** The repository injected at construction; the service's only state. */
    const repository: Repository<AppointmentData>

    predicate Valid()
      reads this, repository
    {
      repository.Valid()
    }

    constructor(repository: Repository<AppointmentData>)
      requires repository.Valid()
      ensures this.repository == repository && Valid()
    {
      this.repository := repository;
    }

    /** `addAppointment`: inserts the appointment as given, without looking
        up its patient or doctor. Since this is the service's only write,
        a stored appointment, status included, is never changed. */
    method AddAppointment(appointment: Appointment) returns (r: Result<Appointment, StoreError>)
      requires Valid()
      modifies repository
      ensures Valid()
      ensures Inserted(old(repository.records), appointment, r, repository.records)
      ensures forall k :: k in old(repository.records) ==>
        k in repository.records && repository.records[k] == old(repository.records)[k]
    {
      r := repository.Insert(appointment);
      InsertKeepsStored(old(repository.records), appointment, r, repository.records);
    }

    /** `getAllAppointmentsForPatient`: the appointments of that patient id,
        possibly none. */
    method GetAllAppointmentsForPatient(patientId: string) returns (r: set<Appointment>)
      ensures r == AppointmentRepository.ByPatientId(repository.records, patientId)
    {
      r := AppointmentRepository.ByPatientId(repository.records, patientId);
    }

    /** `getAllAppointmentsForDoctor`: the appointments of that doctor id,
        possibly none. */
    method GetAllAppointmentsForDoctor(doctorId: string) returns (r: set<Appointment>)
      ensures r == AppointmentRepository.ByDoctorId(repository.records, doctorId)
    {
      r := AppointmentRepository.ByDoctorId(repository.records, doctorId);
    }

    /** `getAppointmentByStatus`: the appointments with that status,
        possibly none. */
    method GetAppointmentByStatus(status: Status) returns (r: set<Appointment>)
      ensures r == AppointmentRepository.ByStatus(repository.records, status)
    {
      r := AppointmentRepository.ByStatus(repository.records, status);
    }

    /** `getAppointmentBetweenDates`: the appointments dated from
        `startDate` to `endDate`, both included. */
    method GetAppointmentBetweenDates(startDate: Date, endDate: Date) returns (r: set<Appointment>)
      ensures r == AppointmentRepository.BetweenDates(repository.records, startDate, endDate)
    {
      r := AppointmentRepository.BetweenDates(repository.records, startDate, endDate);
    }
  }

  /** Inserting an appointment without an id always succeeds, whatever
      patient and doctor ids it names: no reference is checked, and the
      appointment is then listed under those ids. */
  lemma InsertChecksNoReferences(before: map<string, Appointment>, appointment: Appointment,
                                 r: Result<Appointment, StoreError>, after: map<string, Appointment>)
    requires appointment.id.None?
    requires Inserted(before, appointment, r, after)
    ensures r.Success?
    ensures r.value.fields.patientId == appointment.fields.patientId
    ensures r.value.fields.doctorId == appointment.fields.doctorId
    ensures appointment.fields.patientId.Some? ==>
      r.value in AppointmentRepository.ByPatientId(after, appointment.fields.patientId.value)
    ensures appointment.fields.doctorId.Some? ==>
      r.value in AppointmentRepository.ByDoctorId(after, appointment.fields.doctorId.value)
  {
    InsertKeepsStored(before, appointment, r, after);
    assert after[r.value.id.value] == r.value;
  }
}
