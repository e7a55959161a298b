/** `PatientService`: create, read, replace and delete patients, and the two
    patient queries, over one patient collection. */
module PatientServiceModel {
  import opened Common
  import opened Store
  import opened GenderModel
  import opened PatientModel
  import PatientRepository

  class PatientService {
    /** The repository injected at construction; the service's only state. */
    const repository: Repository<PatientData>

    predicate Valid()
      reads this, repository
    {
      repository.Valid()
    }

    constructor(repository: Repository<PatientData>)
      requires repository.Valid()
      ensures this.repository == repository && Valid()
    {
      this.repository := repository;
    }

    /** `addPatient`: inserts the patient as given; no validation happens
        here. */
    method AddPatient(patient: Patient) returns (r: Result<Patient, StoreError>)
      requires Valid()
      modifies repository
      ensures Valid()
      ensures Inserted(old(repository.records), patient, r, repository.records)
    {
      r := repository.Insert(patient);
    }

    /** `findAllPatients`: every stored patient. */
    method FindAllPatients() returns (all: set<Patient>)
      ensures all == repository.records.Values
    {
      all := repository.FindAll();
    }

    /** `findPatientById`: the patient stored under `id`, or empty when there
        is none. */
    method FindPatientById(id: string) returns (r: Option<Patient>)
      requires Valid()
      ensures r == Lookup(repository.records, id)
      ensures r.Some? ==> r.value.id == Some(id)
    {
      r := repository.FindById(id);
    }

    /** `updatePatient`: overwrites the body's id with `id`, then saves it,
        replacing whatever is stored under `id`. */
    method UpdatePatient(id: string, updatePatient: Patient) returns (saved: Patient)
      requires Valid()
      modifies repository
      ensures Valid()
      ensures saved == updatePatient.(id := Some(id))
      ensures repository.records == old(repository.records)[id := saved]
    {
      var withId := updatePatient.(id := Some(id));
      saved := repository.Save(withId);
    }

    /** `deletePatient`: removes the patient stored under `id`; an absent id
        is ignored. */
    method DeletePatient(id: string)
      requires Valid()
      modifies repository
      ensures Valid()
      ensures repository.records == Remove(old(repository.records), id)
    {
      repository.DeleteById(id);
    }

    /** `getPatientsOlderThan`: the stored patients older than `age`. */
    method GetPatientsOlderThan(age: Int32) returns (r: set<Patient>)
      ensures r == PatientRepository.AgeGreaterThan(repository.records, age)
    {
      r := PatientRepository.AgeGreaterThan(repository.records, age);
    }

    /** `getPatientsByGender`: the stored patients of that gender. */
    method GetPatientsByGender(gender: Gender) returns (r: set<Patient>)
      ensures r == PatientRepository.ByGender(repository.records, gender)
    {
      r := PatientRepository.ByGender(repository.records, gender);
    }
  }

  /** An update is a full replace: afterwards the id finds the new data with
      the path id, whatever id the body carried; a phone number the old
      record had and the new data lacks is gone; other ids are untouched. */
  lemma UpdateReplacesWholeRecord(m: map<string, Patient>, id: string, updatePatient: Patient)
    ensures var after := m[id := updatePatient.(id := Some(id))];
      && Lookup(after, id) == Some(Document(Some(id), updatePatient.fields))
      && (updatePatient.fields.phoneNumber.None? ==> Lookup(after, id).value.fields.phoneNumber.None?)
      && forall k :: k != id ==> Lookup(after, k) == Lookup(m, k)
  {
  }
}
