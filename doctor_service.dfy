/** `DoctorService`: create, read, replace and delete doctors, and the
    speciality and experience queries, over one doctor collection. */
module DoctorServiceModel {
  import opened Common
  import opened Store
  import opened Constraints
  import opened DoctorModel
  import DoctorRepository

  class DoctorService {
    /** The repository injected at construction; the service's only state. */
    const repository: Repository<DoctorData>

    predicate Valid()
      reads this, repository
    {
      repository.Valid()
    }

    constructor(repository: Repository<DoctorData>)
      requires repository.Valid()
      ensures this.repository == repository && Valid()
    {
      this.repository := repository;
    }

    /** `addDoctor`: inserts the doctor as given; no validation happens
        here. */
    method AddDoctor(doctor: Doctor) returns (r: Result<Doctor, StoreError>)
      requires Valid()
      modifies repository
      ensures Valid()
      ensures Inserted(old(repository.records), doctor, r, repository.records)
    {
      r := repository.Insert(doctor);
    }

    /** `getAllDoctor`: every stored doctor. */
    method GetAllDoctor() returns (all: set<Doctor>)
      ensures all == repository.records.Values
    {
      all := repository.FindAll();
    }

    /** `findDoctorById`: the doctor stored under `id`, or empty when there
        is none. */
    method FindDoctorById(id: string) returns (r: Option<Doctor>)
      requires Valid()
      ensures r == Lookup(repository.records, id)
      ensures r.Some? ==> r.value.id == Some(id)
    {
      r := repository.FindById(id);
    }

    /** `updateDoctor`: overwrites the body's id with `id`, then saves it as
        given, replacing whatever is stored under `id`. */
    method UpdateDoctor(id: string, updateDoctor: Doctor) returns (saved: Doctor)
      requires Valid()
      modifies repository
      ensures Valid()
      ensures saved == updateDoctor.(id := Some(id))
      ensures repository.records == old(repository.records)[id := saved]
    {
      var withId := updateDoctor.(id := Some(id));
      saved := repository.Save(withId);
    }

    /** `deleteDoctor`: removes the doctor stored under `id`; an absent id
        is ignored. */
    method DeleteDoctor(id: string)
      requires Valid()
      modifies repository
      ensures Valid()
      ensures repository.records == Remove(old(repository.records), id)
    {
      repository.DeleteById(id);
    }

    /** `getDoctorsBySpeciality`: the stored doctors of exactly that
        speciality. */
    method GetDoctorsBySpeciality(speciality: string) returns (r: set<Doctor>)
      ensures r == DoctorRepository.BySpeciality(repository.records, speciality)
    {
      r := DoctorRepository.BySpeciality(repository.records, speciality);
    }

    /** `getDoctorWithExperienceMoreThan`: the stored doctors with more than
        `years` years of experience. */
    method GetDoctorWithExperienceMoreThan(years: Int32) returns (r: set<Doctor>)
      ensures r == DoctorRepository.ExperienceGreaterThan(repository.records, years)
    {
      r := DoctorRepository.ExperienceGreaterThan(repository.records, years);
    }
  }

  /** The service checks nothing: an update stores a doctor that fails
      validation, such as one with negative experience, exactly as given. */
  lemma UpdateStoresInvalidDoctor(m: map<string, Doctor>, id: string, d: Doctor, isEmail: EmailChecker)
    requires d.fields.yearsOfExperience < 0
    ensures var after := m[id := d.(id := Some(id))];
      && Lookup(after, id).Some?
      && Lookup(after, id).value.fields == d.fields
      && !DoctorModel.Valid(Lookup(after, id).value, isEmail)
  {
    ExperienceBound(d.(id := Some(id)), isEmail);
  }

  /** Doctor "Dr. A", a cardiologist with 5 years of experience, added to
      an empty collection: the cardiology query returns exactly that doctor
      and the query for more than 10 years returns nothing. */
  method CardiologyScenario() returns (added: Result<Doctor, StoreError>,
                                       cardiologists: set<Doctor>, seniors: set<Doctor>)
    ensures added.Success?
    ensures added.value.fields == DoctorData(Some("Dr. A"), Some("Cardiology"), 5, Some("a@x.com"))
    ensures cardiologists == {added.value}
    ensures seniors == {}
  {
    var repository := new Repository<DoctorData>();
    var service := new DoctorService(repository);
    var doctor := Document(None, DoctorData(Some("Dr. A"), Some("Cardiology"), 5, Some("a@x.com")));
    added := service.AddDoctor(doctor);
    assert repository.records.Values == {added.value};
    cardiologists := service.GetDoctorsBySpeciality("Cardiology");
    seniors := service.GetDoctorWithExperienceMoreThan(10);
  }
}
