/** `MedicalRecordService`: create medical records and list them. There is
    no update and no delete. */
module MedicalRecordServiceModel {
  import opened Common
  import opened Store
  import opened MedicalRecordModel

  class MedicalRecordService {
    /** The repository injected at construction; the service's only state. */
    const repository: Repository<MedicalRecordData>

    predicate Valid()
      reads this, repository
    {
      repository.Valid()
    }

    constructor(repository: Repository<MedicalRecordData>)
      requires repository.Valid()
      ensures this.repository == repository && Valid()
    {
      this.repository := repository;
    }

    /** `addMedicalRecordRepository`: inserts the record as given. Being an
        insert and not a save, it refuses a record whose id is already
        stored instead of overwriting it. */
    method AddMedicalRecordRepository(record: MedicalRecord) returns (r: Result<MedicalRecord, StoreError>)
      requires Valid()
      modifies repository
      ensures Valid()
      ensures Inserted(old(repository.records), record, r, repository.records)
      ensures record.id.Some? && record.id.value in old(repository.records) ==>
        r == Failure(DuplicateKey(record.id.value)) && repository.records == old(repository.records)
    {
      r := repository.Insert(record);
    }

    /** `getAllMedicalRecordRepositoryForPatient`: despite its name, every
        stored record, of every patient. */
    method GetAllMedicalRecordRepositoryForPatient() returns (all: set<MedicalRecord>)
      ensures all == repository.records.Values
    {
      all := repository.FindAll();
    }
  }
}
