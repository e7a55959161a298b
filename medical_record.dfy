/** A medical record document and the constraints its fields carry. */
module MedicalRecordModel {
  import opened Common
  import opened Constraints

  /** The mapped fields of a medical record; the patient reference is
      spelled `patientID` in this entity. */
  datatype MedicalRecordData = MedicalRecordData(
    patientID: Option<string>,
    diagnosis: Option<string>,
    treatment: Option<string>,
    createdOn: Option<Date>)

  type MedicalRecord = Document<MedicalRecordData>

  /** The violations Hibernate Validator reports for a medical record,
      judged on the day `today`. Each is one of the annotation messages, and
      a missing date is never also reported as lying in the future. */
  function Violations(r: MedicalRecord, today: Date): (vs: set<Violation>)
    ensures vs <= {
      Violation("patientID", "Patient ID is required"),
      Violation("diagnosis", "Diagnosis is required"),
      Violation("treatment", "Treatment is required"),
      Violation("createdOn", "Created date is required"),
      Violation("createdOn", "Created date must be in the past or today")}
    ensures Violation("patientID", "Patient ID is required") in vs <==> !NotBlank(r.fields.patientID)
    ensures Violation("diagnosis", "Diagnosis is required") in vs <==> !NotBlank(r.fields.diagnosis)
    ensures Violation("treatment", "Treatment is required") in vs <==> !NotBlank(r.fields.treatment)
    ensures Violation("createdOn", "Created date is required") in vs <==> r.fields.createdOn.None?
    ensures Violation("createdOn", "Created date must be in the past or today") in vs <==>
      r.fields.createdOn.Some? && r.fields.createdOn.value > today
    ensures r.fields.createdOn.None? ==>
      Violation("createdOn", "Created date must be in the past or today") !in vs
  {
    var f := r.fields;
    Check(NotBlank(f.patientID), "patientID", "Patient ID is required")
    + Check(NotBlank(f.diagnosis), "diagnosis", "Diagnosis is required")
    + Check(NotBlank(f.treatment), "treatment", "Treatment is required")
    + Check(NotNull(f.createdOn), "createdOn", "Created date is required")
    + Check(PastOrPresent(f.createdOn, today), "createdOn", "Created date must be in the past or today")
  }

  /** A medical record passes `@Valid` on `today` when no constraint is
      violated. */
  predicate Valid(r: MedicalRecord, today: Date) {
    Violations(r, today) == {}
  }

  /** A medical record is valid exactly when patient id, diagnosis and
      treatment each hold a visible character and it was created no later
      than today. */
  lemma ValidIff(r: MedicalRecord, today: Date)
    ensures Valid(r, today) <==>
      && r.fields.patientID.Some? && HasKeptChar(r.fields.patientID.value)
      && r.fields.diagnosis.Some? && HasKeptChar(r.fields.diagnosis.value)
      && r.fields.treatment.Some? && HasKeptChar(r.fields.treatment.value)
      && r.fields.createdOn.Some? && r.fields.createdOn.value <= today
  {
    NotBlankIff(r.fields.patientID);
    NotBlankIff(r.fields.diagnosis);
    NotBlankIff(r.fields.treatment);
  }

  /** A record created today is accepted, one created tomorrow is reported
      as lying in the future. */
  lemma CreatedOnBoundary(r: MedicalRecord, today: Date)
    ensures r.fields.createdOn == Some(today) ==>
      Violation("createdOn", "Created date must be in the past or today") !in Violations(r, today)
    ensures r.fields.createdOn == Some(today + 1) ==>
      Violation("createdOn", "Created date must be in the past or today") in Violations(r, today)
  {
  }

  /** A missing creation date is reported as missing only:
      `@PastOrPresent` accepts null. */
  lemma MissingCreatedOnReportedOnce(r: MedicalRecord, today: Date)
    requires r.fields.createdOn.None?
    ensures Violation("createdOn", "Created date is required") in Violations(r, today)
    ensures Violation("createdOn", "Created date must be in the past or today") !in Violations(r, today)
  {
  }

  /** The id carries no constraint: validity never depends on it. */
  lemma ValidityIgnoresId(r: MedicalRecord, id: Option<string>, today: Date)
    ensures Violations(r.(id := id), today) == Violations(r, today)
  {
  }
}
