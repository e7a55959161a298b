# Healthcare management service: a verified model of its data and query layer

This project models the core of a Spring Boot service that keeps patients,
doctors, appointments and medical records in four MongoDB collections. It
covers three pieces:

- the `Gender` and `Status` enum codecs: `fromString` trims the input,
  upper-cases it and looks the constant up, and `toValue` writes the
  lower-case name;
- the Bean Validation constraints on the four entities, as the set of
  violations (field and annotation message) Hibernate Validator reports;
- the repository behind each service (`insert`, `save`, `findById`,
  `findAll`, `deleteById`), the derived queries as filters over the
  stored collection, and the four services as classes over that repository.

Modules, one per file:

| file | module | models |
|---|---|---|
| common.dfy | Common | null as `Option`, exceptions as `Result`, Java `int`, `LocalDate` as a day number, a stored document |
| java_text.dfy | JavaText | `String.trim()`, `toUpperCase()`, `toLowerCase()`, blankness |
| gender.dfy, status.dfy | GenderModel, StatusModel | the two enums and their codecs |
| constraints.dfy | Constraints | `@NotNull`, `@NotBlank`, `@Min`, `@Email`, `@FutureOrPresent`, `@PastOrPresent` |
| patient.dfy, doctor.dfy, appointment.dfy, medical_record.dfy | PatientModel, DoctorModel, AppointmentModel, MedicalRecordModel | each entity's fields and violations |
| store.dfy | Store | a MongoDB collection and its CRUD operations |
| patient_repository.dfy, doctor_repository.dfy, appointment_repository.dfy | PatientRepository, DoctorRepository, AppointmentRepository | the derived queries |
| patient_service.dfy, doctor_service.dfy, appointment_service.dfy, medical_record_service.dfy | PatientServiceModel, DoctorServiceModel, AppointmentServiceModel, MedicalRecordServiceModel | the services |

Modelling choices:

- A Java `null` is `None`. A thrown exception is a `Failure`.
- A stored entity is a `Document(id, fields)`. The id is `None` until the
  store assigns one.
- A collection is a `map` from id to document. Every document is stored
  under its own id.
- `insert` and `save` pick the fresh id of a document without one
  nondeterministically. The only promise is that it is non-empty and unused.
- Queries return a `set`. The source returns a `List` whose order MongoDB
  does not fix. Ids are distinct, so no duplicates are lost.
- The `@Email` check is a function parameter (`EmailChecker`).
- The current day is a parameter (`today`).
- A primitive `int` field (`age`, `yearsOfExperience`) is never null. A
  request that omits it yields 0.
- The services validate nothing. `@Valid` is applied by the HTTP layer on
  the create endpoints only, so an update stores its body unchecked. The
  patient controller declares no endpoint at all, so no patient is ever
  validated on its way in. This follows the code.

## Model

| member | source | states |
|---|---|---|
| GenderModel.FromString | src/main/java/com/ochwada/healthcare_management/model/Gender.java:35-41 | null raises a null-pointer exception; an accepted input yields the constant whose name is the trimmed, upper-cased input; a refused one yields "Invalid gender: " followed by the original input |
| GenderModel.ToValue | src/main/java/com/ochwada/healthcare_management/model/Gender.java:48-51 | the serialised form upper-cases back to the constant's name |
| GenderModel.FromStringAccepts | src/main/java/com/ochwada/healthcare_management/model/Gender.java:35-37 | a non-null input reads as constant g exactly when its trimmed, upper-cased form is g's name |
| GenderModel.FromStringRejects | src/main/java/com/ochwada/healthcare_management/model/Gender.java:36-40 | a non-null input fails exactly when its trimmed, upper-cased form names no constant, and the error is "Invalid gender: " followed by the original input |
| GenderModel.NullInputNotTranslated | src/main/java/com/ochwada/healthcare_management/model/Gender.java:37-38 | a null input raises a null-pointer exception, never the "Invalid gender" error |
| GenderModel.ToValueSpellings | src/main/java/com/ochwada/healthcare_management/model/Gender.java:48-51 | the constants serialise to "female", "male" and "others" |
| GenderModel.ToValueInjective | src/main/java/com/ochwada/healthcare_management/model/Gender.java:19-22 | distinct constants serialise to distinct strings |
| GenderModel.RoundTrip | src/main/java/com/ochwada/healthcare_management/model/Gender.java:35-51 | reading back the serialised form of any constant gives that constant |
| GenderModel.ParsedValueIsNormalisedInput | src/main/java/com/ochwada/healthcare_management/model/Gender.java:37-50 | writing back whatever was read gives the lower-case form of the trimmed input |
| GenderModel.PaddingIgnored | src/main/java/com/ochwada/healthcare_management/model/Gender.java:37 | white space around the input never changes whether or as what it is read |
| GenderModel.NameReads | src/main/java/com/ochwada/healthcare_management/model/Gender.java:37 | any spelling whose upper-case form is a constant's name reads as that constant |
| GenderModel.MaleSpellings | src/main/java/com/ochwada/healthcare_management/model/Gender.java:35-37 | "male", "MALE", "Male" and " male " all read as MALE |
| GenderModel.UnknownTokensRejected | src/main/java/com/ochwada/healthcare_management/model/Gender.java:38-39 | "bogus" and "fe male" fail with "Invalid gender: " and the input |
| StatusModel.FromString | src/main/java/com/ochwada/healthcare_management/model/Status.java:33-39 | null raises a null-pointer exception; an accepted input yields the constant whose name is the trimmed, upper-cased input; a refused one yields "Invalid status: " followed by the original input |
| StatusModel.ToValue | src/main/java/com/ochwada/healthcare_management/model/Status.java:46-49 | the serialised form upper-cases back to the constant's name |
| StatusModel.FromStringAccepts | src/main/java/com/ochwada/healthcare_management/model/Status.java:33-35 | a non-null input reads as constant s exactly when its trimmed, upper-cased form is s's name |
| StatusModel.FromStringRejects | src/main/java/com/ochwada/healthcare_management/model/Status.java:34-38 | a non-null input fails exactly when its trimmed, upper-cased form names no constant, with "Invalid status: " and the original input |
| StatusModel.NullInputNotTranslated | src/main/java/com/ochwada/healthcare_management/model/Status.java:35-36 | a null input raises a null-pointer exception, never the "Invalid status" error |
| StatusModel.ToValueSpellings | src/main/java/com/ochwada/healthcare_management/model/Status.java:46-49 | the constants serialise to "scheduled", "completed" and "cancelled" |
| StatusModel.ToValueInjective | src/main/java/com/ochwada/healthcare_management/model/Status.java:17-20 | distinct constants serialise to distinct strings |
| StatusModel.RoundTrip | src/main/java/com/ochwada/healthcare_management/model/Status.java:33-49 | reading back the serialised form of any constant gives that constant |
| StatusModel.ParsedValueIsNormalisedInput | src/main/java/com/ochwada/healthcare_management/model/Status.java:35-48 | writing back whatever was read gives the lower-case form of the trimmed input |
| StatusModel.PaddingIgnored | src/main/java/com/ochwada/healthcare_management/model/Status.java:35 | white space around the input never changes whether or as what it is read |
| StatusModel.NameReads | src/main/java/com/ochwada/healthcare_management/model/Status.java:35 | any spelling whose upper-case form is a constant's name reads as that constant |
| StatusModel.ScheduledSpellings | src/main/java/com/ochwada/healthcare_management/model/Status.java:33-35 | "scheduled", "SCHEDULED", "Scheduled" and " scheduled " all read as SCHEDULED |
| StatusModel.UnknownTokensRejected | src/main/java/com/ochwada/healthcare_management/model/Status.java:36-37 | "bogus" and "done" fail with "Invalid status: " and the input |
| JavaText.TrimShape | src/main/java/com/ochwada/healthcare_management/model/Gender.java:37 | `trim()` never lengthens, and its result is empty or starts and ends with a kept character |
| JavaText.BlankIffAllTrimmable | src/main/java/com/ochwada/healthcare_management/model/Patient.java:29 | a string is blank exactly when every character of it is at most U+0020 |
| JavaText.PaddingIsTrimmed | src/main/java/com/ochwada/healthcare_management/model/Gender.java:37 | padding a string with white space on both sides does not change its trim |
| JavaText.ToUpperCaseAt | src/main/java/com/ochwada/healthcare_management/model/Gender.java:37 | `toUpperCase()` keeps the length and maps every character on its own to its upper-case letter |
| JavaText.ToLowerCaseAt | src/main/java/com/ochwada/healthcare_management/model/Gender.java:50 | `toLowerCase()` keeps the length and maps every character on its own to its lower-case letter |
| JavaText.LowerOfUpper | src/main/java/com/ochwada/healthcare_management/model/Gender.java:37-50 | lower-casing after upper-casing gives the lower-case form |
| JavaText.UpperOfLower | src/main/java/com/ochwada/healthcare_management/model/Gender.java:37-50 | upper-casing after lower-casing gives the upper-case form |
| GenderModel.ValueOf | src/main/java/com/ochwada/healthcare_management/model/Gender.java:37 | `valueOf` finds the constant whose name is exactly the given string, and finds nothing when no constant has that name |
| StatusModel.ValueOf | src/main/java/com/ochwada/healthcare_management/model/Status.java:35 | `valueOf` finds the constant whose name is exactly the given string, and finds nothing when no constant has that name |
| Constraints.Email | src/main/java/com/ochwada/healthcare_management/model/Patient.java:43 | `@Email` accepts a null and an empty string whatever the e-mail check says |
| Constraints.FutureOrPresent | src/main/java/com/ochwada/healthcare_management/model/Appointment.java:42 | `@FutureOrPresent` accepts a null date |
| Constraints.PastOrPresent | src/main/java/com/ochwada/healthcare_management/model/MedicalRecord.java:47 | `@PastOrPresent` accepts a null date |
| Constraints.NotBlankIff | src/main/java/com/ochwada/healthcare_management/model/Patient.java:29 | `@NotBlank` holds exactly for a present string containing a character above U+0020 |
| Constraints.EmailOfNotBlank | src/main/java/com/ochwada/healthcare_management/model/Patient.java:42-43 | on a non-blank string, `@Email` reduces to the e-mail check itself |
| PatientModel.MatchesPhonePattern | src/main/java/com/ochwada/healthcare_management/model/Patient.java:50-53 | a matching phone number has 10 to 16 characters, all digits after the first |
| PatientModel.Violations | src/main/java/com/ochwada/healthcare_management/model/Patient.java:28-54 | each message is reported exactly when its constraint fails: a missing or blank name, an age below 1, a missing gender, a missing or blank email, a non-empty email the e-mail check refuses, a present phone number off the pattern; no other violation appears (the `@NotNull` on the primitive age never fires) |
| PatientModel.PhonePatternIsConcatenation | src/main/java/com/ochwada/healthcare_management/model/Patient.java:50-53 | the phone check holds exactly for strings made of an optional '+' followed by 10 to 15 digits |
| PatientModel.PhonePatternExamples | src/main/java/com/ochwada/healthcare_management/model/Patient.java:51 | "0123456789" and "+123456789012345" match; 9 or 16 digits, "+" alone, a letter or a space do not |
| PatientModel.ValidIff | src/main/java/com/ochwada/healthcare_management/model/Patient.java:28-54 | a patient is valid exactly when name and email hold a visible character, age is at least 1, gender is set, the e-mail check passes, and the phone number is absent or matches the pattern |
| PatientModel.MissingAgeRejected | src/main/java/com/ochwada/healthcare_management/model/Patient.java:33-35 | age 0, the value of an omitted age, is reported as "Age should be positive" and never as "Age is required" |
| PatientModel.ValidityIgnoresId | src/main/java/com/ochwada/healthcare_management/model/Patient.java:25-26 | the violations do not depend on the id |
| DoctorModel.Violations | src/main/java/com/ochwada/healthcare_management/model/Doctor.java:32-48 | each message is reported exactly when its constraint fails: a missing or blank name or speciality, negative experience, a non-empty email the e-mail check refuses, a missing or blank email; no other violation appears (the `@NotNull` on the primitive experience never fires) |
| DoctorModel.ValidIff | src/main/java/com/ochwada/healthcare_management/model/Doctor.java:32-48 | a doctor is valid exactly when name, speciality and email hold a visible character, experience is not negative, and the e-mail check passes |
| DoctorModel.ExperienceBound | src/main/java/com/ochwada/healthcare_management/model/Doctor.java:40-43 | "Minimum value is 0" is reported exactly for negative experience; "Years of experience needed" is never reported |
| DoctorModel.ValidityIgnoresId | src/main/java/com/ochwada/healthcare_management/model/Doctor.java:28-30 | the violations do not depend on the id |
| AppointmentModel.Violations | src/main/java/com/ochwada/healthcare_management/model/Appointment.java:32-52 | each message is reported exactly when its constraint fails: a missing patient id, a missing or blank doctor id, a missing date, a present date before today, a missing reason, a missing status; a missing date is never also reported as past; no other violation appears |
| AppointmentModel.ValidIff | src/main/java/com/ochwada/healthcare_management/model/Appointment.java:32-52 | an appointment is valid on a day exactly when patient id, reason and status are present, the doctor id holds a visible character, and the date is present and not before that day |
| AppointmentModel.EmptyIdsTreatedDifferently | src/main/java/com/ochwada/healthcare_management/model/Appointment.java:32-48 | an empty patient id and an empty reason pass, an empty doctor id is reported |
| AppointmentModel.DateBoundary | src/main/java/com/ochwada/healthcare_management/model/Appointment.java:41-44 | a date of today passes, yesterday is reported |
| AppointmentModel.AnyStatusAccepted | src/main/java/com/ochwada/healthcare_management/model/Appointment.java:50-52 | which status is set never changes the violations |
| AppointmentModel.MissingDateReportedOnce | src/main/java/com/ochwada/healthcare_management/model/Appointment.java:41-42 | a missing date is reported as missing and not as lying in the past |
| AppointmentModel.ValidityIgnoresId | src/main/java/com/ochwada/healthcare_management/model/Appointment.java:28-30 | the violations do not depend on the id |
| MedicalRecordModel.Violations | src/main/java/com/ochwada/healthcare_management/model/MedicalRecord.java:33-49 | each message is reported exactly when its constraint fails: a missing or blank patient id, diagnosis or treatment, a missing creation date, a present creation date after today; a missing date is never also reported as future; no other violation appears |
| MedicalRecordModel.ValidIff | src/main/java/com/ochwada/healthcare_management/model/MedicalRecord.java:33-49 | a record is valid on a day exactly when patient id, diagnosis and treatment hold a visible character and the creation date is present and not after that day |
| MedicalRecordModel.CreatedOnBoundary | src/main/java/com/ochwada/healthcare_management/model/MedicalRecord.java:45-49 | created today passes, created tomorrow is reported |
| MedicalRecordModel.MissingCreatedOnReportedOnce | src/main/java/com/ochwada/healthcare_management/model/MedicalRecord.java:46-47 | a missing creation date is reported as missing and not as lying in the future |
| MedicalRecordModel.ValidityIgnoresId | src/main/java/com/ochwada/healthcare_management/model/MedicalRecord.java:29-31 | the violations do not depend on the id |
| Store.Lookup | src/main/java/com/ochwada/healthcare_management/service/PatientService.java:73-81 | finds nothing exactly for an unstored id, and for a stored id finds the document stored under it; in a collection whose documents carry their keys, what it finds carries the requested id |
| Store.Remove | src/main/java/com/ochwada/healthcare_management/service/PatientService.java:96-105 | the id is gone, no other key is removed, and every remaining document is unchanged |
| Store.Inserted | src/main/java/com/ochwada/healthcare_management/service/PatientService.java:59-60 | describes an insert; whatever its outcome, every stored document stays under its id unchanged |
| Store.Saved | src/main/java/com/ochwada/healthcare_management/service/PatientService.java:91-93 | describes a save; the collection's keys grow by at most the saved id |
| Store.FreshIdExists | src/main/java/com/ochwada/healthcare_management/service/PatientService.java:60 | some non-empty id is always unused, so an insert without id can always succeed |
| Store.InsertKeepsStored | src/main/java/com/ochwada/healthcare_management/service/PatientService.java:60 | an insert never overwrites or removes a stored document; a successful one adds exactly the returned document under its new id; a failed one changes nothing |
| Store.InsertFailsOnDuplicate | src/main/java/com/ochwada/healthcare_management/service/MedicalRecordService.java:54 | an insert fails exactly when the document names an id already stored |
| Store.SaveReplaces | src/main/java/com/ochwada/healthcare_management/service/PatientService.java:93 | after a save the id finds the saved document, whatever was there, and every other id finds what it found before |
| Store.RemoveOnlyThatId | src/main/java/com/ochwada/healthcare_management/service/PatientService.java:104 | after a delete the id finds nothing and every other id finds what it found before |
| Store.RemoveIdempotent | src/main/java/com/ochwada/healthcare_management/service/PatientService.java:96-105 | deleting twice has the effect of deleting once |
| Store.RemoveAbsent | src/main/java/com/ochwada/healthcare_management/service/PatientService.java:100-101 | deleting an absent id changes nothing |
| Store.KeysMatchPreserved | src/main/java/com/ochwada/healthcare_management/service/PatientService.java:92-93 | saving a document under its own id, or deleting one, keeps every document under its own id |
| Store.Repository.Insert | src/main/java/com/ochwada/healthcare_management/service/PatientService.java:60 | the collection changes as `Inserted` describes, keeping every document under its own id |
| Store.Repository.Save | src/main/java/com/ochwada/healthcare_management/service/PatientService.java:93 | the collection changes as `Saved` describes |
| Store.Repository.FindById | src/main/java/com/ochwada/healthcare_management/service/PatientService.java:80 | returns the document stored under the id, carrying that id, or nothing |
| Store.Repository.FindAll | src/main/java/com/ochwada/healthcare_management/service/PatientService.java:70 | returns every stored document |
| Store.Repository.DeleteById | src/main/java/com/ochwada/healthcare_management/service/PatientService.java:104 | the collection loses that id and nothing else |
| PatientRepository.AgeGreaterThan | src/main/java/com/ochwada/healthcare_management/repository/PatientRepository.java:36-41 | returns exactly the stored patients older than the bound: every result is stored and older, and every stored older patient is returned |
| PatientRepository.ByGender | src/main/java/com/ochwada/healthcare_management/repository/PatientRepository.java:43-48 | returns exactly the stored patients of that gender (sound and complete) |
| PatientRepository.AgeBoundIsStrict | src/main/java/com/ochwada/healthcare_management/repository/PatientRepository.java:36-41 | a stored patient aged exactly n is not returned for n, one aged n + 1 is |
| PatientRepository.AgeGreaterThanAntitone | src/main/java/com/ochwada/healthcare_management/repository/PatientRepository.java:41 | raising the age bound never adds a patient |
| PatientRepository.GendersPartition | src/main/java/com/ochwada/healthcare_management/repository/PatientRepository.java:43-48 | the three gender queries are pairwise disjoint and together return every stored patient with a gender |
| PatientRepository.GendersCoverValidStore | src/main/java/com/ochwada/healthcare_management/repository/PatientRepository.java:48 | when every stored patient is valid, the gender queries together return them all |
| DoctorRepository.BySpeciality | src/main/java/com/ochwada/healthcare_management/service/DoctorService.java:117-129 | returns exactly the stored doctors whose speciality is that string (sound and complete) |
| DoctorRepository.ExperienceGreaterThan | src/main/java/com/ochwada/healthcare_management/service/DoctorService.java:131-142 | returns exactly the stored doctors with more than the given years (sound and complete) |
| DoctorRepository.ExperienceBoundIsStrict | src/main/java/com/ochwada/healthcare_management/service/DoctorService.java:131-141 | a doctor with exactly y years is not returned for y, one with y + 1 is |
| DoctorRepository.SpecialitiesDisjoint | src/main/java/com/ochwada/healthcare_management/service/DoctorService.java:117-128 | different speciality strings, including those differing in letter case only, select disjoint sets |
| AppointmentRepository.ByStatus | src/main/java/com/ochwada/healthcare_management/repository/AppointmentRepository.java:37-46 | returns exactly the stored appointments with that status (sound and complete) |
| AppointmentRepository.BetweenDates | src/main/java/com/ochwada/healthcare_management/repository/AppointmentRepository.java:48-55 | returns exactly the stored appointments dated from the start to the end day inclusive (sound and complete) |
| AppointmentRepository.ByPatientId | src/main/java/com/ochwada/healthcare_management/service/AppointmentService.java:63-72 | returns exactly the stored appointments naming that patient id (sound and complete) |
| AppointmentRepository.ByDoctorId | src/main/java/com/ochwada/healthcare_management/service/AppointmentService.java:74-83 | returns exactly the stored appointments naming that doctor id (sound and complete) |
| AppointmentRepository.BoundsInclusive | src/main/java/com/ochwada/healthcare_management/repository/AppointmentRepository.java:48-55 | appointments dated exactly the start or the end day are returned |
| AppointmentRepository.ReversedRangeEmpty | src/main/java/com/ochwada/healthcare_management/repository/AppointmentRepository.java:48-55 | a range whose start is after its end returns nothing |
| AppointmentRepository.SingleDay | src/main/java/com/ochwada/healthcare_management/repository/AppointmentRepository.java:48-55 | a one-day range returns exactly the appointments on that day |
| AppointmentRepository.SplitRange | src/main/java/com/ochwada/healthcare_management/repository/AppointmentRepository.java:49 | splitting a range into two adjacent ranges splits its result into two disjoint parts |
| AppointmentRepository.StatusesPartition | src/main/java/com/ochwada/healthcare_management/repository/AppointmentRepository.java:37-46 | the three status queries are pairwise disjoint and together return every stored appointment with a status |
| AppointmentRepository.ValidAppointmentInRange | src/main/java/com/ochwada/healthcare_management/repository/AppointmentRepository.java:48-55 | an appointment valid on today is returned by any range from at most today to at least its date |
| PatientServiceModel.PatientService.AddPatient | src/main/java/com/ochwada/healthcare_management/service/PatientService.java:52-61 | inserts the patient as given, as `Inserted` describes |
| PatientServiceModel.PatientService.FindAllPatients | src/main/java/com/ochwada/healthcare_management/service/PatientService.java:63-71 | returns every stored patient |
| PatientServiceModel.PatientService.FindPatientById | src/main/java/com/ochwada/healthcare_management/service/PatientService.java:73-81 | returns the patient stored under the id, carrying it, or nothing |
| PatientServiceModel.PatientService.UpdatePatient | src/main/java/com/ochwada/healthcare_management/service/PatientService.java:83-94 | returns the body with its id forced to the path id, stored under that id; every other id unchanged |
| PatientServiceModel.PatientService.DeletePatient | src/main/java/com/ochwada/healthcare_management/service/PatientService.java:96-105 | removes that id only |
| PatientServiceModel.PatientService.GetPatientsOlderThan | src/main/java/com/ochwada/healthcare_management/service/PatientService.java:118-126 | returns the strict age filter of the stored patients |
| PatientServiceModel.PatientService.GetPatientsByGender | src/main/java/com/ochwada/healthcare_management/service/PatientService.java:128-141 | returns the exact gender filter of the stored patients |
| PatientServiceModel.UpdateReplacesWholeRecord | src/main/java/com/ochwada/healthcare_management/service/PatientService.java:91-94 | after an update the id finds the new fields with the path id, a phone number missing from the body is gone, and other ids are untouched |
| DoctorServiceModel.DoctorService.AddDoctor | src/main/java/com/ochwada/healthcare_management/service/DoctorService.java:52-61 | inserts the doctor as given, as `Inserted` describes |
| DoctorServiceModel.DoctorService.GetAllDoctor | src/main/java/com/ochwada/healthcare_management/service/DoctorService.java:63-71 | returns every stored doctor |
| DoctorServiceModel.DoctorService.FindDoctorById | src/main/java/com/ochwada/healthcare_management/service/DoctorService.java:73-81 | returns the doctor stored under the id, carrying it, or nothing |
| DoctorServiceModel.DoctorService.UpdateDoctor | src/main/java/com/ochwada/healthcare_management/service/DoctorService.java:83-94 | returns the body with its id forced to the path id, stored under that id; every other id unchanged |
| DoctorServiceModel.DoctorService.DeleteDoctor | src/main/java/com/ochwada/healthcare_management/service/DoctorService.java:96-105 | removes that id only |
| DoctorServiceModel.DoctorService.GetDoctorsBySpeciality | src/main/java/com/ochwada/healthcare_management/service/DoctorService.java:117-129 | returns the exact speciality filter of the stored doctors |
| DoctorServiceModel.DoctorService.GetDoctorWithExperienceMoreThan | src/main/java/com/ochwada/healthcare_management/service/DoctorService.java:131-142 | returns the strict experience filter of the stored doctors |
| DoctorServiceModel.UpdateStoresInvalidDoctor | src/main/java/com/ochwada/healthcare_management/service/DoctorService.java:91-94 | an update stores a doctor with negative experience as given, though it fails validation |
| DoctorServiceModel.CardiologyScenario | src/main/java/com/ochwada/healthcare_management/service/DoctorService.java:59-141 | a cardiologist with 5 years added to an empty store is the only result for "Cardiology" and is not returned for more than 10 years |
| AppointmentServiceModel.AppointmentService.AddAppointment | src/main/java/com/ochwada/healthcare_management/service/AppointmentService.java:52-61 | inserts the appointment as given, as `Inserted` describes, and never changes a stored appointment |
| AppointmentServiceModel.AppointmentService.GetAllAppointmentsForPatient | src/main/java/com/ochwada/healthcare_management/service/AppointmentService.java:63-72 | returns the appointments with exactly that patient id |
| AppointmentServiceModel.AppointmentService.GetAllAppointmentsForDoctor | src/main/java/com/ochwada/healthcare_management/service/AppointmentService.java:74-83 | returns the appointments with exactly that doctor id |
| AppointmentServiceModel.AppointmentService.GetAppointmentByStatus | src/main/java/com/ochwada/healthcare_management/service/AppointmentService.java:95-104 | returns the appointments with exactly that status |
| AppointmentServiceModel.AppointmentService.GetAppointmentBetweenDates | src/main/java/com/ochwada/healthcare_management/service/AppointmentService.java:105-116 | returns the appointments dated within the range, both ends included |
| AppointmentServiceModel.InsertChecksNoReferences | src/main/java/com/ochwada/healthcare_management/service/AppointmentService.java:59-61 | inserting an appointment without an id succeeds whatever patient and doctor ids it names, and it is then listed under them |
| MedicalRecordServiceModel.MedicalRecordService.AddMedicalRecordRepository | src/main/java/com/ochwada/healthcare_management/service/MedicalRecordService.java:46-55 | inserts the record as given; a record whose id is stored is refused and nothing changes |
| MedicalRecordServiceModel.MedicalRecordService.GetAllMedicalRecordRepositoryForPatient | src/main/java/com/ochwada/healthcare_management/service/MedicalRecordService.java:57-65 | returns every stored record, not filtered by patient |

## Left out

- The controllers and the HTTP layer are not part of this model. The one fact used from them is that `@Valid` is applied on create and not on update.
- `MedicalRecordController` calls service methods that do not exist. It is not part of this model.
- Application bootstrap, `.env` loading and console output are I/O and are not modelled.
- MongoDB internals are not modelled: ObjectId format and generation, persistence, indexes, and last-write-wins under concurrent requests. Every operation is one atomic step on a map.
- The order of a returned `List` is not modelled; results are sets.
- The Java objects themselves are not modelled. `setId` and `insert` set the id of the caller's object in place. The model returns a new value, so aliasing is not captured.
- How MongoDB executes `findAppointmentsBetweenDates` is not visible, because its name is not a conventional derived query. AppointmentRepository.BetweenDates follows the inclusive bounds its doc comments state.
- `findDoctorsBySpeciality`, `findDoctorsExperienceGreaterThan`, `findByPatientId` and `findByDoctorId` are declared in no repository. They are modelled from the service doc comments.
- A null argument to a query (for example a null gender or patient id) is not modelled; query arguments are non-null.
- Case mapping and `trim()` are modelled over ASCII and U+0000..U+0020 only. Locale-dependent and non-ASCII case mapping is left out.
- GenderModel.FromString, StatusModel.FromString: upper-casing covers ASCII letters only, so an input Java accepts through non-ASCII case mapping is refused here. For example, Java reads "otherſ" as OTHERS, because U+017F upper-cases to 'S'; GenderModel.FromStringRejects and StatusModel.FromStringRejects hold for the ASCII model only.
- Hibernate Validator's `@Email` pattern is not modelled. It is the `EmailChecker` parameter, which applies to non-empty strings.
- Jackson's use of `@JsonCreator` and `@JsonValue` is not modelled. Only the two methods themselves are.
- The system clock is not read; `today` is a parameter.
