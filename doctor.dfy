/** A doctor document and the constraints its fields carry. */
module DoctorModel {
  import opened Common
  import opened Constraints

  /** The mapped fields of a doctor; `yearsOfExperience` is a primitive
      `int`, 0 when the request leaves it out. The speciality is free text. */
  datatype DoctorData = DoctorData(
    name: Option<string>,
    speciality: Option<string>,
    yearsOfExperience: Int32,
    email: Option<string>)

  type Doctor = Document<DoctorData>

  /** The violations Hibernate Validator reports for a doctor. Each is one
      of the annotation messages; `@NotNull` on the primitive experience
      never contributes one. */
  function Violations(d: Doctor, isEmail: EmailChecker): (vs: set<Violation>)
    ensures vs <= {
      Violation("name", "Name is required"),
      Violation("speciality", "Speciality is required"),
      Violation("yearsOfExperience", "Minimum value is 0"),
      Violation("email", "Invalid email"),
      Violation("email", "Email is required")}
    ensures Violation("name", "Name is required") in vs <==> !NotBlank(d.fields.name)
    ensures Violation("speciality", "Speciality is required") in vs <==> !NotBlank(d.fields.speciality)
    ensures Violation("yearsOfExperience", "Minimum value is 0") in vs <==> d.fields.yearsOfExperience < 0
    ensures Violation("email", "Invalid email") in vs <==>
      d.fields.email.Some? && d.fields.email.value != [] && !isEmail(d.fields.email.value)
    ensures Violation("email", "Email is required") in vs <==> !NotBlank(d.fields.email)
  {
    var f := d.fields;
    Check(NotBlank(f.name), "name", "Name is required")
    + Check(NotBlank(f.speciality), "speciality", "Speciality is required")
    // `@NotNull` sees the boxed primitive, which is never null.
    + Check(NotNull(Some(f.yearsOfExperience)), "yearsOfExperience", "Years of experience needed")
    + Check(Min(f.yearsOfExperience, 0), "yearsOfExperience", "Minimum value is 0")
    + Check(Email(f.email, isEmail), "email", "Invalid email")
    + Check(NotBlank(f.email), "email", "Email is required")
  }

  /** A doctor passes `@Valid` when no constraint is violated. */
  predicate Valid(d: Doctor, isEmail: EmailChecker) {
    Violations(d, isEmail) == {}
  }

  /** A doctor is valid exactly when name, speciality and e-mail address
      each hold a visible character, the years of experience are not
      negative, and the e-mail check accepts the address. */
  lemma ValidIff(d: Doctor, isEmail: EmailChecker)
    ensures Valid(d, isEmail) <==>
      && d.fields.name.Some? && HasKeptChar(d.fields.name.value)
      && d.fields.speciality.Some? && HasKeptChar(d.fields.speciality.value)
      && d.fields.yearsOfExperience >= 0
      && d.fields.email.Some? && HasKeptChar(d.fields.email.value)
      && isEmail(d.fields.email.value)
  {
    NotBlankIff(d.fields.name);
    NotBlankIff(d.fields.speciality);
    NotBlankIff(d.fields.email);
    if NotBlank(d.fields.email) {
      EmailOfNotBlank(d.fields.email, isEmail);
    }
  }

  /** Experience is bounded below only: 0, the value a missing field takes,
      passes, and so does any larger number; a negative number is reported. */
  lemma ExperienceBound(d: Doctor, isEmail: EmailChecker)
    ensures Violation("yearsOfExperience", "Minimum value is 0") in Violations(d, isEmail)
        <==> d.fields.yearsOfExperience < 0
    ensures Violation("yearsOfExperience", "Years of experience needed") !in Violations(d, isEmail)
  {
  }

  /** The id carries no constraint: validity never depends on it. */
  lemma ValidityIgnoresId(d: Doctor, id: Option<string>, isEmail: EmailChecker)
    ensures Violations(d.(id := id), isEmail) == Violations(d, isEmail)
  {
  }
}
