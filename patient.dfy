/** A patient document and the constraints its fields carry. */
module PatientModel {
  import opened Common
  import opened Constraints
  import opened GenderModel

  /** The mapped fields of a patient; `age` is a primitive `int`, so it is
      never null and is 0 when the request leaves it out. */
  datatype PatientData = PatientData(
    name: Option<string>,
    age: Int32,
    gender: Option<Gender>,
    email: Option<string>,
    phoneNumber: Option<string>)

  type Patient = Document<PatientData>

  predicate IsDigit(c: char) {
    '0' <= c <= '9'
  }

  predicate AllDigits(s: string) {
    forall k :: 0 <= k < |s| ==> IsDigit(s[k])
  }

  /** A run of 10 to 15 decimal digits, the `[0-9]{10,15}` of the pattern. */
  predicate IsDigitRun(s: string) {
    10 <= |s| <= 15 && AllDigits(s)
  }

  /** `^\+?[0-9]{10,15}$` matched against the whole string: a digit run,
      or a '+' followed by a digit run. */
  predicate MatchesPhonePattern(s: string)
    ensures MatchesPhonePattern(s) ==> 10 <= |s| <= 16
    ensures MatchesPhonePattern(s) ==> forall k :: 0 < k < |s| ==> IsDigit(s[k])
  {
    IsDigitRun(s) || (|s| > 0 && s[0] == '+' && IsDigitRun(s[1..]))
  }

  /** The pattern read as a concatenation: an optional '+' and then a run
      of 10 to 15 digits, which together must make up the whole string. */
  lemma {:induction false} PhonePatternIsConcatenation(s: string)
    ensures MatchesPhonePattern(s) <==>
      exists sign: string, digits: string ::
        (sign == "" || sign == "+") && IsDigitRun(digits) && s == sign + digits
  {
    if MatchesPhonePattern(s) {
      if IsDigitRun(s) {
        assert s == "" + s;
      } else {
        assert s == "+" + s[1..];
      }
    } else {
      forall sign: string, digits: string | (sign == "" || sign == "+") && IsDigitRun(digits)
        ensures s != sign + digits
      {
        var t := sign + digits;
        if sign == "" {
          assert t == digits;
        } else {
          assert t[0] == '+' && t[1..] == digits;
        }
      }
    }
  }

  /** Ten digits, and '+' with fifteen digits, match; nine or sixteen digits,
      a lone '+', a letter or a space do not. */
  lemma PhonePatternExamples()
    ensures MatchesPhonePattern("0123456789")
    ensures MatchesPhonePattern("+123456789012345")
    ensures !MatchesPhonePattern("012345678")
    ensures !MatchesPhonePattern("0123456789012345")
    ensures !MatchesPhonePattern("+")
    ensures !MatchesPhonePattern("012345678a")
    ensures !MatchesPhonePattern("01234 56789")
  {
    var plus := "+123456789012345";
    assert plus[1..] == "123456789012345";
    var letter := "012345678a";
    assert !IsDigit(letter[9]);
    var space := "01234 56789";
    assert !IsDigit(space[5]);
  }

  /** The violations Hibernate Validator reports for a patient. Each is one
      of the annotation messages; `@NotNull` on the primitive age never
      contributes one. */
  function Violations(p: Patient, isEmail: EmailChecker): (vs: set<Violation>)
    ensures vs <= {
      Violation("name", "Name is required"),
      Violation("age", "Age should be positive"),
      Violation("gender", "Gender is Required"),
      Violation("email", "Email is required"),
      Violation("email", "Email should be valid"),
      Violation("phoneNumber", "Phone number must be 10–15 digits, optional leading +")}
    ensures Violation("name", "Name is required") in vs <==> !NotBlank(p.fields.name)
    ensures Violation("age", "Age should be positive") in vs <==> p.fields.age < 1
    ensures Violation("gender", "Gender is Required") in vs <==> p.fields.gender.None?
    ensures Violation("email", "Email is required") in vs <==> !NotBlank(p.fields.email)
    ensures Violation("email", "Email should be valid") in vs <==>
      p.fields.email.Some? && p.fields.email.value != [] && !isEmail(p.fields.email.value)
    ensures Violation("phoneNumber", "Phone number must be 10–15 digits, optional leading +") in vs <==>
      p.fields.phoneNumber.Some? && !MatchesPhonePattern(p.fields.phoneNumber.value)
  {
    var f := p.fields;
    Check(NotBlank(f.name), "name", "Name is required")
    // `@NotNull` sees the boxed primitive, which is never null.
    + Check(NotNull(Some(f.age)), "age", "Age is required")
    + Check(Min(f.age, 1), "age", "Age should be positive")
    + Check(NotNull(f.gender), "gender", "Gender is Required")
    + Check(NotBlank(f.email), "email", "Email is required")
    + Check(Email(f.email, isEmail), "email", "Email should be valid")
    // `@Pattern` accepts null.
    + Check(f.phoneNumber.None? || MatchesPhonePattern(f.phoneNumber.value),
            "phoneNumber", "Phone number must be 10–15 digits, optional leading +")
  }

  /** A patient passes `@Valid` when no constraint is violated. */
  predicate Valid(p: Patient, isEmail: EmailChecker) {
    Violations(p, isEmail) == {}
  }

  /** A patient is valid exactly when it has a name and an e-mail address
      with a visible character each, an age of at least 1, a gender, an
      address the e-mail check accepts, and a phone number that is absent or
      matches the pattern. */
  lemma ValidIff(p: Patient, isEmail: EmailChecker)
    ensures Valid(p, isEmail) <==>
      && p.fields.name.Some? && HasKeptChar(p.fields.name.value)
      && p.fields.age >= 1
      && p.fields.gender.Some?
      && p.fields.email.Some? && HasKeptChar(p.fields.email.value)
      && isEmail(p.fields.email.value)
      && (p.fields.phoneNumber.Some? ==> MatchesPhonePattern(p.fields.phoneNumber.value))
  {
    NotBlankIff(p.fields.name);
    NotBlankIff(p.fields.email);
    if NotBlank(p.fields.email) {
      EmailOfNotBlank(p.fields.email, isEmail);
    }
  }

  /** An age left out of the request arrives as 0: it is reported as not
      positive, never as missing. */
  lemma MissingAgeRejected(p: Patient, isEmail: EmailChecker)
    requires p.fields.age == 0
    ensures Violation("age", "Age should be positive") in Violations(p, isEmail)
    ensures Violation("age", "Age is required") !in Violations(p, isEmail)
    ensures !Valid(p, isEmail)
  {
  }

  /** The id carries no constraint: validity never depends on it. */
  lemma ValidityIgnoresId(p: Patient, id: Option<string>, isEmail: EmailChecker)
    ensures Violations(p.(id := id), isEmail) == Violations(p, isEmail)
  {
  }
}
