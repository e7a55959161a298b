/** The Bean Validation constraints the entities carry, as Hibernate Validator
    evaluates them on one field value, and the violation a failed constraint
    reports. */
module Constraints {
  import opened Common
  import opened JavaText

  /** One constraint violation: the field's property path and the `message`
      attribute of the annotation that failed. */
  datatype Violation = Violation(field: string, message: string)

  /** The `@Email` check Hibernate Validator applies to a non-empty string;
      its pattern is not part of this model, so it is a parameter. */
  type EmailChecker = string -> bool

  /** `@NotNull`: the reference is present. */
  predicate NotNull<T>(v: Option<T>) {
    v.Some?
  }

  /** `@NotBlank`: the string is present and `trim()` leaves something. */
  predicate NotBlank(v: Option<string>) {
    v.Some? && !IsBlank(v.value)
  }

  /** `s` holds a character that `trim()` keeps, i.e. one above U+0020. */
  predicate HasKeptChar(s: string) {
    exists k :: 0 <= k < |s| && !IsTrimmable(s[k])
  }

  /** `@NotBlank` holds exactly for a present string with a character above
      U+0020 somewhere in it. */
  lemma NotBlankIff(v: Option<string>)
    ensures NotBlank(v) <==> v.Some? && HasKeptChar(v.value)
  {
    if v.Some? {
      BlankIffAllTrimmable(v.value);
    }
  }

  /** `@Min(bound)` on a primitive `int`. */
  predicate Min(v: Int32, bound: int) {
    v as int >= bound
  }

  /** `@Email`: null and the empty string are accepted, anything else must
      pass the e-mail check. */
  predicate Email(v: Option<string>, isEmail: EmailChecker)
    ensures v.None? || v == Some("") ==> Email(v, isEmail)
  {
    v.None? || v.value == [] || isEmail(v.value)
  }

  /** `@FutureOrPresent` on a `LocalDate`: null is accepted, otherwise the
      date is not before `today`. */
  predicate FutureOrPresent(v: Option<Date>, today: Date)
    ensures v.None? ==> FutureOrPresent(v, today)
  {
    v.None? || v.value >= today
  }

  /** `@PastOrPresent` on a `LocalDate`: null is accepted, otherwise the date
      is not after `today`. */
  predicate PastOrPresent(v: Option<Date>, today: Date)
    ensures v.None? ==> PastOrPresent(v, today)
  {
    v.None? || v.value <= today
  }

  /** The violation reported for `field` when its constraint does not hold. */
  function Check(holds: bool, field: string, message: string): (vs: set<Violation>) {
    if holds then {} else {Violation(field, message)}
  }

  /** A present string that `@NotBlank` accepts is never rejected by `@Email`
      for being empty: the e-mail check alone decides. */
  lemma EmailOfNotBlank(v: Option<string>, isEmail: EmailChecker)
    requires NotBlank(v)
    ensures Email(v, isEmail) <==> isEmail(v.value)
  {
  }
}
