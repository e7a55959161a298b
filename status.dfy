/** The `Status` enum of an appointment and its JSON codec: `fromString`
    reads a constant case-insensitively, `toValue` writes its lower-case name. */
module StatusModel {
  import opened Common
  import opened JavaText

  datatype Status = SCHEDULED | COMPLETED | CANCELLED

  /** `Enum.name()`: the constant's identifier. */
  function Name(st: Status): (name: string) {
    match st
    case SCHEDULED => "SCHEDULED"
    case COMPLETED => "COMPLETED"
    case CANCELLED => "CANCELLED"
  }

  /** `Status.valueOf(name)`: the constant spelled exactly `name`, if any. */
  function ValueOf(name: string): (r: Option<Status>)
    ensures r.Some? ==> Name(r.value) == name
    ensures r.None? ==> forall st: Status :: Name(st) != name
  {
    if name == "SCHEDULED" then Some(SCHEDULED)
    else if name == "COMPLETED" then Some(COMPLETED)
    else if name == "CANCELLED" then Some(CANCELLED)
    else None
  }

  /** `Status.fromString(input)`: trims and upper-cases the input and looks
      the result up; a token naming no constant is reported with the
      original input, and a null input is dereferenced. */
  function FromString(input: Option<string>): (r: Result<Status, JavaException>)
    ensures input.None? ==> r == Failure(NullPointerException)
    ensures input.Some? && r.Success? ==> Name(r.value) == ToUpperCase(Trim(input.value))
    ensures input.Some? && r.Failure? ==> r.error == IllegalArgumentException("Invalid status: " + input.value)
  {
    match input
    case None => Failure(NullPointerException)
    case Some(s) =>
      match ValueOf(ToUpperCase(Trim(s)))
      case Some(st) => Success(st)
      case None => Failure(IllegalArgumentException("Invalid status: " + s))
  }

  /** A non-null input reads as `st` exactly when its trimmed, upper-cased
      form is the name of `st`. */
  lemma FromStringAccepts(s: string, st: Status)
    ensures FromString(Some(s)) == Success(st) <==> ToUpperCase(Trim(s)) == Name(st)
  {
  }

  /** A null input is dereferenced: it raises a null-pointer exception,
      not the "Invalid status" error. */
  lemma NullInputNotTranslated()
    ensures FromString(None) == Failure(NullPointerException)
    ensures forall m :: FromString(None) != Failure(IllegalArgumentException(m))
  {
  }

  /** A non-null input fails exactly when its trimmed, upper-cased form
      names no constant, and the failure quotes the original input. */
  lemma FromStringRejects(s: string)
    ensures FromString(Some(s)).Failure? <==> forall st: Status :: Name(st) != ToUpperCase(Trim(s))
    ensures FromString(Some(s)).Failure? ==>
      FromString(Some(s)).error == IllegalArgumentException("Invalid status: " + s)
  {
    if FromString(Some(s)).Success? {
      FromStringAccepts(s, FromString(Some(s)).value);
    }
  }

  /** `Status.toValue()`: the constant's name in lower case. */
  function ToValue(st: Status): (r: string)
    ensures ToUpperCase(r) == Name(st)
  {
    UpperOfLower(Name(st));
    NameIsUpperCase(st);
    ToLowerCase(Name(st))
  }

  /** The three constants serialise to "scheduled", "completed" and "cancelled". */
  lemma ToValueSpellings()
    ensures ToValue(SCHEDULED) == "scheduled"
    ensures ToValue(COMPLETED) == "completed"
    ensures ToValue(CANCELLED) == "cancelled"
  {
    ScheduledValue();
    CompletedValue();
    CancelledValue();
  }

  lemma ScheduledValue()
    ensures ToValue(SCHEDULED) == "scheduled"
  {
    LowerCaseIs("SCHEDULED", "scheduled");
  }

  lemma CompletedValue()
    ensures ToValue(COMPLETED) == "completed"
  {
    LowerCaseIs("COMPLETED", "completed");
  }

  lemma CancelledValue()
    ensures ToValue(CANCELLED) == "cancelled"
  {
    LowerCaseIs("CANCELLED", "cancelled");
  }

  /** Distinct constants serialise to distinct strings. */
  lemma ToValueInjective(s1: Status, s2: Status)
    ensures ToValue(s1) == ToValue(s2) ==> s1 == s2
  {
    ToValueSpellings();
  }

  /** A constant's name is already in upper case. */
  lemma NameIsUpperCase(st: Status)
    ensures ToUpperCase(Name(st)) == Name(st)
  {
    UpperCaseIs(Name(st), Name(st));
  }

  /** `valueOf` finds every constant under its own name. */
  lemma ValueOfName(st: Status)
    ensures ValueOf(Name(st)) == Some(st)
  {
  }

  /** A constant's name, in any case, reads back as that constant. */
  lemma {:induction false} NameReads(st: Status, s: string)
    requires ToUpperCase(s) == Name(st)
    ensures FromString(Some(s)) == Success(st)
  {
    var n := Name(st);
    ToUpperCaseAt(s);
    assert !IsTrimmable(n[0]) && !IsTrimmable(n[|n| - 1]);
    assert UpperChar(s[0]) == n[0] && UpperChar(s[|s| - 1]) == n[|n| - 1];
    TrimmedAlready(s);
    ValueOfName(st);
  }

  /** Serialising a constant and reading it back gives the same constant. */
  lemma RoundTrip(st: Status)
    ensures FromString(Some(ToValue(st))) == Success(st)
  {
    UpperOfLower(Name(st));
    NameIsUpperCase(st);
    NameReads(st, ToValue(st));
  }

  /** Whatever spelling was accepted, writing the constant back gives the
      lower-case form of the trimmed input. */
  lemma ParsedValueIsNormalisedInput(s: string)
    requires FromString(Some(s)).Success?
    ensures ToValue(FromString(Some(s)).value) == ToLowerCase(Trim(s))
  {
    LowerOfUpper(Trim(s));
  }

  /** Surrounding white space never changes which constant is read. */
  lemma PaddingIgnored(w1: string, s: string, w2: string)
    requires AllTrimmable(w1) && AllTrimmable(w2)
    ensures FromString(Some(w1 + s + w2)).Success? == FromString(Some(s)).Success?
    ensures FromString(Some(s)).Success? ==>
      FromString(Some(w1 + s + w2)).value == FromString(Some(s)).value
  {
    PaddingIsTrimmed(w1, s, w2);
  }

  /** "scheduled", "SCHEDULED", "Scheduled" and " scheduled " all read as SCHEDULED. */
  lemma ScheduledSpellings()
    ensures FromString(Some("scheduled")) == Success(SCHEDULED)
    ensures FromString(Some("SCHEDULED")) == Success(SCHEDULED)
    ensures FromString(Some("Scheduled")) == Success(SCHEDULED)
    ensures FromString(Some(" scheduled ")) == Success(SCHEDULED)
  {
    ReadsLowerCase();
    ReadsUpperCase();
    ReadsCapitalised();
    ReadsPadded();
  }

  lemma ReadsLowerCase()
    ensures FromString(Some("scheduled")) == Success(SCHEDULED)
  {
    ToValueSpellings();
    RoundTrip(SCHEDULED);
  }

  lemma ReadsUpperCase()
    ensures FromString(Some("SCHEDULED")) == Success(SCHEDULED)
  {
    NameIsUpperCase(SCHEDULED);
    NameReads(SCHEDULED, "SCHEDULED");
  }

  lemma ReadsCapitalised()
    ensures FromString(Some("Scheduled")) == Success(SCHEDULED)
  {
    UpperCaseIs("Scheduled", "SCHEDULED");
    NameReads(SCHEDULED, "Scheduled");
  }

  lemma ReadsPadded()
    ensures FromString(Some(" scheduled ")) == Success(SCHEDULED)
  {
    ReadsLowerCase();
    PaddingIgnored(" ", "scheduled", " ");
    assert " " + "scheduled" + " " == " scheduled ";
  }

  /** Tokens naming no constant are rejected, quoting the input. */
  lemma UnknownTokensRejected()
    ensures FromString(Some("bogus")) == Failure(IllegalArgumentException("Invalid status: " + "bogus"))
    ensures FromString(Some("done")) == Failure(IllegalArgumentException("Invalid status: " + "done"))
  {
    TrimmedAlready("bogus");
    UpperCaseIs("bogus", "BOGUS");
    TrimmedAlready("done");
    UpperCaseIs("done", "DONE");
  }
}
