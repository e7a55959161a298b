/** The `Gender` enum of a patient and its JSON codec: `fromString` reads a
    constant case-insensitively, `toValue` writes its lower-case name. */
module GenderModel {
  import opened Common
  import opened JavaText

  datatype Gender = FEMALE | MALE | OTHERS

  /** `Enum.name()`: the constant's identifier. */
  function Name(g: Gender): (name: string) {
    match g
    case FEMALE => "FEMALE"
    case MALE => "MALE"
    case OTHERS => "OTHERS"
  }

  /** `Gender.valueOf(name)`: the constant spelled exactly `name`, if any. */
  function ValueOf(name: string): (r: Option<Gender>)
    ensures r.Some? ==> Name(r.value) == name
    ensures r.None? ==> forall g: Gender :: Name(g) != name
  {
    if name == "FEMALE" then Some(FEMALE)
    else if name == "MALE" then Some(MALE)
    else if name == "OTHERS" then Some(OTHERS)
    else None
  }

  /** `Gender.fromString(input)`: trims and upper-cases the input and looks
      the result up; a token naming no constant is reported with the
      original input, and a null input is dereferenced. */
  function FromString(input: Option<string>): (r: Result<Gender, JavaException>)
    ensures input.None? ==> r == Failure(NullPointerException)
    ensures input.Some? && r.Success? ==> Name(r.value) == ToUpperCase(Trim(input.value))
    ensures input.Some? && r.Failure? ==> r.error == IllegalArgumentException("Invalid gender: " + input.value)
  {
    match input
    case None => Failure(NullPointerException)
    case Some(s) =>
      match ValueOf(ToUpperCase(Trim(s)))
      case Some(g) => Success(g)
      case None => Failure(IllegalArgumentException("Invalid gender: " + s))
  }

  /** A non-null input reads as `g` exactly when its trimmed, upper-cased
      form is the name of `g`. */
  lemma FromStringAccepts(s: string, g: Gender)
    ensures FromString(Some(s)) == Success(g) <==> ToUpperCase(Trim(s)) == Name(g)
  {
  }

  /** A null input is dereferenced: it raises a null-pointer exception,
      not the "Invalid gender" error. */
  lemma NullInputNotTranslated()
    ensures FromString(None) == Failure(NullPointerException)
    ensures forall m :: FromString(None) != Failure(IllegalArgumentException(m))
  {
  }

  /** A non-null input fails exactly when its trimmed, upper-cased form
      names no constant, and the failure quotes the original input. */
  lemma FromStringRejects(s: string)
    ensures FromString(Some(s)).Failure? <==> forall g: Gender :: Name(g) != ToUpperCase(Trim(s))
    ensures FromString(Some(s)).Failure? ==>
      FromString(Some(s)).error == IllegalArgumentException("Invalid gender: " + s)
  {
    if FromString(Some(s)).Success? {
      FromStringAccepts(s, FromString(Some(s)).value);
    }
  }

  /** `Gender.toValue()`: the constant's name in lower case. */
  function ToValue(g: Gender): (r: string)
    ensures ToUpperCase(r) == Name(g)
  {
    UpperOfLower(Name(g));
    NameIsUpperCase(g);
    ToLowerCase(Name(g))
  }

  /** The three constants serialise to "female", "male" and "others". */
  lemma ToValueSpellings()
    ensures ToValue(FEMALE) == "female"
    ensures ToValue(MALE) == "male"
    ensures ToValue(OTHERS) == "others"
  {
    LowerCaseIs("FEMALE", "female");
    LowerCaseIs("MALE", "male");
    LowerCaseIs("OTHERS", "others");
  }

  /** Distinct constants serialise to distinct strings. */
  lemma ToValueInjective(g1: Gender, g2: Gender)
    ensures ToValue(g1) == ToValue(g2) ==> g1 == g2
  {
    ToValueSpellings();
  }

  /** A constant's name is already in upper case. */
  lemma NameIsUpperCase(g: Gender)
    ensures ToUpperCase(Name(g)) == Name(g)
  {
    UpperCaseIs(Name(g), Name(g));
  }

  /** `valueOf` finds every constant under its own name. */
  lemma ValueOfName(g: Gender)
    ensures ValueOf(Name(g)) == Some(g)
  {
  }

  /** A constant's name, in any case, reads back as that constant. */
  lemma {:induction false} NameReads(g: Gender, s: string)
    requires ToUpperCase(s) == Name(g)
    ensures FromString(Some(s)) == Success(g)
  {
    var n := Name(g);
    ToUpperCaseAt(s);
    assert !IsTrimmable(n[0]) && !IsTrimmable(n[|n| - 1]);
    assert UpperChar(s[0]) == n[0] && UpperChar(s[|s| - 1]) == n[|n| - 1];
    TrimmedAlready(s);
    ValueOfName(g);
  }

  /** Serialising a constant and reading it back gives the same constant. */
  lemma RoundTrip(g: Gender)
    ensures FromString(Some(ToValue(g))) == Success(g)
  {
    UpperOfLower(Name(g));
    NameIsUpperCase(g);
    NameReads(g, ToValue(g));
  }

  /** Whatever spelling was accepted, writing the constant back gives the
      lower-case form of the trimmed input. */
  lemma ParsedValueIsNormalisedInput(s: string)
    requires FromString(Some(s)).Success?
    ensures ToValue(FromString(Some(s)).value) == ToLowerCase(Trim(s))
  {
    LowerOfUpper(Trim(s));
  }

  /** Surrounding white space never changes which constant is read. */
  lemma PaddingIgnored(w1: string, s: string, w2: string)
    requires AllTrimmable(w1) && AllTrimmable(w2)
    ensures FromString(Some(w1 + s + w2)).Success? == FromString(Some(s)).Success?
    ensures FromString(Some(s)).Success? ==>
      FromString(Some(w1 + s + w2)).value == FromString(Some(s)).value
  {
    PaddingIsTrimmed(w1, s, w2);
  }

  /** "male", "MALE", "Male" and " male " all read as MALE. */
  lemma MaleSpellings()
    ensures FromString(Some("male")) == Success(MALE)
    ensures FromString(Some("MALE")) == Success(MALE)
    ensures FromString(Some("Male")) == Success(MALE)
    ensures FromString(Some(" male ")) == Success(MALE)
  {
    ReadsLowerCase();
    ReadsUpperCase();
    ReadsCapitalised();
    ReadsPadded();
  }

  lemma ReadsLowerCase()
    ensures FromString(Some("male")) == Success(MALE)
  {
    ToValueSpellings();
    RoundTrip(MALE);
  }

  lemma ReadsUpperCase()
    ensures FromString(Some("MALE")) == Success(MALE)
  {
    NameIsUpperCase(MALE);
    NameReads(MALE, "MALE");
  }

  lemma ReadsCapitalised()
    ensures FromString(Some("Male")) == Success(MALE)
  {
    UpperCaseIs("Male", "MALE");
    NameReads(MALE, "Male");
  }

  lemma ReadsPadded()
    ensures FromString(Some(" male ")) == Success(MALE)
  {
    ReadsLowerCase();
    PaddingIgnored(" ", "male", " ");
    assert " " + "male" + " " == " male ";
  }

  /** Tokens naming no constant are rejected, quoting the input. */
  lemma UnknownTokensRejected()
    ensures FromString(Some("bogus")) == Failure(IllegalArgumentException("Invalid gender: " + "bogus"))
    ensures FromString(Some("fe male")) == Failure(IllegalArgumentException("Invalid gender: " + "fe male"))
  {
    TrimmedAlready("bogus");
    UpperCaseIs("bogus", "BOGUS");
    TrimmedAlready("fe male");
    UpperCaseIs("fe male", "FE MALE");
  }
}
