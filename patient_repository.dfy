/** The derived queries `PatientRepository` declares, as filters over the
    patient collection. */
module PatientRepository {
  import opened Common
  import opened GenderModel
  import opened PatientModel

  /** `findPatientsByAgeGreaterThan(age)`: the stored patients older than
      `age`. */
  function AgeGreaterThan(m: map<string, Patient>, age: Int32): (r: set<Patient>)
    ensures r <= m.Values
    ensures forall p :: p in r ==> p.fields.age > age
    ensures forall p :: p in m.Values && p.fields.age > age ==> p in r
  {
    set p | p in m.Values && p.fields.age > age
  }

  /** `findPatientsByGender(gender)`: the stored patients of that gender. */
  function ByGender(m: map<string, Patient>, gender: Gender): (r: set<Patient>)
    ensures r <= m.Values
    ensures forall p :: p in r ==> p.fields.gender == Some(gender)
    ensures forall p :: p in m.Values && p.fields.gender == Some(gender) ==> p in r
  {
    set p | p in m.Values && p.fields.gender == Some(gender)
  }

  /** The age bound is strict: a stored patient aged exactly `n` is left
      out, one aged `n + 1` is returned. */
  lemma AgeBoundIsStrict(m: map<string, Patient>, n: Int32, p: Patient)
    requires p in m.Values
    ensures p.fields.age == n ==> p !in AgeGreaterThan(m, n)
    ensures p.fields.age as int == n as int + 1 ==> p in AgeGreaterThan(m, n)
  {
  }

  /** Raising the bound never adds a patient to the result. */
  lemma AgeGreaterThanAntitone(m: map<string, Patient>, lo: Int32, hi: Int32)
    requires lo <= hi
    ensures AgeGreaterThan(m, hi) <= AgeGreaterThan(m, lo)
  {
  }

  /** The stored patients whose gender is set. */
  function WithGender(m: map<string, Patient>): (r: set<Patient>) {
    set p | p in m.Values && p.fields.gender.Some?
  }

  /** The three gender queries are pairwise disjoint and together return
      every stored patient whose gender is set. */
  lemma GendersPartition(m: map<string, Patient>)
    ensures ByGender(m, FEMALE) !! ByGender(m, MALE)
    ensures ByGender(m, FEMALE) !! ByGender(m, OTHERS)
    ensures ByGender(m, MALE) !! ByGender(m, OTHERS)
    ensures ByGender(m, FEMALE) + ByGender(m, MALE) + ByGender(m, OTHERS) == WithGender(m)
  {
    forall p | p in WithGender(m)
      ensures p in ByGender(m, FEMALE) + ByGender(m, MALE) + ByGender(m, OTHERS)
    {
      match p.fields.gender.value
      case FEMALE => assert p in ByGender(m, FEMALE);
      case MALE => assert p in ByGender(m, MALE);
      case OTHERS => assert p in ByGender(m, OTHERS);
    }
  }

  /** When every stored patient passed validation, the gender queries
      together return the whole collection. */
  lemma GendersCoverValidStore(m: map<string, Patient>, isEmail: Constraints.EmailChecker)
    requires forall p :: p in m.Values ==> Valid(p, isEmail)
    ensures ByGender(m, FEMALE) + ByGender(m, MALE) + ByGender(m, OTHERS) == m.Values
  {
    GendersPartition(m);
    forall p | p in m.Values
      ensures p.fields.gender.Some?
    {
      ValidIff(p, isEmail);
    }
  }
}
