/** The derived queries `DoctorService` calls on its repository, as filters
    over the doctor collection: `findDoctorsBySpeciality` and
    `findDoctorsExperienceGreaterThan`. */
module DoctorRepository {
  import opened Common
  import opened DoctorModel

  /** `findDoctorsBySpeciality(speciality)`: the stored doctors whose
      speciality is exactly that string, letter case included. */
  function BySpeciality(m: map<string, Doctor>, speciality: string): (r: set<Doctor>)
    ensures r <= m.Values
    ensures forall d :: d in r ==> d.fields.speciality == Some(speciality)
    ensures forall d :: d in m.Values && d.fields.speciality == Some(speciality) ==> d in r
  {
    set d | d in m.Values && d.fields.speciality == Some(speciality)
  }

  /** `findDoctorsExperienceGreaterThan(years)`: the stored doctors with
      more than `years` years of experience. */
  function ExperienceGreaterThan(m: map<string, Doctor>, years: Int32): (r: set<Doctor>)
    ensures r <= m.Values
    ensures forall d :: d in r ==> d.fields.yearsOfExperience > years
    ensures forall d :: d in m.Values && d.fields.yearsOfExperience > years ==> d in r
  {
    set d | d in m.Values && d.fields.yearsOfExperience > years
  }

  /** The experience bound is strict: a doctor with exactly `y` years is
      left out, one with `y + 1` years is returned. */
  lemma ExperienceBoundIsStrict(m: map<string, Doctor>, y: Int32, d: Doctor)
    requires d in m.Values
    ensures d.fields.yearsOfExperience == y ==> d !in ExperienceGreaterThan(m, y)
    ensures d.fields.yearsOfExperience as int == y as int + 1 ==> d in ExperienceGreaterThan(m, y)
  {
  }

  /** Different speciality strings select disjoint sets of doctors; in
      particular, spellings that differ only in letter case do. */
  lemma SpecialitiesDisjoint(m: map<string, Doctor>, s1: string, s2: string)
    requires s1 != s2
    ensures BySpeciality(m, s1) !! BySpeciality(m, s2)
  {
  }
}
