/** The senior record as the services use it: personal data copied from the
    registration form, an optional photo file name, the current risk state and
    the doll assigned to the senior. */
module Seniors {
  import opened Domain
  import opened SeniorRequests

  datatype Address = Address(
    address: Option<string>,
    detail: Option<string>,
    gu: Option<string>,
    dong: Option<string>,
    latitude: Option<real>,
    longitude: Option<real>)

  datatype Guardian = Guardian(
    guardianName: Option<string>,
    guardianPhone: Option<string>,
    relationship: Option<string>,
    guardianNote: Option<string>)

  datatype MedicalInfo = MedicalInfo(
    diseases: Option<string>,
    medications: Option<string>,
    note: Option<string>)

  /** The personal part of a senior, written by registration and by every edit. */
  datatype Profile = Profile(
    name: Option<string>,
    birthDate: Option<int>,
    sex: Option<string>,
    residence: Option<string>,
    phone: Option<string>,
    address: Address,
    note: Option<string>,
    guardian: Guardian,
    medicalInfo: MedicalInfo)

  datatype Senior = Senior(
    id: int,
    profile: Profile,
    photo: Option<string>,
    state: Risk,
    dollId: string)

  /** The state of a newly registered senior. Senior is not part of this model;
      registration is assumed to start every senior as POSITIVE. */
  const InitialState: Risk := POSITIVE

  /** dtoToAddress, dtoToGuardian, dtoToMedicalInfo and dtoToSenior (without
      the photo): the profile built from a form. */
  function ProfileOf(d: SeniorRequest): Profile {
    Profile(
      d.name, d.birthDate, d.sex, d.residence, d.phone,
      Address(d.address, d.addressDetail, d.gu, d.dong, d.latitude, d.longitude),
      d.note,
      Guardian(d.guardianName, d.guardianPhone, d.relationship, d.guardianNote),
      MedicalInfo(d.diseases, d.medications, d.diseaseNote))
  }

  /** The form a profile and a doll id were built from. */
  function RequestOf(p: Profile, dollId: Option<string>): SeniorRequest {
    SeniorRequest(
      dollId, p.name, p.birthDate, p.sex, p.residence, p.phone,
      p.address.address, p.address.detail, p.address.gu, p.address.dong,
      p.address.latitude, p.address.longitude, p.note,
      p.guardian.guardianName, p.guardian.guardianPhone, p.guardian.relationship,
      p.guardian.guardianNote, p.medicalInfo.diseases, p.medicalInfo.medications,
      p.medicalInfo.note)
  }

  /** The builders lose nothing: every form field except the doll id is stored
      in the profile, and the form can be read back from it. */
  lemma ProfileOfRoundTrip(d: SeniorRequest)
    ensures RequestOf(ProfileOf(d), d.dollId) == d
  {
  }

  /** Two forms that differ outside the doll id give different profiles. */
  lemma ProfileOfInjective(d1: SeniorRequest, d2: SeniorRequest)
    requires d1.dollId == d2.dollId && ProfileOf(d1) == ProfileOf(d2)
    ensures d1 == d2
  {
    ProfileOfRoundTrip(d1);
    ProfileOfRoundTrip(d2);
  }
}
