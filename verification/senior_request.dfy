/** Bean-validation constraints of the senior registration form and of the
    manual state-change request. A missing (null) value is `None`. */
module SeniorRequests {
  import opened Domain
  import opened Text

  /** The senior form. Enumerated values (sex, residence, gu, dong) are carried
      by their constant names; dates are day numbers; coordinates are reals. */
  datatype SeniorRequest = SeniorRequest(
    dollId: Option<string>,
    name: Option<string>,
    birthDate: Option<int>,
    sex: Option<string>,
    residence: Option<string>,
    phone: Option<string>,
    address: Option<string>,
    addressDetail: Option<string>,
    gu: Option<string>,
    dong: Option<string>,
    latitude: Option<real>,
    longitude: Option<real>,
    note: Option<string>,
    guardianName: Option<string>,
    guardianPhone: Option<string>,
    relationship: Option<string>,
    guardianNote: Option<string>,
    diseases: Option<string>,
    medications: Option<string>,
    diseaseNote: Option<string>)

  /** @NotBlank: present, and not empty once trimmed. */
  predicate NotBlank(v: Option<string>) {
    v.Some? && Trim(v.value) != []
  }

  predicate IsDigit(c: char) {
    '0' <= c <= '9'
  }

  predicate AllDigits(s: string) {
    forall i :: 0 <= i < |s| ==> IsDigit(s[i])
  }

  /** The string `a-b-c`. */
  function Dashed(a: string, b: string, c: string): string {
    a + "-" + b + "-" + c
  }

  /** The three digit groups allowed by ^\d{2,3}-\d{3,4}-\d{4}$ (\d is ASCII only). */
  predicate PhoneGroups(a: string, b: string, c: string) {
    && AllDigits(a) && 2 <= |a| <= 3
    && AllDigits(b) && 3 <= |b| <= 4
    && AllDigits(c) && |c| == 4
  }

  /** `s` splits as a phone number with a first group of `la` and a second of `lb` digits. */
  predicate PhoneSplit(s: string, la: nat, lb: nat) {
    && |s| == la + lb + 6
    && s[la] == '-' && s[la + 1 + lb] == '-'
    && PhoneGroups(s[..la], s[la + 1..la + 1 + lb], s[la + 2 + lb..])
  }

  /** Matcher.matches() for ^\d{2,3}-\d{3,4}-\d{4}$: one of the four group-length
      combinations splits the whole string. */
  predicate MatchesPhone(s: string) {
    PhoneSplit(s, 2, 3) || PhoneSplit(s, 2, 4) || PhoneSplit(s, 3, 3) || PhoneSplit(s, 3, 4)
  }

  /** The groups of a matching phone number, which rebuild it. */
  function PhoneParts(s: string): (g: (string, string, string))
    requires MatchesPhone(s)
    ensures PhoneGroups(g.0, g.1, g.2) && s == Dashed(g.0, g.1, g.2)
  {
    var (la, lb) :=
      if PhoneSplit(s, 2, 3) then (2, 3) else if PhoneSplit(s, 2, 4) then (2, 4)
      else if PhoneSplit(s, 3, 3) then (3, 3) else (3, 4);
    var g := (s[..la], s[la + 1..la + 1 + lb], s[la + 2 + lb..]);
    assert s == Dashed(g.0, g.1, g.2);
    g
  }

  /** Every number built from valid digit groups matches the pattern, so the
      matcher accepts exactly the language of the regular expression. */
  lemma PhoneComplete(a: string, b: string, c: string)
    requires PhoneGroups(a, b, c)
    ensures MatchesPhone(Dashed(a, b, c))
  {
    var s := Dashed(a, b, c);
    var la, lb := |a|, |b|;
    assert s[..la] == a && s[la + 1..la + 1 + lb] == b && s[la + 2 + lb..] == c;
    assert PhoneSplit(s, la, lb);
  }

  /** A matching phone number has a digit at each end and exactly two dashes. */
  lemma PhoneShape(s: string)
    requires MatchesPhone(s)
    ensures 11 <= |s| <= 13 && IsDigit(s[0]) && IsDigit(s[|s| - 1])
    ensures |set i | 0 <= i < |s| && s[i] == '-'| == 2
  {
    var g := PhoneParts(s);
    var la, lb := |g.0|, |g.1|;
    assert s[la] == '-' && s[la + 1 + lb] == '-';
    assert s[0] == g.0[0];
    assert s[|s| - 1] == g.2[3];
    assert forall i :: 0 <= i < la ==> s[i] == g.0[i];
    assert forall i :: la < i < la + 1 + lb ==> s[i] == g.1[i - la - 1];
    assert forall i :: la + 1 + lb < i < |s| ==> s[i] == g.2[i - la - 2 - lb];
    assert (set i | 0 <= i < |s| && s[i] == '-') == {la, la + 1 + lb};
  }

  /** @Pattern accepts a null value; only a present value must match. */
  predicate PatternOk(v: Option<string>) {
    v.None? || MatchesPhone(v.value)
  }

  const PhoneMessage := "유효한 전화번호 형식이 아닙니다 (예: 010-1234-5678)."

  function RequireNotBlank(field: string, v: Option<string>, message: string): seq<FieldError> {
    if NotBlank(v) then [] else [FieldError(field, message)]
  }

  function RequirePresent<T>(field: string, v: Option<T>, message: string): seq<FieldError> {
    if v.Some? then [] else [FieldError(field, message)]
  }

  function RequirePhone(field: string, v: Option<string>): seq<FieldError> {
    if PatternOk(v) then [] else [FieldError(field, PhoneMessage)]
  }

  /** The two constraints of a phone field: @NotBlank, then @Pattern. */
  function PhoneField(field: string, v: Option<string>, message: string): seq<FieldError> {
    RequireNotBlank(field, v, message) + RequirePhone(field, v)
  }

  /** The constraint violations of a senior form, in field declaration order.
      The @Past check on the birth date depends on the clock and is not part of this. */
  function Violations(d: SeniorRequest): seq<FieldError> {
    RequireNotBlank("dollId", d.dollId, "인형 ID는 필수입니다.")
    + RequireNotBlank("name", d.name, "이름은 필수입니다.")
    + RequirePresent("birthDate", d.birthDate, "생년월일은 필수입니다.")
    + RequirePresent("sex", d.sex, "성별은 필수입니다.")
    + RequirePresent("residence", d.residence, "거주 형태는 필수입니다.")
    + PhoneField("phone", d.phone, "전화번호는 필수입니다.")
    + RequireNotBlank("address", d.address, "주소는 필수입니다.")
    + RequirePresent("gu", d.gu, "구 정보는 필수입니다.")
    + RequirePresent("dong", d.dong, "동 정보는 필수입니다.")
    + RequirePresent("latitude", d.latitude, "위도는 필수입니다.")
    + RequirePresent("longitude", d.longitude, "경도는 필수입니다.")
    + RequireNotBlank("guardianName", d.guardianName, "보호자 이름은 필수입니다.")
    + PhoneField("guardianPhone", d.guardianPhone, "보호자 전화번호는 필수입니다.")
    + RequireNotBlank("relationship", d.relationship, "보호자와의 관계는 필수입니다.")
  }

  /** A form passes validation: every required text is non-blank (so, after
      trimming, non-empty), both phone numbers match the pattern, and every
      required value is present. */
  predicate Valid(d: SeniorRequest) {
    && NotBlank(d.dollId) && NotBlank(d.name) && NotBlank(d.address)
    && NotBlank(d.guardianName) && NotBlank(d.relationship)
    && NotBlank(d.phone) && MatchesPhone(d.phone.value)
    && NotBlank(d.guardianPhone) && MatchesPhone(d.guardianPhone.value)
    && d.birthDate.Some? && d.sex.Some? && d.residence.Some?
    && d.gu.Some? && d.dong.Some? && d.latitude.Some? && d.longitude.Some?
  }

  /** Validation reports no violation exactly when the form is valid. */
  lemma ViolationsEmptyIffValid(d: SeniorRequest)
    ensures Violations(d) == [] <==> Valid(d)
  {
  }

  /** A blank phone number is reported by both of its constraints, the
      @NotBlank message first (in the model; the validator itself fixes no
      order); a missing one only by @NotBlank, since @Pattern accepts null; a
      well-formed one by neither. */
  lemma PhoneFieldErrors(field: string, v: Option<string>, message: string)
    ensures v.None? ==> PhoneField(field, v, message) == [FieldError(field, message)]
    ensures v.Some? && IsBlank(v.value) ==>
      PhoneField(field, v, message) == [FieldError(field, message), FieldError(field, PhoneMessage)]
    ensures v.Some? && MatchesPhone(v.value) ==> PhoneField(field, v, message) == []
  {
    if v.Some? && IsBlank(v.value) {
      TrimEmptyIffBlank(v.value);
      if |v.value| >= 1 {
        assert !IsDigit(v.value[0]);
      }
    }
    if v.Some? && MatchesPhone(v.value) {
      PhoneShape(v.value);
      TrimEmptyIffBlank(v.value);
      assert !IsBlank(v.value) by { assert !IsTrimmable(v.value[0]); }
    }
  }

  /** The optional fields (address detail, notes, diseases, medications) never
      affect validation. */
  lemma OptionalFieldsUnconstrained(d: SeniorRequest, detail: Option<string>, note: Option<string>,
                                    guardianNote: Option<string>, diseases: Option<string>,
                                    medications: Option<string>, diseaseNote: Option<string>)
    ensures Violations(d.(addressDetail := detail, note := note, guardianNote := guardianNote,
                          diseases := diseases, medications := medications, diseaseNote := diseaseNote))
            == Violations(d)
  {
  }

  /** The manual state-change request: an optional analysis id, the new state and a reason. */
  datatype StateChangeRequest = StateChangeRequest(
    overallResultId: Option<int>,
    newState: Option<Risk>,
    reason: Option<string>)

  /** Its violations: @Positive on the id (a null id passes), @NotNull on the
      state and @NotBlank on the reason. */
  function StateChangeViolations(q: StateChangeRequest): (r: seq<FieldError>)
    ensures |r| <= 3
    ensures r == [] <==> StateChangeValid(q)
  {
    if q.reason.Some? then TrimEmptyIffBlank(q.reason.value); StateChangeErrors(q) else StateChangeErrors(q)
  }

  function StateChangeErrors(q: StateChangeRequest): seq<FieldError> {
    (if q.overallResultId.None? || q.overallResultId.value > 0 then []
     else [FieldError("overallResultId", "분석 ID는 양수여야 합니다.")])
    + RequirePresent("newState", q.newState, "변경할 상태는 필수입니다.")
    + RequireNotBlank("reason", q.reason, "상태 변경 사유는 필수입니다.")
  }

  /** What the state-change service may assume of a validated request. */
  predicate StateChangeValid(q: StateChangeRequest) {
    && (q.overallResultId.Some? ==> q.overallResultId.value > 0)
    && q.newState.Some?
    && q.reason.Some? && !IsBlank(q.reason.value)
  }
}
