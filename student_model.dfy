/**
  * The Student schema's checks on a new document: the identifier, e-mail
  * and contact patterns, the required fields, and the status and gender
  * enums with their defaults.
  */
module StudentModel {
  import opened Wrappers
  import opened Text
  import opened Patterns

  datatype Status = Active | Inactive | Suspended
  datatype Gender = Male | Female | Other

  /** The enum value a string names, if any. */
  function ParseStatus(s: string): (r: Option<Status>)
    ensures r.Some? <==> s in {"active", "inactive", "suspended"}
    ensures r == Some(Active) <==> s == "active"
  {
    if s == "active" then Some(Active)
    else if s == "inactive" then Some(Inactive)
    else if s == "suspended" then Some(Suspended)
    else None
  }

  function ParseGender(s: string): (r: Option<Gender>)
    ensures r.Some? <==> s in {"male", "female", "other"}
    ensures r == Some(Other) <==> s == "other"
  {
    if s == "male" then Some(Male)
    else if s == "female" then Some(Female)
    else if s == "other" then Some(Other)
    else None
  }

  /** The fields a new student is built from; a missing one is `None`. */
  datatype StudentInput = StudentInput(
    studentID: Option<string>,
    name: Option<string>,
    email: Option<string>,
    password: Option<string>,
    contact: Option<string>,
    status: Option<string>,
    gender: Option<string>)

  datatype Student = Student(
    studentID: string,
    name: string,
    email: string,
    password: string,
    contact: string,
    status: Status,
    gender: Gender)

  /** `required` on a string: present and not empty. */
  predicate Given(v: Option<string>) {
    v.Some? && v.value != ""
  }

  /** An enum field: absent, or one of the values. */
  predicate StatusOk(v: Option<string>) {
    v.None? || ParseStatus(v.value).Some?
  }

  predicate GenderOk(v: Option<string>) {
    v.None? || ParseGender(v.value).Some?
  }

  predicate StudentInputOk(input: StudentInput) {
    && Given(input.studentID) && StudentIdOk(input.studentID.value)
    && Given(input.name)
    && Given(input.email) && EmailOk(input.email.value)
    && Given(input.password)
    && Given(input.contact) && PhoneOk(input.contact.value, 10, 15)
    && StatusOk(input.status)
    && GenderOk(input.gender)
  }

  /**
    * Building and validating a student document: `None` when any constraint
    * fails; otherwise the document, with status "active" and gender "other"
    * when those are absent.
    */
  function NewStudent(input: StudentInput): (r: Option<Student>)
    ensures r.Some? <==> StudentInputOk(input)
    ensures r.Some? ==> r.value.studentID == input.studentID.value && r.value.email == input.email.value
    ensures r.Some? ==> r.value.name == input.name.value && r.value.password == input.password.value
    ensures r.Some? ==> r.value.contact == input.contact.value
    ensures r.Some? ==> r.value.status == (if input.status.None? then Active else ParseStatus(input.status.value).value)
    ensures r.Some? ==> r.value.gender == (if input.gender.None? then Other else ParseGender(input.gender.value).value)
  {
    if !StudentInputOk(input) then None
    else
      var status := if input.status.None? then Active else ParseStatus(input.status.value).value;
      var gender := if input.gender.None? then Other else ParseGender(input.gender.value).value;
      Some(Student(input.studentID.value, input.name.value, input.email.value, input.password.value,
        input.contact.value, status, gender))
  }

  /** Every stored identifier is "S" and seven to nine capitals or digits. */
  lemma StudentIdShape(input: StudentInput)
    requires NewStudent(input).Some?
    ensures var id := NewStudent(input).value.studentID;
      8 <= |id| <= 10 && id[0] == 'S' && forall i :: 1 <= i < |id| ==> IsUpper(id[i]) || IsDigit(id[i])
  {
    var id := NewStudent(input).value.studentID;
    forall i | 1 <= i < |id|
      ensures IsUpper(id[i]) || IsDigit(id[i])
    {
      assert id[1..][i - 1] == id[i];
    }
  }

  /** Every stored contact number holds ten to fifteen digits, with at most a leading "+". */
  lemma ContactShape(input: StudentInput)
    requires NewStudent(input).Some?
    ensures var c := NewStudent(input).value.contact;
      && 10 <= |c| <= 16
      && (c[0] == '+' ==> 11 <= |c| <= 16)
      && (c[0] != '+' ==> 10 <= |c| <= 15)
      && forall i :: 0 <= i < |c| && !(i == 0 && c[0] == '+') ==> IsDigit(c[i])
  {
    var c := NewStudent(input).value.contact;
    if c[0] == '+' && !AllDigits(c) {
      forall i | 1 <= i < |c|
        ensures IsDigit(c[i])
      {
        assert c[1..][i - 1] == c[i];
      }
    }
  }

  lemma StudentIdExamples()
    ensures StudentIdOk("S1234ABC") && !StudentIdOk("S123") && !StudentIdOk("T1234ABC")
  {
    assert AllOf("S1234ABC"[1..], IsUpperOrDigit);
  }

  lemma EmailAccepted()
    ensures EmailOk("ann@school.org")
  {
    var e := "ann@school.org";
    assert DomainOk(e[4..]) by {
      var d := e[4..];
      assert d == "school.org";
      assert AllOf(d, NotSpaceOrAt) && d[6] == '.';
    }
    assert AllOf(e[..3], NotSpaceOrAt) by {
      assert e[..3] == "ann";
    }
    assert e[3] == '@';
  }

  lemma EmailRejected()
    ensures !EmailOk("ann@school") && !EmailOk("ann school@x.org")
  {
    var f := "ann@school";
    forall k | 0 < k < |f| && f[k] == '@'
      ensures !DomainOk(f[k + 1..])
    {
      assert k == 3;
      assert f[4..] == "school";
    }
    var g := "ann school@x.org";
    forall k | 0 < k < |g| && g[k] == '@'
      ensures !AllOf(g[..k], NotSpaceOrAt)
    {
      assert k == 10;
      assert g[..k][3] == ' ';
    }
  }

  lemma ContactExamples()
    ensures PhoneOk("+919876543210", 10, 15) && !PhoneOk("98765", 10, 15)
  {
    assert AllDigits("+919876543210"[1..]);
  }
}
