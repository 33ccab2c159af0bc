/**
  * The edit-profile page: filling the form from the loaded profile, the
  * checks run before an update is sent, and the reset button.
  */
module EditProfile {
  import opened Wrappers
  import opened Text
  import opened Patterns

  /**
    * A profile as loaded; any field may be missing. `dateOfBirth` is taken
    * as the calendar day the page derives from the stored date.
    */
  datatype Profile = Profile(
    name: Option<string>,
    email: Option<string>,
    phone: Option<string>,
    address: Option<string>,
    dateOfBirth: Option<string>,
    guardianName: Option<string>,
    guardianPhone: Option<string>)

  datatype ProfileForm = ProfileForm(
    name: string,
    email: string,
    phone: string,
    address: string,
    dateOfBirth: string,
    guardianName: string,
    guardianPhone: string)

  /** The page's state: the loaded profile (if any), the form and the error shown. */
  datatype Editor = Editor(profile: Option<Profile>, form: ProfileForm, error: Option<string>)

  /** `field || ""` for each field: a missing field becomes the empty string. */
  function FormOf(p: Profile): (f: ProfileForm)
    ensures f.name == p.name.GetOr("") && f.email == p.email.GetOr("") && f.phone == p.phone.GetOr("")
    ensures f.address == p.address.GetOr("") && f.dateOfBirth == p.dateOfBirth.GetOr("")
    ensures f.guardianName == p.guardianName.GetOr("") && f.guardianPhone == p.guardianPhone.GetOr("")
  {
    ProfileForm(p.name.GetOr(""), p.email.GetOr(""), p.phone.GetOr(""), p.address.GetOr(""),
      p.dateOfBirth.GetOr(""), p.guardianName.GetOr(""), p.guardianPhone.GetOr(""))
  }

  /** A loaded profile is kept and fills the form; the error is cleared. */
  function Load(p: Profile): (e: Editor)
    ensures e.profile == Some(p) && e.form == FormOf(p) && e.error.None?
  {
    Editor(Some(p), FormOf(p), None)
  }

  /** `handleChange`: the form after editing is arbitrary; the page keeps the rest. */
  function Edit(e: Editor, form: ProfileForm): (r: Editor)
    ensures r.profile == e.profile && r.form == form && r.error == e.error
  {
    e.(form := form)
  }

  // ---------------------------------------------------------------------------
  // handleSubmit

  /** A phone field passes when it is empty or exactly ten digits. */
  predicate PhoneFieldOk(phone: string) {
    phone == "" || DigitsOk(phone, 10)
  }

  /**
    * The checks of `handleSubmit`, in order: a name and an e-mail that are
    * not blank, an e-mail that matches the pattern as typed, and phone and
    * guardian phone each empty or ten digits. The first failure's message is
    * returned; `None` means the update is sent.
    */
  function Validate(f: ProfileForm): (r: Option<string>)
    ensures r.None? <==>
      Trim(f.name) != "" && EmailOk(f.email) && PhoneFieldOk(f.phone) && PhoneFieldOk(f.guardianPhone)
    ensures r == Some("Name is required") <==> Trim(f.name) == ""
    ensures r == Some("Email is required") <==> Trim(f.name) != "" && Trim(f.email) == ""
    ensures r == Some("Please enter a valid email address") <==>
      Trim(f.name) != "" && Trim(f.email) != "" && !EmailOk(f.email)
    ensures r == Some("Phone number must be 10 digits") <==>
      Trim(f.name) != "" && EmailOk(f.email) && !PhoneFieldOk(f.phone)
    ensures r == Some("Guardian phone number must be 10 digits") <==>
      Trim(f.name) != "" && EmailOk(f.email) && PhoneFieldOk(f.phone) && !PhoneFieldOk(f.guardianPhone)
  {
    EmailStartsVisible(f.email);
    if Trim(f.name) == "" then Some("Name is required")
    else if Trim(f.email) == "" then Some("Email is required")
    else if !EmailOk(f.email) then Some("Please enter a valid email address")
    else if f.phone != "" && !DigitsOk(f.phone, 10) then Some("Phone number must be 10 digits")
    else if f.guardianPhone != "" && !DigitsOk(f.guardianPhone, 10) then Some("Guardian phone number must be 10 digits")
    else None
  }

  /**
    * An address that matches the e-mail pattern starts with a visible
    * character, so it is never blank and the blank check adds nothing to it.
    */
  lemma EmailStartsVisible(email: string)
    ensures EmailOk(email) ==> email != [] && !IsSpace(email[0]) && Trim(email) != ""
  {
    if EmailOk(email) {
      TrimEmptyIffBlank(email);
      var k :| 0 < k < |email| && email[k] == '@' && AllOf(email[..k], NotSpaceOrAt) && DomainOk(email[k + 1..]);
      assert email[..k][0] == email[0];
    }
  }

  /** The pattern is tested on the address as typed: a leading space is refused, although the blank check trims. */
  lemma SurroundingSpaceRefused(f: ProfileForm)
    requires Trim(f.name) != "" && f.email != [] && IsSpace(f.email[0])
    ensures Trim(f.email) != "" ==> Validate(f) == Some("Please enter a valid email address")
  {
    EmailStartsVisible(f.email);
  }

  /** Submitting: the first failing check sets the error and nothing is sent. */
  function HandleSubmit(e: Editor): (r: (Editor, bool))
    ensures r.1 <==> Validate(e.form).None?
    ensures !r.1 ==> r.0 == e.(error := Validate(e.form))
    ensures r.1 ==> r.0 == e.(error := None)
  {
    var err := Validate(e.form);
    if err.Some? then (e.(error := err), false) else (e.(error := None), true)
  }

  // ---------------------------------------------------------------------------
  // handleReset

  /**
    * `handleReset`: with a loaded profile the form is filled from it again;
    * without one the form is kept. Either way the error is cleared.
    */
  function HandleReset(e: Editor): (r: Editor)
    ensures r.profile == e.profile && r.error.None?
    ensures e.profile.Some? ==> r.form == FormOf(e.profile.value)
    ensures e.profile.None? ==> r.form == e.form
  {
    if e.profile.Some? then Editor(e.profile, FormOf(e.profile.value), None)
    else e.(error := None)
  }

  /** Whatever was edited since, reset returns the form to what loading showed. */
  lemma ResetUndoesEdits(p: Profile, form: ProfileForm)
    ensures HandleReset(Edit(Load(p), form)) == Load(p)
  {
  }

  lemma ResetIdempotent(e: Editor)
    ensures HandleReset(HandleReset(e)) == HandleReset(e)
  {
  }
}
