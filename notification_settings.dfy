/**
  * The notification-settings page: three categories of on/off flags, the
  * single-flag and master toggles, and the merge of the server's settings
  * into the form on load and on reset.
  */
module NotificationSettings {
  import opened Wrappers

  /** The flags of one category by name; a missing flag reads as off (`undefined` is falsy). */
  type Flags = map<string, bool>

  function Flag(f: Flags, name: string): bool {
    name in f && f[name]
  }

  datatype Category = Email | Sms | Push

  /** The form: one record of flags per category. */
  datatype Settings = Settings(email: Flags, sms: Flags, push: Flags) {
    function Get(c: Category): Flags {
      match c
      case Email => email
      case Sms => sms
      case Push => push
    }

    function Set(c: Category, f: Flags): (r: Settings)
      ensures r.Get(c) == f
      ensures forall d :: d != c ==> r.Get(d) == Get(d)
    {
      match c
      case Email => this.(email := f)
      case Sms => this.(sms := f)
      case Push => this.(push := f)
    }
  }

  /** The form before anything is loaded. */
  const Defaults := Settings(
    map["enabled" := true, "courses" := true, "attendance" := true, "results" := true, "library" := true, "announcements" := true],
    map["enabled" := false, "attendance" := false, "results" := false, "library" := false, "important" := true],
    map["enabled" := true, "courses" := true, "attendance" := true, "results" := true, "library" := true, "announcements" := true])

  // ---------------------------------------------------------------------------
  // handleToggle, handleMasterToggle

  /**
    * `handleToggle(category, field)`: that flag becomes the negation of what
    * it read; every other flag of every category is unchanged.
    */
  function Toggle(s: Settings, c: Category, field: string): (r: Settings)
    ensures Flag(r.Get(c), field) == !Flag(s.Get(c), field)
    ensures r.Get(c).Keys == s.Get(c).Keys + {field}
    ensures forall g :: g in s.Get(c) && g != field ==> g in r.Get(c) && r.Get(c)[g] == s.Get(c)[g]
    ensures forall d :: d != c ==> r.Get(d) == s.Get(d)
  {
    s.Set(c, s.Get(c)[field := !Flag(s.Get(c), field)])
  }

  /** Toggling a flag that is present twice restores the settings exactly. */
  lemma ToggleTwiceRestores(s: Settings, c: Category, field: string)
    requires field in s.Get(c)
    ensures Toggle(Toggle(s, c, field), c, field) == s
  {
    var r := Toggle(Toggle(s, c, field), c, field);
    assert r.Get(c) == s.Get(c);
    assert forall d :: r.Get(d) == s.Get(d);
  }

  /** A flag that was missing reads the same after two toggles, but is now stored as off. */
  lemma ToggleTwiceOnMissingFlag(s: Settings, c: Category, field: string)
    requires field !in s.Get(c)
    ensures var r := Toggle(Toggle(s, c, field), c, field);
      r != s && r.Get(c) == s.Get(c)[field := false]
      && forall d, g :: Flag(r.Get(d), g) == Flag(s.Get(d), g)
  {
    var r := Toggle(Toggle(s, c, field), c, field);
    assert field in r.Get(c);
    assert r.Get(c) != s.Get(c);
  }

  /**
    * `handleMasterToggle(category)`: the category's `enabled` flag is negated
    * and its other flags are left as they were, so turning a category off
    * does not clear its choices.
    */
  function MasterToggle(s: Settings, c: Category): (r: Settings)
    ensures Flag(r.Get(c), "enabled") == !Flag(s.Get(c), "enabled")
    ensures forall g :: g in s.Get(c) && g != "enabled" ==> g in r.Get(c) && r.Get(c)[g] == s.Get(c)[g]
    ensures forall d :: d != c ==> r.Get(d) == s.Get(d)
  {
    var newValue := !Flag(s.Get(c), "enabled");
    s.Set(c, s.Get(c)["enabled" := newValue])
  }

  /** The master switch is the single-flag toggle on `enabled`. */
  lemma MasterIsToggleOfEnabled(s: Settings, c: Category)
    ensures MasterToggle(s, c) == Toggle(s, c, "enabled")
  {
  }

  // ---------------------------------------------------------------------------
  // Loading and reset

  /** The server's key for each category. */
  function KeyOf(c: Category): string {
    match c
    case Email => "emailNotifications"
    case Sms => "smsNotifications"
    case Push => "pushNotifications"
  }

  /**
    * `settings.<key> || formData.<key>` for each category: the server's
    * record where it has one, the current form's otherwise.
    */
  function Merge(form: Settings, data: map<string, Flags>): (r: Settings)
    ensures forall c :: KeyOf(c) in data ==> r.Get(c) == data[KeyOf(c)]
    ensures forall c :: KeyOf(c) !in data ==> r.Get(c) == form.Get(c)
  {
    Settings(
      if KeyOf(Email) in data then data[KeyOf(Email)] else form.email,
      if KeyOf(Sms) in data then data[KeyOf(Sms)] else form.sms,
      if KeyOf(Push) in data then data[KeyOf(Push)] else form.push)
  }

  /** The page: the settings last loaded (absent before loading), and the form. */
  datatype Page = Page(loaded: Option<map<string, Flags>>, form: Settings, error: Option<string>)

  /** The page before loading: nothing loaded, the default form. */
  const Initial := Page(None, Defaults, None)

  /**
    * `fetchSettings` with the server's object `data`: it is remembered, and
    * merged into the form only when it has at least one key.
    */
  function Load(p: Page, data: map<string, Flags>): (r: Page)
    ensures r.loaded == Some(data) && r.error.None?
    ensures |data.Keys| == 0 ==> r.form == p.form
    ensures |data.Keys| > 0 ==> r.form == Merge(p.form, data)
  {
    Page(Some(data), if |data.Keys| > 0 then Merge(p.form, data) else p.form, None)
  }

  /** `handleReset`: merge the loaded settings into the form again, if there are any; clear the error. */
  function Reset(p: Page): (r: Page)
    ensures r.loaded == p.loaded && r.error.None?
    ensures p.loaded.Some? ==> r.form == Merge(p.form, p.loaded.value)
    ensures p.loaded.None? ==> r.form == p.form
  {
    if p.loaded.Some? then p.(form := Merge(p.form, p.loaded.value), error := None)
    else p.(error := None)
  }

  /** Merging with no keys changes nothing, so the load's key-count test and reset agree. */
  lemma MergeEmpty(form: Settings)
    ensures Merge(form, map[]) == form
  {
  }

  /** Merging the same data twice is merging it once. */
  lemma MergeIdempotent(form: Settings, data: map<string, Flags>)
    ensures Merge(Merge(form, data), data) == Merge(form, data)
  {
  }

  /**
    * After any toggles, reset puts back every category the server sent; a
    * category the server did not send keeps its edits.
    */
  lemma ResetAfterEdits(p: Page, data: map<string, Flags>, edited: Settings)
    ensures
      var r := Reset(Load(p, data).(form := edited));
      (forall c :: KeyOf(c) in data ==> r.form.Get(c) == data[KeyOf(c)])
      && (forall c :: KeyOf(c) !in data ==> r.form.Get(c) == edited.Get(c))
  {
  }

  /** Before anything is loaded, reset keeps the form and only clears the error. */
  lemma ResetBeforeLoad(form: Settings, error: Option<string>)
    ensures Reset(Page(None, form, error)) == Page(None, form, None)
  {
  }
}
