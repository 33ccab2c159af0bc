/**
  * The change-password page: the password policy and its messages, the
  * strength meter, and the checks the form runs before it sends anything.
  */
module ChangePassword {
  import opened Wrappers
  import opened Text

  /** The characters of the class `[!@#$%^&*(),.?":{}|<>]`. */
  const SpecialChars: set<char> := {
    '!', '@', '#', '$', '%', '^', '&', '*', '(', ')',
    ',', '.', '?', '"', ':', '{', '}', '|', '<', '>'}

  predicate IsSpecial(c: char) {
    c in SpecialChars
  }

  const MinLength: nat := 8

  /** `/[…]/.test(s)`: some character of `s` is in the class. */
  predicate HasSome(s: string, inClass: char -> bool) {
    exists i :: 0 <= i < |s| && inClass(s[i])
  }

  predicate LongEnough(s: string) { |s| >= MinLength }
  predicate HasUpper(s: string) { HasSome(s, IsUpper) }
  predicate HasLower(s: string) { HasSome(s, IsLower) }
  predicate HasDigit(s: string) { HasSome(s, IsDigit) }
  predicate HasSpecial(s: string) { HasSome(s, IsSpecial) }

  /** All five criteria of the policy. */
  predicate MeetsPolicy(s: string) {
    LongEnough(s) && HasUpper(s) && HasLower(s) && HasDigit(s) && HasSpecial(s)
  }

  // ---------------------------------------------------------------------------
  // validatePassword

  const TooShort := "Password must be at least 8 characters long"
  const NoUpper := "Password must contain at least one uppercase letter"
  const NoLower := "Password must contain at least one lowercase letter"
  const NoDigit := "Password must contain at least one number"
  const NoSpecial := "Password must contain at least one special character"

  /**
    * `validatePassword`: the message of the first criterion that fails, in
    * the order length, capital, small letter, digit, special character; and
    * `None` (the source's `null`) when all hold.
    */
  function ValidatePassword(s: string): (r: Option<string>)
    ensures r.None? <==> MeetsPolicy(s)
    ensures r == Some(TooShort) <==> !LongEnough(s)
    ensures r == Some(NoUpper) <==> LongEnough(s) && !HasUpper(s)
    ensures r == Some(NoLower) <==> LongEnough(s) && HasUpper(s) && !HasLower(s)
    ensures r == Some(NoDigit) <==> LongEnough(s) && HasUpper(s) && HasLower(s) && !HasDigit(s)
    ensures r == Some(NoSpecial) <==> LongEnough(s) && HasUpper(s) && HasLower(s) && HasDigit(s) && !HasSpecial(s)
  {
    if !LongEnough(s) then Some(TooShort)
    else if !HasUpper(s) then Some(NoUpper)
    else if !HasLower(s) then Some(NoLower)
    else if !HasDigit(s) then Some(NoDigit)
    else if !HasSpecial(s) then Some(NoSpecial)
    else None
  }

  // ---------------------------------------------------------------------------
  // getPasswordStrength

  function Point(b: bool): nat {
    if b then 1 else 0
  }

  /** The number of the five criteria `s` meets; the empty string scores 0. */
  function Strength(s: string): (n: nat)
    ensures n <= 5
    ensures s == [] ==> n == 0
    ensures n == 5 <==> s != [] && MeetsPolicy(s)
  {
    if s == [] then 0
    else Point(LongEnough(s)) + Point(HasUpper(s)) + Point(HasLower(s)) + Point(HasDigit(s)) + Point(HasSpecial(s))
  }

  /** For a password that is not empty, the policy passes exactly at full strength. */
  lemma PolicyIffFullStrength(s: string)
    requires s != []
    ensures ValidatePassword(s).None? <==> Strength(s) == 5
  {
  }

  /** Lengthening a password by one character never lowers its strength. */
  lemma {:induction false} StrengthGrowsWithAppend(s: string, c: char)
    requires s != []
    ensures Strength(s) <= Strength(s + [c])
  {
    var t := s + [c];
    assert forall i :: 0 <= i < |s| ==> t[i] == s[i];
    assert HasUpper(s) ==> HasUpper(t) by {
      if HasUpper(s) {
        var i :| 0 <= i < |s| && IsUpper(s[i]);
        assert IsUpper(t[i]);
      }
    }
    assert HasLower(s) ==> HasLower(t) by {
      if HasLower(s) {
        var i :| 0 <= i < |s| && IsLower(s[i]);
        assert IsLower(t[i]);
      }
    }
    assert HasDigit(s) ==> HasDigit(t) by {
      if HasDigit(s) {
        var i :| 0 <= i < |s| && IsDigit(s[i]);
        assert IsDigit(t[i]);
      }
    }
    assert HasSpecial(s) ==> HasSpecial(t) by {
      if HasSpecial(s) {
        var i :| 0 <= i < |s| && IsSpecial(s[i]);
        assert IsSpecial(t[i]);
      }
    }
  }

  datatype StrengthLevel = StrengthLevel(strength: nat, caption: string, color: string)

  /** The label and bar colour: Weak up to 2, Fair at 3, Good at 4, Strong at 5; nothing for the empty string. */
  function Level(s: string): (l: StrengthLevel)
    ensures l.strength == Strength(s)
    ensures s == [] ==> l == StrengthLevel(0, "", "")
    ensures s != [] ==> (l.caption == "Weak" <==> l.strength <= 2)
    ensures s != [] ==> (l.caption == "Fair" <==> l.strength == 3)
    ensures s != [] ==> (l.caption == "Good" <==> l.strength == 4)
    ensures s != [] ==> (l.caption == "Strong" <==> l.strength == 5)
  {
    var n := Strength(s);
    if s == [] then StrengthLevel(0, "", "")
    else if n <= 2 then StrengthLevel(n, "Weak", "bg-error-500")
    else if n <= 3 then StrengthLevel(n, "Fair", "bg-warning-500")
    else if n <= 4 then StrengthLevel(n, "Good", "bg-info-500")
    else StrengthLevel(n, "Strong", "bg-success-500")
  }

  /** `/[…]/.test(s)` as a scan from the front. */
  method Test(s: string, inClass: char -> bool) returns (found: bool)
    ensures found <==> HasSome(s, inClass)
  {
    var i := 0;
    while i < |s|
      invariant 0 <= i <= |s|
      invariant forall j :: 0 <= j < i ==> !inClass(s[j])
    {
      if inClass(s[i]) {
        return true;
      }
      i := i + 1;
    }
    return false;
  }

  /** `getPasswordStrength`: one point per criterion met, counted up step by step. */
  method GetPasswordStrength(s: string) returns (l: StrengthLevel)
    ensures l == Level(s)
  {
    if s == [] {
      return StrengthLevel(0, "", "");
    }
    var strength := 0;
    if |s| >= MinLength {
      strength := strength + 1;
    }
    var upper := Test(s, IsUpper);
    if upper {
      strength := strength + 1;
    }
    var lower := Test(s, IsLower);
    if lower {
      strength := strength + 1;
    }
    var digit := Test(s, IsDigit);
    if digit {
      strength := strength + 1;
    }
    var special := Test(s, IsSpecial);
    if special {
      strength := strength + 1;
    }
    if strength <= 2 {
      l := StrengthLevel(strength, "Weak", "bg-error-500");
    } else if strength <= 3 {
      l := StrengthLevel(strength, "Fair", "bg-warning-500");
    } else if strength <= 4 {
      l := StrengthLevel(strength, "Good", "bg-info-500");
    } else {
      l := StrengthLevel(strength, "Strong", "bg-success-500");
    }
  }

  // ---------------------------------------------------------------------------
  // handleSubmit

  datatype PasswordForm = PasswordForm(currentPassword: string, newPassword: string, confirmPassword: string)

  /** What submitting the form does: show an error, or send the two passwords. */
  datatype Submit = Rejected(error: string) | Sent(currentPassword: string, newPassword: string)

  /**
    * `handleSubmit`: the three fields must be filled, in order; then the new
    * password must pass the policy, match the confirmation and differ from
    * the current one. The first failure is shown and nothing is sent.
    */
  function HandleSubmit(f: PasswordForm): (r: Submit)
    ensures r.Sent? <==>
      f.currentPassword != [] && f.confirmPassword != [] && MeetsPolicy(f.newPassword)
      && f.newPassword == f.confirmPassword && f.newPassword != f.currentPassword
    ensures r.Sent? ==> r == Sent(f.currentPassword, f.newPassword)
    ensures r == Rejected("Current password is required") <==> f.currentPassword == []
    ensures r == Rejected("New password is required") <==> f.currentPassword != [] && f.newPassword == []
    ensures r == Rejected("Please confirm your new password") <==>
      f.currentPassword != [] && f.newPassword != [] && f.confirmPassword == []
    ensures r == Rejected("New password and confirm password do not match") <==>
      f.currentPassword != [] && f.confirmPassword != [] && MeetsPolicy(f.newPassword)
      && f.newPassword != f.confirmPassword
    ensures r == Rejected("New password must be different from current password") <==>
      f.currentPassword != [] && f.confirmPassword != [] && MeetsPolicy(f.newPassword)
      && f.newPassword == f.confirmPassword && f.newPassword == f.currentPassword
    ensures f.currentPassword != [] && f.newPassword != [] && f.confirmPassword != [] && !MeetsPolicy(f.newPassword) ==>
      r == Rejected(ValidatePassword(f.newPassword).value)
  {
    if f.currentPassword == [] then Rejected("Current password is required")
    else if f.newPassword == [] then Rejected("New password is required")
    else if f.confirmPassword == [] then Rejected("Please confirm your new password")
    else if ValidatePassword(f.newPassword).Some? then Rejected(ValidatePassword(f.newPassword).value)
    else if f.newPassword != f.confirmPassword then Rejected("New password and confirm password do not match")
    else if f.currentPassword == f.newPassword then Rejected("New password must be different from current password")
    else Sent(f.currentPassword, f.newPassword)
  }

  /** Whatever is sent shows the strong level on the meter. */
  lemma SentPasswordIsStrong(f: PasswordForm)
    requires HandleSubmit(f).Sent?
    ensures Level(f.newPassword).caption == "Strong"
  {
  }

  /** A confirmation that differs is reported only once the password itself passes the policy. */
  lemma MismatchReportedAfterPolicy(f: PasswordForm)
    requires f.currentPassword != [] && f.newPassword != [] && f.confirmPassword != []
    requires f.newPassword != f.confirmPassword
    ensures HandleSubmit(f) == Rejected("New password and confirm password do not match") <==> MeetsPolicy(f.newPassword)
  {
  }

  lemma PolicyExample()
    ensures ValidatePassword("Abcdef1!").None? && Strength("Abcdef1!") == 5
    ensures ValidatePassword("abcdef1!") == Some(NoUpper) && Strength("abcdef1!") == 4
  {
    assert IsUpper("Abcdef1!"[0]) && IsLower("Abcdef1!"[1]) && IsDigit("Abcdef1!"[6]) && IsSpecial("Abcdef1!"[7]);
    assert IsLower("abcdef1!"[1]) && IsDigit("abcdef1!"[6]) && IsSpecial("abcdef1!"[7]);
    assert !HasUpper("abcdef1!");
  }
}
