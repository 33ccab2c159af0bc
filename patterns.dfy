/**
  * The regular expressions the schemas and forms validate with, written as
  * hand-coded scanners over characters, each proved equal to a description of
  * the strings the expression accepts.
  */
module Patterns {
  import opened Text

  predicate AllOf(s: string, p: char -> bool) {
    forall i :: 0 <= i < |s| ==> p(s[i])
  }

  /** The length of the longest prefix of `s` whose characters satisfy `p`. */
  function LeadingCount(s: string, p: char -> bool): (k: nat)
    ensures k <= |s|
    ensures AllOf(s[..k], p)
    ensures k < |s| ==> !p(s[k])
  {
    if s == [] || !p(s[0]) then 0
    else
      var k := LeadingCount(s[1..], p);
      assert s[..k + 1] == [s[0]] + s[1..][..k];
      k + 1
  }

  /** Any prefix of `p`-characters followed by a non-`p` character is the leading run. */
  lemma {:induction false} LeadingCountUnique(s: string, p: char -> bool, k: nat)
    requires k <= |s| && AllOf(s[..k], p) && (k < |s| ==> !p(s[k]))
    ensures LeadingCount(s, p) == k
  {
    if k > 0 {
      assert s[1..][..k - 1] == s[..k][1..];
      LeadingCountUnique(s[1..], p, k - 1);
    }
  }

  lemma UpperIsNotDigit(c: char)
    ensures !(IsUpper(c) && IsDigit(c))
  {
  }

  /** `^[A-Z]{lo,hi}\d{n}$` for `n > 0`. */
  function LettersThenDigits(s: string, lo: nat, hi: nat, n: nat): (b: bool)
    requires n > 0
    ensures b <==> exists k :: lo <= k <= hi && k + n == |s| && AllOf(s[..k], IsUpper) && AllOf(s[k..], IsDigit)
  {
    var k := LeadingCount(s, IsUpper);
    var b := lo <= k <= hi && k + n == |s| && AllOf(s[k..], IsDigit);
    assert (exists j :: lo <= j <= hi && j + n == |s| && AllOf(s[..j], IsUpper) && AllOf(s[j..], IsDigit)) ==> b by {
      if j :| lo <= j <= hi && j + n == |s| && AllOf(s[..j], IsUpper) && AllOf(s[j..], IsDigit) {
        assert s[j..][0] == s[j];
        UpperIsNotDigit(s[j]);
        LeadingCountUnique(s, IsUpper, j);
      }
    }
    b
  }

  /** `^[A-Z]{3}\d{3}$`, the module id, e.g. "MOD101". */
  predicate ModuleIdOk(s: string) {
    LettersThenDigits(s, 3, 3, 3)
  }

  /** `^[A-Z]{2,4}\d{3}$`, the course id, e.g. "CS101". */
  predicate CourseIdOk(s: string) {
    LettersThenDigits(s, 2, 4, 3)
  }

  lemma ModuleIdExamples()
    ensures ModuleIdOk("MOD101") && !ModuleIdOk("MO101") && !ModuleIdOk("MOD1011")
  {
    assert AllOf("MOD101"[..3], IsUpper) && AllOf("MOD101"[3..], IsDigit);
  }

  lemma CourseIdExamples()
    ensures CourseIdOk("CS101") && CourseIdOk("MATH101") && !CourseIdOk("C101") && !CourseIdOk("CS10")
  {
    assert AllOf("CS101"[..2], IsUpper) && AllOf("CS101"[2..], IsDigit);
    assert AllOf("MATH101"[..4], IsUpper) && AllOf("MATH101"[4..], IsDigit);
  }

  // ---------------------------------------------------------------------------
  // Student identifiers and contact numbers

  predicate IsUpperOrDigit(c: char) {
    IsUpper(c) || IsDigit(c)
  }

  /** `^S[A-Z0-9]{7,9}$`: an "S", then seven to nine capitals or digits. */
  predicate StudentIdOk(s: string) {
    8 <= |s| <= 10 && s[0] == 'S' && AllOf(s[1..], IsUpperOrDigit)
  }

  /** `^\+?\d{lo,hi}$`: an optional leading "+" and then `lo` to `hi` digits. */
  function PhoneOk(s: string, lo: nat, hi: nat): (b: bool)
    ensures b <==>
      (lo <= |s| <= hi && AllDigits(s))
      || (|s| > 0 && s[0] == '+' && lo <= |s| - 1 <= hi && AllDigits(s[1..]))
  {
    var digits := if |s| > 0 && s[0] == '+' then s[1..] else s;
    lo <= |digits| <= hi && AllDigits(digits)
  }

  /** `^\d{n}$`: exactly `n` digits. */
  predicate DigitsOk(s: string, n: nat) {
    |s| == n && AllDigits(s)
  }

  // ---------------------------------------------------------------------------
  // The e-mail pattern `^[^\s@]+@[^\s@]+\.[^\s@]+$`

  predicate NotSpaceOrAt(c: char) {
    !IsSpace(c) && c != '@'
  }

  /** `[^\s@]+\.[^\s@]+`: no whitespace or "@", and a "." neither first nor last. */
  predicate DomainOk(d: string) {
    AllOf(d, NotSpaceOrAt) && exists j :: 0 < j < |d| - 1 && d[j] == '.'
  }

  /** `c` occurs in `s`, found by scanning from the front. */
  function HasChar(s: string, c: char): (b: bool)
    ensures b <==> exists j :: 0 <= j < |s| && s[j] == c
  {
    if s == [] then false
    else if s[0] == c then true
    else
      var b := HasChar(s[1..], c);
      assert (exists j :: 0 <= j < |s| && s[j] == c) ==> b by {
        if j :| 0 <= j < |s| && s[j] == c {
          assert s[1..][j - 1] == c;
        }
      }
      b
  }

  /** A "." strictly inside `d`, found by scanning. */
  function HasInnerDot(d: string): (b: bool)
    ensures b <==> exists j :: 0 < j < |d| - 1 && d[j] == '.'
  {
    if |d| < 3 then false
    else
      var inner := d[1..|d| - 1];
      assert (exists j :: 0 <= j < |inner| && inner[j] == '.') <==> (exists j :: 0 < j < |d| - 1 && d[j] == '.') by {
        if j :| 0 < j < |d| - 1 && d[j] == '.' {
          assert inner[j - 1] == '.';
        }
      }
      HasChar(inner, '.')
  }

  /** The e-mail pattern: one "@" with a non-empty local part before it and a valid domain after it. */
  function EmailOk(s: string): (b: bool)
    ensures b <==>
      exists k :: 0 < k < |s| && s[k] == '@' && AllOf(s[..k], NotSpaceOrAt) && DomainOk(s[k + 1..])
  {
    var k := LeadingCount(s, NotSpaceOrAt);
    var b := 0 < k < |s| && s[k] == '@' && AllOf(s[k + 1..], NotSpaceOrAt) && HasInnerDot(s[k + 1..]);
    assert (exists j :: 0 < j < |s| && s[j] == '@' && AllOf(s[..j], NotSpaceOrAt) && DomainOk(s[j + 1..])) ==> b by {
      if j :| 0 < j < |s| && s[j] == '@' && AllOf(s[..j], NotSpaceOrAt) && DomainOk(s[j + 1..]) {
        LeadingCountUnique(s, NotSpaceOrAt, j);
      }
    }
    b
  }

  /** The pattern admits exactly one "@". */
  lemma EmailHasOneAt(s: string)
    requires EmailOk(s)
    ensures exists k :: 0 <= k < |s| && s[k] == '@' && forall i :: 0 <= i < |s| && i != k ==> s[i] != '@'
  {
    var k :| 0 < k < |s| && s[k] == '@' && AllOf(s[..k], NotSpaceOrAt) && DomainOk(s[k + 1..]);
    forall i | 0 <= i < |s| && i != k
      ensures s[i] != '@'
    {
      if i < k {
        assert s[..k][i] == s[i];
      } else {
        assert s[k + 1..][i - k - 1] == s[i];
      }
    }
  }
}
