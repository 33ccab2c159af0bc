/**
  * The course-enrollment page: the search and grade filters and the grade
  * drop-down. Its enrolled-course test and its "available" figure are
  * `Seqs.AnyHasKey` (on `CourseId`) and `Seqs.LengthGap`.
  */
module CourseEnrollment {
  import opened Wrappers
  import opened Text
  import opened Seqs
  import BookCatalog

  /** A course as the page reads it; the fields it searches may be missing. */
  datatype ListedCourse = ListedCourse(
    id: string,
    courseName: Option<string>,
    description: Option<string>,
    courseID: Option<string>,
    grade: Option<int>)

  /** The lower-cased, untrimmed term occurs in the name, the description or the course id. */
  predicate MatchesSearch(c: ListedCourse, term: string) {
    var search := ToLower(term);
    BookCatalog.FieldMatches(c.courseName, search)
    || BookCatalog.FieldMatches(c.description, search)
    || BookCatalog.FieldMatches(c.courseID, search)
  }

  /** `String(n)` for an integer. */
  function IntToString(n: int): (s: string)
    ensures |s| >= 1
    ensures n >= 0 ==> s == NatToString(n)
  {
    if n < 0 then "-" + NatToString(-n) else NatToString(n)
  }

  /** The numeral starts with a minus sign exactly for a negative number, and is never "all". */
  lemma SignShown(n: int)
    ensures IntToString(n)[0] == '-' <==> n < 0
    ensures IntToString(n) != "all"
  {
    if n >= 0 {
      assert IsDigit(NatToString(n)[0]);
    }
  }

  /** Different numbers have different numerals. */
  lemma IntToStringInjective(a: int, b: int)
    requires IntToString(a) == IntToString(b)
    ensures a == b
  {
    SignShown(a);
    SignShown(b);
    if a < 0 {
      assert NatToString(-a) == IntToString(a)[1..];
      assert NatToString(-b) == IntToString(b)[1..];
    }
  }

  /** `course.grade?.toString() === selectedGrade`. */
  predicate MatchesGrade(c: ListedCourse, selected: string) {
    c.grade.Some? && IntToString(c.grade.value) == selected
  }

  /**
    * `filterCourses`: the text filter applies only when the term is not
    * blank after trimming, the grade filter only when the selection is not
    * "all". The result keeps the listing's order.
    */
  function FilterCourses(all: seq<ListedCourse>, term: string, selected: string): (r: seq<ListedCourse>)
    ensures IsSubsequence(r, all)
    ensures forall i :: 0 <= i < |r| ==>
      (IsBlank(term) || MatchesSearch(r[i], term)) && (selected == "all" || MatchesGrade(r[i], selected))
    ensures forall i :: 0 <= i < |all| ==>
      ((IsBlank(term) || MatchesSearch(all[i], term)) && (selected == "all" || MatchesGrade(all[i], selected))
      ==> all[i] in r)
  {
    TrimEmptyIffBlank(term);
    var bySearch := if Trim(term) != "" then Filter(all, (c: ListedCourse) => MatchesSearch(c, term)) else all;
    var byGrade := if selected != "all" then Filter(bySearch, (c: ListedCourse) => MatchesGrade(c, selected)) else bySearch;
    SubsequenceReflexive(all);
    SubsequenceReflexive(bySearch);
    SubsequenceTransitive(byGrade, bySearch, all);
    byGrade
  }

  /** Choosing a grade from the drop-down keeps exactly the courses of that grade. */
  lemma GradeFilterIsExact(all: seq<ListedCourse>, g: int, c: ListedCourse)
    requires c in all
    ensures c in FilterCourses(all, "", IntToString(g)) <==> c.grade == Some(g)
  {
    SignShown(g);
    assert IsBlank("");
    var r := FilterCourses(all, "", IntToString(g));
    if c in r {
      var j :| 0 <= j < |r| && r[j] == c;
      assert MatchesGrade(r[j], IntToString(g));
      IntToStringInjective(c.grade.value, g);
    }
  }

  /** The id the page compares: `course._id`. */
  function CourseId(c: ListedCourse): string {
    c.id
  }

  // ---------------------------------------------------------------------------
  // availableGrades

  predicate StrictlyIncreasing(s: seq<int>) {
    forall i, j :: 0 <= i < j < |s| ==> s[i] < s[j]
  }

  /** Insert `x` into an increasing sequence unless it is already there. */
  function InsertGrade(x: int, s: seq<int>): (r: seq<int>)
    requires StrictlyIncreasing(s)
    ensures StrictlyIncreasing(r)
    ensures forall y :: y in r <==> y in s || y == x
  {
    if s == [] then [x]
    else if x < s[0] then [x] + s
    else if x == s[0] then s
    else
      var rest := InsertGrade(x, s[1..]);
      var r := [s[0]] + rest;
      forall k | 0 <= k < |rest|
        ensures s[0] < rest[k]
      {
        assert rest[k] in rest;
        assert rest[k] in s[1..] || rest[k] == x;
      }
      forall i, j | 0 <= i < j < |r|
        ensures r[i] < r[j]
      {
        assert r[j] == rest[j - 1];
        if i > 0 {
          assert r[i] == rest[i - 1];
        }
      }
      r
  }

  /**
    * `[...new Set(allCourses.map(c => c.grade).filter(Boolean))].sort((a, b) => a - b)`:
    * each truthy grade (present and not zero) once, in ascending numeric order.
    */
  function AvailableGrades(all: seq<ListedCourse>): (r: seq<int>)
    ensures StrictlyIncreasing(r)
    ensures NoDuplicates(r)
    ensures forall y :: y in r <==> exists i :: 0 <= i < |all| && all[i].grade == Some(y) && y != 0
  {
    if all == [] then []
    else
      var init := all[..|all| - 1];
      var last := all[|all| - 1];
      var rest := AvailableGrades(init);
      assert forall i :: 0 <= i < |init| ==> init[i] == all[i];
      if last.grade.Some? && last.grade.value != 0 then InsertGrade(last.grade.value, rest) else rest
  }

  /** A student enrolled in a course that is no longer listed sees a negative figure. */
  lemma AvailableCanBeNegative(c: ListedCourse)
    ensures LengthGap<ListedCourse, ListedCourse>([], [c]) == -1 && !AnyHasKey([], CourseId, c.id)
  {
  }
}
