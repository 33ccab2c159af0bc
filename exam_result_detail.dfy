/**
  * The exam result detail page: finding the result by id, its grade and
  * pass status, and the width of the score bar.
  */
module ExamResultDetail {
  import opened Wrappers
  import opened MyResults

  /** The lookup either shows a result or the page's error message. */
  datatype Lookup = Found(result: ExamResult) | NotFound(error: string)

  /** `allResults.find((r) => r._id === id)`, failing with "Result not found". */
  function FindResult(all: seq<ExamResult>, id: string): (l: Lookup)
    ensures l.NotFound? <==> forall i :: 0 <= i < |all| ==> all[i].id != id
    ensures l.NotFound? ==> l.error == "Result not found"
    ensures l.Found? ==> l.result.id == id
    ensures l.Found? ==> exists i :: 0 <= i < |all| && all[i] == l.result && forall j :: 0 <= j < i ==> all[j].id != id
  {
    if all == [] then NotFound("Result not found")
    else if all[0].id == id then Found(all[0])
    else
      var l := FindResult(all[1..], id);
      assert forall i :: 1 <= i < |all| ==> all[i] == all[1..][i - 1];
      if l.Found? then
        var i :| 0 <= i < |all[1..]| && all[1..][i] == l.result && forall j :: 0 <= j < i ==> all[1..][j].id != id;
        assert all[i + 1] == l.result;
        l
      else l
  }

  datatype GradeInfo = GradeInfo(grade: string, text: string, variant: Variant)

  /** `getGrade(score, passingScore = 50)`. */
  function GetGrade(score: real, passingScore: Option<real>): (g: GradeInfo)
    ensures score >= 60.0 ==> g.grade != "D" && g.grade != "F"
    ensures score < 60.0 ==> (g.grade == "D" <==> score >= passingScore.GetOr(50.0))
  {
    if score >= 90.0 then GradeInfo("A+", "Excellent", Success)
    else if score >= 80.0 then GradeInfo("A", "Very Good", Success)
    else if score >= 70.0 then GradeInfo("B", "Good", Info)
    else if score >= 60.0 then GradeInfo("C", "Average", Warning)
    else if score >= passingScore.GetOr(50.0) then GradeInfo("D", "Pass", Warning)
    else GradeInfo("F", "Fail", Error)
  }

  /** The detail page grades exactly as the results list does. */
  lemma GetGradeAgreesWithGradeBadge(score: real, passingScore: Option<real>)
    ensures var g := GetGrade(score, passingScore);
      var b := GradeBadgeFor(score, passingScore);
      g.grade == b.letter && g.text == b.text && g.variant == b.variant
  {
  }

  /** `isPassed`: `(score || 0) >= (passingScore || 50)`. */
  predicate IsPassed(r: ExamResult) {
    Passed(r)
  }

  /** The grade and the pass status are computed separately and can disagree. */
  lemma GradeAndPassCanDisagree()
    ensures
      var r := ExamResult("x", Some(70.0), Some(75.0), None, None, None, None);
      GetGrade(Score(r), r.passingScore).grade == "B" && !IsPassed(r)
  {
  }

  /** For a result whose pass mark is set, a "D" or better (on a score under 60) means passed. */
  lemma BelowSixtyGradeMatchesPass(r: ExamResult)
    requires Score(r) < 60.0 && r.passingScore.Some? && r.passingScore.value != 0.0
    ensures GetGrade(Score(r), r.passingScore).grade == "D" <==> IsPassed(r)
  {
  }

  /** `Math.min(result.score || 0, 100)`: the bar never overflows and is exact up to 100. */
  function BarWidth(r: ExamResult): (w: real)
    ensures w <= 100.0
    ensures w == Score(r) || (w == 100.0 && Score(r) > 100.0)
  {
    if Score(r) <= 100.0 then Score(r) else 100.0
  }
}
