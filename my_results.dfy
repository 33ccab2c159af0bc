/**
  * The student's results page: the exam-type filter and its drop-down, the
  * summary statistics, and the grade badge shown beside each result. The
  * result record defined here is shared by the detail and analysis pages.
  */
module MyResults {
  import opened Wrappers
  import opened Text
  import opened Seqs
  import opened Choices

  /** A result as the client receives it; every field may be missing. */
  datatype ExamResult = ExamResult(
    id: string,
    score: Option<real>,
    passingScore: Option<real>,
    examType: Option<string>,
    courseName: Option<string>,
    examDate: Option<int>,
    examName: Option<string>)

  /** `r.score || 0`. */
  function Score(r: ExamResult): real {
    r.score.GetOr(0.0)
  }

  /** `r.passingScore || 50`: a missing or zero pass mark counts as 50. */
  function PassMark(r: ExamResult): (m: real)
    ensures m == 50.0 || (r.passingScore == Some(m) && m != 0.0)
  {
    if r.passingScore.None? || r.passingScore.value == 0.0 then 50.0 else r.passingScore.value
  }

  /** `(r.score || 0) >= (r.passingScore || 50)`. */
  predicate Passed(r: ExamResult) {
    Score(r) >= PassMark(r)
  }

  // ---------------------------------------------------------------------------
  // filterResults, examTypes

  /** `result.examType?.toLowerCase() === selectedExamType.toLowerCase()`. */
  predicate HasExamType(r: ExamResult, selected: string) {
    r.examType.Some? && EqualsIgnoreCase(r.examType.value, selected)
  }

  /** `filterResults`: "all" shows every result; otherwise the results of that exam type, ignoring case, in order. */
  function FilterResults(results: seq<ExamResult>, selected: string): (r: seq<ExamResult>)
    ensures selected == "all" ==> r == results
    ensures IsSubsequence(r, results)
    ensures selected != "all" ==> forall i :: 0 <= i < |r| ==> HasExamType(r[i], selected)
    ensures forall i :: 0 <= i < |results| && (selected == "all" || HasExamType(results[i], selected)) ==>
              results[i] in r
  {
    if selected == "all" then
      SubsequenceReflexive(results);
      results
    else Filter(results, (x: ExamResult) => HasExamType(x, selected))
  }

  function ExamTypeOf(r: ExamResult): Option<string> {
    r.examType
  }

  /** `examTypes`: "all", then each non-empty exam type once, in order of first appearance. */
  function ExamTypes(results: seq<ExamResult>): (r: seq<string>)
    ensures |r| >= 1 && r[0] == "all"
    ensures NoDuplicates(r[1..])
    ensures forall i :: 1 <= i < |r| ==> r[i] != "" && exists k :: 0 <= k < |results| && results[k].examType == Some(r[i])
    ensures forall k :: 0 <= k < |results| && results[k].examType.Some? && results[k].examType.value != "" ==>
              results[k].examType.value in r[1..]
  {
    var types := Map(results, ExamTypeOf);
    var r := WithAll(types);
    forall i | 1 <= i < |r|
      ensures exists k :: 0 <= k < |results| && results[k].examType == Some(r[i])
    {
      var k :| 0 <= k < |types| && types[k] == Some(r[i]);
      assert results[k].examType == Some(r[i]);
    }
    r
  }

  // ---------------------------------------------------------------------------
  // calculateStats

  datatype Stats = Stats(
    totalExams: nat,
    averageScore: real,
    highestScore: real,
    lowestScore: real,
    passedExams: nat,
    failedExams: int)

  function Scores(data: seq<ExamResult>): (s: seq<real>)
    ensures |s| == |data| && forall i :: 0 <= i < |data| ==> s[i] == Score(data[i])
  {
    Map(data, Score)
  }

  function PassedCount(data: seq<ExamResult>): nat {
    Count(data, Passed)
  }

  /**
    * `calculateStats`: all zeros for no results; otherwise the mean, maximum
    * and minimum score and the numbers of passed and failed exams.
    */
  function CalculateStats(data: seq<ExamResult>): (st: Stats)
    ensures data == [] ==> st == Stats(0, 0.0, 0.0, 0.0, 0, 0)
    ensures st.totalExams == |data|
    ensures st.passedExams + st.failedExams == st.totalExams
    ensures st.failedExams >= 0
    ensures st.passedExams == Count(data, Passed)
    ensures data != [] ==> st.averageScore == Sum(Scores(data)) / |data| as real
    ensures st.lowestScore <= st.averageScore <= st.highestScore
    ensures data != [] ==> st.highestScore in Scores(data) && st.lowestScore in Scores(data)
    ensures forall i :: 0 <= i < |data| ==> st.lowestScore <= Score(data[i]) <= st.highestScore
  {
    if data == [] then Stats(0, 0.0, 0.0, 0.0, 0, 0)
    else
      var scores := Scores(data);
      var passed := PassedCount(data);
      MeanBetweenMinAndMax(scores);
      Stats(|data|, Sum(scores) / |data| as real, MaxOf(scores), MinOf(scores), passed, |data| - passed)
  }

  // ---------------------------------------------------------------------------
  // getGradeBadge

  datatype Variant = Success | Info | Warning | Error

  datatype GradeBadge = GradeBadge(variant: Variant, letter: string, text: string)

  /**
    * `getGradeBadge(score, passingScore = 50)`: fixed steps at 90, 80, 70 and
    * 60, then "D" from the pass mark. The default applies only when no pass
    * mark is passed, so an explicit 0 is used as 0.
    */
  function GradeBadgeFor(score: real, passingScore: Option<real>): (b: GradeBadge)
    ensures var pass := passingScore.GetOr(50.0);
      && (b.letter == "A+" <==> score >= 90.0)
      && (b.letter == "A" <==> 80.0 <= score < 90.0)
      && (b.letter == "B" <==> 70.0 <= score < 80.0)
      && (b.letter == "C" <==> 60.0 <= score < 70.0)
      && (b.letter == "D" <==> pass <= score < 60.0)
      && (b.letter == "F" <==> score < 60.0 && score < pass)
  {
    if score >= 90.0 then GradeBadge(Success, "A+", "Excellent")
    else if score >= 80.0 then GradeBadge(Success, "A", "Very Good")
    else if score >= 70.0 then GradeBadge(Info, "B", "Good")
    else if score >= 60.0 then GradeBadge(Warning, "C", "Average")
    else if score >= passingScore.GetOr(50.0) then GradeBadge(Warning, "D", "Pass")
    else GradeBadge(Error, "F", "Fail")
  }

  /** A pass mark above 60 cannot lower a score of 60 or more below "C". */
  lemma HighPassMarkStillGivesC(score: real, pass: real)
    requires 60.0 <= score < 70.0 && score < pass
    ensures GradeBadgeFor(score, Some(pass)).letter == "C"
  {
  }

  /**
    * The list passes `result.passingScore` unchanged while the pass test uses
    * `|| 50`, so a stored pass mark of 0 shows "D" for a score of 10 that the
    * pass test counts as failed.
    */
  lemma ZeroPassMarkBadgeDisagreesWithPassTest()
    ensures
      var r := ExamResult("x", Some(10.0), Some(0.0), None, None, None, None);
      GradeBadgeFor(Score(r), r.passingScore).letter == "D" && !Passed(r)
  {
  }
}
