/**
  * The student dashboard: the login guard in front of the dashboard request,
  * and the three figures it shows: attendance percentage, average score and
  * the number of borrowed books.
  */
module StudentDashboard {
  import opened Wrappers
  import opened Seqs
  import LibraryLedger

  // ---------------------------------------------------------------------------
  // The login guard

  datatype Load = NotLoggedIn(message: string) | Request(path: string)

  const NotLoggedInMessage := "You are not logged in. Please log in to view the dashboard."

  /** JavaScript truthiness of an optional string: present and not empty. */
  predicate Truthy(s: Option<string>) {
    s.Some? && s.value != ""
  }

  /**
    * `if (!studentData?._id || !token)`: a missing or empty stored id or token
    * gives the not-logged-in error and no request; otherwise the page asks
    * for `/students/<id>/dashboard`.
    */
  function LoadDashboard(studentId: Option<string>, token: Option<string>): (r: Load)
    ensures r == NotLoggedIn(NotLoggedInMessage) <==> !Truthy(studentId) || !Truthy(token)
    ensures r.Request? <==> Truthy(studentId) && Truthy(token)
    ensures r.Request? ==> r.path == "/students/" + studentId.value + "/dashboard"
  {
    if !Truthy(studentId) || !Truthy(token) then NotLoggedIn(NotLoggedInMessage)
    else Request("/students/" + studentId.value + "/dashboard")
  }

  // ---------------------------------------------------------------------------
  // Math.round

  /** `Math.round`: the nearest integer, halves rounded up. */
  function Round(x: real): (n: int)
    ensures n as real - 0.5 <= x < n as real + 0.5
  {
    (x + 0.5).Floor
  }

  /** Rounding never leaves an interval with integer ends. */
  lemma RoundWithin(x: real, lo: int, hi: int)
    requires lo as real <= x <= hi as real
    ensures lo <= Round(x) <= hi
  {
  }

  // ---------------------------------------------------------------------------
  // The attendance figure

  /** An attendance entry's `present` flag, which may be missing; only `true` is truthy. */
  function IsPresent(present: Option<bool>): bool {
    present == Some(true)
  }

  /**
    * `Math.round(filter(a => a.present).length / length * 100)`, or 0 without
    * entries: a whole percentage in 0..100.
    */
  function AttendancePercentage(attendance: seq<Option<bool>>): (p: int)
    ensures attendance == [] ==> p == 0
    ensures p == Round(PercentOf(Count(attendance, IsPresent), |attendance|))
    ensures 0 <= p <= 100
    ensures attendance != [] && Count(attendance, IsPresent) == |attendance| ==> p == 100
    ensures Count(attendance, IsPresent) == 0 ==> p == 0
  {
    var present := Count(attendance, IsPresent);
    var percentage := PercentOf(present, |attendance|);
    RoundWithin(percentage, 0, 100);
    Round(percentage)
  }

  /** The figure is rounded: 199 entries present out of 200 already show 100. */
  lemma RoundedAttendanceCanHideAbsence()
    ensures
      var attendance := seq(199, i => Some(true)) + [Some(false)];
      Count(attendance, IsPresent) == 199 && AttendancePercentage(attendance) == 100
  {
    var present := seq(199, i => Some(true));
    FilterAll(present, IsPresent);
    CountAppend(present, [Some(false)], IsPresent);
    assert Filter([Some(false)], IsPresent) == [];
  }

  // ---------------------------------------------------------------------------
  // The average score

  /** Every score is present (no `undefined` turns the sum into NaN). */
  predicate AllScored(scores: seq<Option<real>>) {
    forall i :: 0 <= i < |scores| ==> scores[i].Some?
  }

  function ScoreSum(scores: seq<Option<real>>): real
    requires AllScored(scores)
  {
    if scores == [] then 0.0 else scores[0].value + ScoreSum(scores[1..])
  }

  /** Scores within `lo..hi` sum to between `|scores| * lo` and `|scores| * hi`. */
  lemma {:induction false} ScoreSumBetween(scores: seq<Option<real>>, lo: real, hi: real)
    requires AllScored(scores)
    requires forall i :: 0 <= i < |scores| ==> lo <= scores[i].value <= hi
    ensures |scores| as real * lo <= ScoreSum(scores) <= |scores| as real * hi
  {
    if scores != [] {
      ScoreSumBetween(scores[1..], lo, hi);
    }
  }

  /**
    * `Math.round(results.reduce((sum, r) => sum + r.score, 0) / results.length)`,
    * or 0 without results. A missing score makes the figure NaN, modelled as
    * `None`; with scores in 0..100 the figure is in 0..100.
    */
  function AverageScore(scores: seq<Option<real>>): (avg: Option<int>)
    ensures scores == [] ==> avg == Some(0)
    ensures avg.None? <==> !AllScored(scores)
    ensures scores != [] && AllScored(scores) ==> avg == Some(Round(ScoreSum(scores) / |scores| as real))
    ensures AllScored(scores) && (forall i :: 0 <= i < |scores| ==> 0.0 <= scores[i].value <= 100.0) ==>
      avg.Some? && 0 <= avg.value <= 100
  {
    if scores == [] then Some(0)
    else if !AllScored(scores) then None
    else
      var mean := ScoreSum(scores) / |scores| as real;
      assert (forall i :: 0 <= i < |scores| ==> 0.0 <= scores[i].value <= 100.0) ==> 0 <= Round(mean) <= 100 by {
        if forall i :: 0 <= i < |scores| ==> 0.0 <= scores[i].value <= 100.0 {
          ScoreSumBetween(scores, 0.0, 100.0);
          DivideBounds(ScoreSum(scores), |scores| as real, 0.0, 100.0);
          RoundWithin(mean, 0, 100);
        }
      }
      Some(Round(mean))
  }

  // ---------------------------------------------------------------------------
  // The borrowed-books figure

  /** `l.status === "borrowed"` on a library entry whose status may be missing. */
  function IsBorrowed(status: Option<string>): bool {
    status == Some("borrowed")
  }

  /** `library.filter(l => l.status === "borrowed").length`. */
  function BorrowedCount(statuses: seq<Option<string>>): (n: nat)
    ensures n <= |statuses|
    ensures n == 0 <==> forall i :: 0 <= i < |statuses| ==> statuses[i] != Some("borrowed")
  {
    var n := Count(statuses, IsBorrowed);
    assert n == 0 <==> forall i :: 0 <= i < |statuses| ==> statuses[i] != Some("borrowed") by {
      if forall i :: 0 <= i < |statuses| ==> statuses[i] != Some("borrowed") {
        CountNone(statuses, IsBorrowed);
      }
    }
    n
  }

  function StoredStatus(t: LibraryLedger.Transaction): Option<string> {
    Some(LibraryLedger.StatusName(t.status))
  }

  function IsOpenLoan(t: LibraryLedger.Transaction): bool {
    t.status == LibraryLedger.Borrowed
  }

  /**
    * On ledger records the figure counts exactly the loans in the
    * "borrowed" state, that is the loans not yet returned.
    */
  lemma {:induction false} BorrowedCountOfLedger(ledger: seq<LibraryLedger.Transaction>)
    ensures BorrowedCount(Map(ledger, StoredStatus)) == Count(ledger, IsOpenLoan)
  {
    if ledger != [] {
      BorrowedCountOfLedger(ledger[1..]);
      assert Map(ledger, StoredStatus)[1..] == Map(ledger[1..], StoredStatus);
    }
  }
}
