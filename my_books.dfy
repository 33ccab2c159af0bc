/**
  * The student's "My Books" page: days left until each due date, the page's
  * own fine rule (five rupees per day past the due date, independent of the
  * server's rule), the due-date badge, and the page totals.
  */
module MyBooks {
  import opened Wrappers
  import opened Text
  import opened Seqs

  type Millis = int

  const MsPerDay: int := 1000 * 60 * 60 * 24
  /** The default rate of `calculateFine`. */
  const DefaultFinePerDay: int := 5

  /** An issued book as the page reads it: only its due date matters here. */
  datatype IssuedBook = IssuedBook(title: string, dueDate: Option<Millis>)

  /**
    * `calculateDaysRemaining`: no due date gives `null`; otherwise the time
    * to the due date in days, rounded up (`Math.ceil`).
    */
  function DaysRemaining(due: Option<Millis>, now: Millis): (d: Option<int>)
    ensures d.None? <==> due.None?
    ensures d.Some? ==> (d.value - 1) * MsPerDay < due.value - now <= d.value * MsPerDay
  {
    if due.None? then None else Some(-((now - due.value) / MsPerDay))
  }

  /** A due date already behind `now` by any amount is at least one day overdue. */
  lemma PastDueIsNegative(due: Millis, now: Millis)
    ensures DaysRemaining(Some(due), now).value < 0 <==> due - now <= -MsPerDay
  {
  }

  /** `Math.abs`. */
  function Abs(x: int): int {
    if x < 0 then -x else x
  }

  /**
    * `calculateFine(dueDate, finePerDay = 5)`: nothing without a due date or
    * while days remain (or on the due day), else the days overdue times the
    * rate. The rate is only defaulted when it is not passed.
    */
  function PageFine(due: Option<Millis>, now: Millis, finePerDay: Option<int>): (f: int)
    ensures var d := DaysRemaining(due, now);
      && (d.None? || d.value >= 0 ==> f == 0)
      && (d.Some? && d.value < 0 ==> f == -d.value * finePerDay.GetOr(DefaultFinePerDay))
  {
    var d := DaysRemaining(due, now);
    if d.None? || d.value >= 0 then 0
    else Abs(d.value) * finePerDay.GetOr(DefaultFinePerDay)
  }

  /** With the default rate the fine is never negative, and positive exactly when the book is overdue. */
  lemma PageFinePositiveIffOverdue(due: Option<Millis>, now: Millis)
    ensures PageFine(due, now, None) >= 0
    ensures PageFine(due, now, None) > 0 <==> IsOverdue(IssuedBook("", due), now)
  {
  }

  // ---------------------------------------------------------------------------
  // getDueDateBadge

  datatype Variant = Default | Error | Warning | Success

  datatype Badge = Badge(variant: Variant, text: string)

  function DaysLeftText(d: nat): string {
    NatToString(d) + " days left"
  }

  /**
    * `getDueDateBadge`: five cases, decided by the days remaining: none, past
    * due, due today, at most three days left, more.
    */
  function DueDateBadge(due: Option<Millis>, now: Millis): (b: Badge)
    ensures var d := DaysRemaining(due, now);
      && (d.None? <==> b == Badge(Default, "No due date"))
      && (d.Some? && d.value < 0 <==> b.variant == Error)
      && (d.Some? && d.value < 0 ==> b.text == "Overdue by " + NatToString(-d.value) + " days")
      && (d.Some? && d.value == 0 <==> b == Badge(Warning, "Due today"))
      && (d.Some? && 1 <= d.value <= 3 <==> b.variant == Warning && b.text != "Due today")
      && (d.Some? && d.value > 3 <==> b.variant == Success)
      && (d.Some? && d.value > 0 ==> b.text == DaysLeftText(d.value))
  {
    var d := DaysRemaining(due, now);
    if d.None? then Badge(Default, "No due date")
    else if d.value < 0 then Badge(Error, "Overdue by " + NatToString(-d.value) + " days")
    else if d.value == 0 then Badge(Warning, "Due today")
    else if d.value <= 3 then
      assert DaysLeftText(d.value)[|DaysLeftText(d.value)| - 1] == 't';
      Badge(Warning, DaysLeftText(d.value))
    else Badge(Success, DaysLeftText(d.value))
  }

  // ---------------------------------------------------------------------------
  // Page totals

  /** `calculateDaysRemaining(book.dueDate) < 0`; a `null` compares as 0, so a book with no due date is never overdue. */
  predicate IsOverdue(b: IssuedBook, now: Millis) {
    var d := DaysRemaining(b.dueDate, now);
    d.Some? && d.value < 0
  }

  /** `overdueBooks`: the overdue books, in page order. */
  function OverdueBooks(books: seq<IssuedBook>, now: Millis): (r: seq<IssuedBook>)
    ensures forall i :: 0 <= i < |r| ==> r[i] in books && IsOverdue(r[i], now)
    ensures forall i :: 0 <= i < |books| && IsOverdue(books[i], now) ==> books[i] in r
    ensures IsSubsequence(r, books)
  {
    Filter(books, (b: IssuedBook) => IsOverdue(b, now))
  }

  /** `totalFines`: the default-rate fines of all books added up. */
  function TotalFines(books: seq<IssuedBook>, now: Millis): (t: int)
    ensures t >= 0
    ensures t == 0 <==> forall i :: 0 <= i < |books| ==> !IsOverdue(books[i], now)
    ensures t >= DefaultFinePerDay * |OverdueBooks(books, now)|
  {
    if books == [] then 0
    else
      PageFinePositiveIffOverdue(books[0].dueDate, now);
      var rest := TotalFines(books[1..], now);
      assert forall i :: 1 <= i < |books| ==> books[i] == books[1..][i - 1];
      var p := (b: IssuedBook) => IsOverdue(b, now);
      assert OverdueBooks(books, now) == if p(books[0]) then [books[0]] + OverdueBooks(books[1..], now) else OverdueBooks(books[1..], now);
      PageFine(books[0].dueDate, now, None) + rest
  }

  /** The total of one book is that book's fine at the default rate. */
  lemma TotalFinesSingle(b: IssuedBook, now: Millis)
    ensures TotalFines([b], now) == PageFine(b.dueDate, now, None)
  {
    assert [b][1..] == [];
  }

  /** The total of two lists together is the sum of their totals: the fines are added book by book. */
  lemma {:induction false} TotalFinesAppend(a: seq<IssuedBook>, b: seq<IssuedBook>, now: Millis)
    ensures TotalFines(a + b, now) == TotalFines(a, now) + TotalFines(b, now)
  {
    if a == [] {
      assert a + b == b;
    } else {
      assert (a + b)[0] == a[0] && (a + b)[1..] == a[1..] + b;
      TotalFinesAppend(a[1..], b, now);
    }
  }

  /** The totals agree: fines are owed exactly when the overdue list is non-empty. */
  lemma FinesOwedIffOverdueBooks(books: seq<IssuedBook>, now: Millis)
    ensures TotalFines(books, now) > 0 <==> |OverdueBooks(books, now)| > 0
  {
    var r := OverdueBooks(books, now);
    if |r| > 0 {
      assert r[0] in books;
    }
  }
}
