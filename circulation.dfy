/**
  * Library circulation as the library controller performs it: issuing a copy,
  * returning it with the overdue fine, quoting the fine without changing
  * anything, overriding a stored fine, and listing the ledger.
  *
  * The two collections the controller reads and writes (books and ledger
  * records) form a `Store`. Each request is one function from the store before
  * to the reply and the store after; `LibraryDesk` performs the same requests
  * step by step on its fields and is proved to agree with those functions.
  */
module Circulation {
  import opened Wrappers
  import opened Http
  import opened Text
  import opened Seqs
  import opened LibraryLedger

  /** A book as the controller uses it; the Book schema itself is not part of this model. */
  datatype Book = Book(title: string, totalCopies: int, availableCopies: int)

  /** The book collection and the ledger; a transaction's id is its position in the ledger. */
  datatype Store = Store(books: map<DocId, Book>, ledger: seq<Transaction>)

  /** What a request answers (status and message, plus the fine text on a return) and the store after it. */
  datatype Response = Response(reply: Reply, fine: Option<string>, store: Store)

  /** The JSON body of a fine quote. */
  datatype FineQuote = FineQuote(daysElapsed: int, dueDate: int, fine: string, overdueDays: int)

  const MsPerDay: int := 1000 * 60 * 60 * 24
  /** The loan period in days before a fine accrues. */
  const LoanDays: int := 14
  /** One dollar per day past the loan period. */
  const FinePerDay: int := 1

  // ---------------------------------------------------------------------------
  // The fine rule

  /** `Math.floor((to - from) / 86400000)`: whole days elapsed, rounded down. */
  function DaysElapsed(from: Millis, to: Millis): (d: int)
    ensures d * MsPerDay <= to - from < d * MsPerDay + MsPerDay
  {
    (to - from) / MsPerDay
  }

  /** `Math.max(0, daysElapsed - dueDate)`, the overdue days a fine quote reports. */
  function OverdueDays(days: int): (n: int)
    ensures n >= 0 && n >= days - LoanDays
    ensures n == 0 || n == days - LoanDays
  {
    if 0 >= days - LoanDays then 0 else days - LoanDays
  }

  /** The fine charged after `days` whole days: nothing within the loan period, then a dollar a day. */
  function Fine(days: int): (f: int)
    ensures f >= 0
    ensures f == 0 <==> days <= LoanDays
    ensures f == OverdueDays(days) * FinePerDay
  {
    if days > LoanDays then (days - LoanDays) * FinePerDay else 0
  }

  /** A longer loan never costs less. */
  lemma FineMonotone(d1: int, d2: int)
    requires d1 <= d2
    ensures Fine(d1) <= Fine(d2)
  {
  }

  /** `fine > 0 ? "$" + fine : "No fine"`: the dollar amount reads back from the text. */
  function FineText(f: int): (r: string)
    ensures r == "No fine" <==> f <= 0
    ensures f > 0 ==> |r| >= 2 && r[0] == '$' && AllDigits(r[1..]) && DigitsValue(r[1..]) == f
  {
    if f > 0 then
      var r := "$" + NatToString(f);
      assert r[1..] == NatToString(f);
      r
    else "No fine"
  }

  // ---------------------------------------------------------------------------
  // Frame predicates used by the request contracts

  /** `after` is `before` with the available count of `id` (if that book exists) moved by `delta`. */
  predicate StockMoved(before: map<DocId, Book>, after: map<DocId, Book>, id: DocId, delta: int) {
    && after.Keys == before.Keys
    && (forall b :: b in before && b != id ==> after[b] == before[b])
    && (id in before ==> after[id] == before[id].(availableCopies := before[id].availableCopies + delta))
  }

  /** Only entry `i` of the ledger may differ. */
  predicate OnlyEntryChanged(before: seq<Transaction>, after: seq<Transaction>, i: int) {
    |after| == |before| && forall j :: 0 <= j < |before| && j != i ==> after[j] == before[j]
  }

  predicate ValidTx(s: Store, txId: int) {
    0 <= txId < |s.ledger|
  }

  // ---------------------------------------------------------------------------
  // issueBook

  /**
    * Issue one copy of `bookID` to `borrowedBy` at time `now`. Either id empty:
    * 400; unknown book: 404; no copy left: 400; a book without a title: the
    * new record fails the ledger schema on save, 500 and nothing changes;
    * otherwise one new "borrowed" record is appended and that book's
    * available count drops by one.
    */
  function Issue(s: Store, bookID: DocId, borrowedBy: DocId, now: Millis): (r: Response)
    ensures r.fine == None
    ensures r.reply.status == NotFound <==> bookID != "" && borrowedBy != "" && bookID !in s.books
    ensures r.reply.status == ServerError <==>
      bookID != "" && borrowedBy != "" && bookID in s.books && s.books[bookID].availableCopies > 0
      && s.books[bookID].title == ""
    ensures r.reply.status == ServerError ==> r.reply == Reply(ServerError, "Internal server error")
    ensures r.reply.status == Created <==>
      bookID != "" && borrowedBy != "" && bookID in s.books && s.books[bookID].availableCopies > 0
      && s.books[bookID].title != ""
    ensures r.reply.status in {BadRequest, NotFound, ServerError, Created}
    ensures r.reply.status != Created ==> r.store == s
    ensures r.reply.status == Created ==>
      && |r.store.ledger| == |s.ledger| + 1
      && r.store.ledger[..|s.ledger|] == s.ledger
      && r.store.ledger[|s.ledger|] == Transaction(bookID, s.books[bookID].title, borrowedBy, now, None, Borrowed, 0)
      && WellFormed(r.store.ledger[|s.ledger|])
      && StockMoved(s.books, r.store.books, bookID, -1)
  {
    if bookID == "" || borrowedBy == "" then
      Response(Reply(BadRequest, "Book ID and Student ID are required"), None, s)
    else if bookID !in s.books then
      Response(Reply(NotFound, "Book not found"), None, s)
    else
      var book := s.books[bookID];
      if book.availableCopies <= 0 then
        Response(Reply(BadRequest, "Book is not available"), None, s)
      else if book.title == "" then
        Response(Reply(ServerError, "Internal server error"), None, s)
      else
        var tx := Transaction(bookID, book.title, borrowedBy, now, None, Borrowed, 0);
        var books := s.books[bookID := book.(availableCopies := book.availableCopies - 1)];
        assert (s.ledger + [tx])[..|s.ledger|] == s.ledger;
        Response(Reply(Created, "Book issued successfully"), None, Store(books, s.ledger + [tx]))
  }

  // ---------------------------------------------------------------------------
  // returnBook

  /**
    * Close transaction `txId` at time `now`. Unknown id: 404; status
    * "returned": 400. Any other status (including "overdue") is closed again:
    * the fine is recomputed, the status becomes "overdue" exactly when there is
    * a fine, and the book (if it still exists) gets one copy back, uncapped.
    */
  function Return(s: Store, txId: int, now: Millis): (r: Response)
    ensures r.reply.status == NotFound <==> !ValidTx(s, txId)
    ensures r.reply.status == BadRequest <==> ValidTx(s, txId) && s.ledger[txId].status == Returned
    ensures r.reply.status in {NotFound, BadRequest, Ok}
    ensures r.reply.status != Ok ==> r.store == s && r.fine == None
    ensures r.reply.status == Ok ==> OnlyEntryChanged(s.ledger, r.store.ledger, txId)
    ensures r.reply.status == Ok ==>
      var t := s.ledger[txId];
      var t' := r.store.ledger[txId];
      var fine := Fine(DaysElapsed(t.borrowDate, now));
      && t'.bookID == t.bookID && t'.bookTitle == t.bookTitle
      && t'.borrowedBy == t.borrowedBy && t'.borrowDate == t.borrowDate
      && t'.returnDate == Some(now)
      && t'.fine == fine
      && (t'.status == Overdue <==> fine > 0)
      && (t'.status == Returned <==> fine == 0)
      && r.fine == Some(FineText(fine))
      && StockMoved(s.books, r.store.books, t.bookID, 1)
  {
    if !ValidTx(s, txId) then
      Response(Reply(NotFound, "Transaction not found"), None, s)
    else
      var t := s.ledger[txId];
      if t.status == Returned then
        Response(Reply(BadRequest, "Book already returned"), None, s)
      else
        var fine := Fine(DaysElapsed(t.borrowDate, now));
        var closed := t.(returnDate := Some(now), status := if fine > 0 then Overdue else Returned, fine := fine);
        var books :=
          if t.bookID in s.books then
            s.books[t.bookID := s.books[t.bookID].(availableCopies := s.books[t.bookID].availableCopies + 1)]
          else s.books;
        Response(Reply(Ok, "Book returned successfully"), Some(FineText(fine)), Store(books, s.ledger[txId := closed]))
  }

  // ---------------------------------------------------------------------------
  // calculateFine

  /**
    * Quote the fine transaction `txId` would owe at time `now`, whatever its
    * status; the store is only read. The reported overdue days equal the fine
    * in dollars.
    */
  function Quote(s: Store, txId: int, now: Millis): (r: (Reply, Option<FineQuote>))
    ensures r.0.status == NotFound <==> !ValidTx(s, txId)
    ensures r.1.Some? <==> ValidTx(s, txId)
    ensures r.1.Some? ==>
      && r.0.status == Ok
      && r.1.value.daysElapsed == DaysElapsed(s.ledger[txId].borrowDate, now)
      && r.1.value.dueDate == LoanDays
      && r.1.value.overdueDays * FinePerDay == Fine(r.1.value.daysElapsed)
      && r.1.value.fine == FineText(Fine(r.1.value.daysElapsed))
  {
    if !ValidTx(s, txId) then
      (Reply(NotFound, "Transaction not found"), None)
    else
      var days := DaysElapsed(s.ledger[txId].borrowDate, now);
      (Reply(Ok, ""), Some(FineQuote(days, LoanDays, FineText(Fine(days)), OverdueDays(days))))
  }

  /** The quote does not look at the status, so a closed record is quoted like an open one. */
  lemma QuoteIgnoresStatus(s: Store, txId: int, now: Millis, st: TxStatus)
    requires ValidTx(s, txId)
    ensures Quote(Store(s.books, s.ledger[txId := s.ledger[txId].(status := st)]), txId, now) == Quote(s, txId, now)
  {
  }

  // ---------------------------------------------------------------------------
  // updateFine

  /**
    * Overwrite the fine of `txId`. A missing or negative fine is refused with
    * 400 before the record is looked up; an unknown id then gives 404;
    * otherwise only the `fine` field changes.
    */
  function SetFine(s: Store, txId: int, fine: Option<int>): (r: Response)
    ensures r.fine == None
    ensures r.reply.status == BadRequest <==> fine.None? || fine.value < 0
    ensures r.reply.status == NotFound <==> fine.Some? && fine.value >= 0 && !ValidTx(s, txId)
    ensures r.reply.status in {BadRequest, NotFound, Ok}
    ensures r.reply.status != Ok ==> r.store == s
    ensures r.reply.status == Ok ==> r.store.books == s.books && OnlyEntryChanged(s.ledger, r.store.ledger, txId)
    ensures r.reply.status == Ok ==>
      var t := s.ledger[txId];
      var t' := r.store.ledger[txId];
      && t'.fine == fine.value
      && t'.status == t.status && t'.borrowDate == t.borrowDate && t'.returnDate == t.returnDate
      && t'.bookID == t.bookID && t'.bookTitle == t.bookTitle && t'.borrowedBy == t.borrowedBy
  {
    if fine.None? || fine.value < 0 then
      Response(Reply(BadRequest, "Valid fine amount is required"), None, s)
    else if !ValidTx(s, txId) then
      Response(Reply(NotFound, "Transaction not found"), None, s)
    else
      var t := s.ledger[txId];
      Response(Reply(Ok, "Fine updated successfully"), None, Store(s.books, s.ledger[txId := t.(fine := fine.value)]))
  }

  // ---------------------------------------------------------------------------
  // getLibraryTransactions, getStudentTransactions

  function NewestFirst(t: Transaction): real {
    -(t.borrowDate as real)
  }

  /** `find(filter).sort({ borrowDate: -1 })`: the records satisfying `p`, newest borrow first. */
  function SelectNewestFirst(ledger: seq<Transaction>, p: Transaction -> bool): (r: seq<Transaction>)
    ensures multiset(r) == multiset(Filter(ledger, p))
    ensures forall i :: 0 <= i < |r| ==> p(r[i]) && r[i] in ledger
    ensures forall i :: 0 <= i < |ledger| && p(ledger[i]) ==> ledger[i] in r
    ensures forall i, j :: 0 <= i < j < |r| ==> r[i].borrowDate >= r[j].borrowDate
  {
    var matching := Filter(ledger, p);
    var sorted := SortBy(matching, NewestFirst);
    forall i | 0 <= i < |sorted|
      ensures p(sorted[i]) && sorted[i] in ledger
    {
      assert sorted[i] in multiset(matching);
      FilterMember(ledger, p, sorted[i]);
    }
    forall i | 0 <= i < |ledger| && p(ledger[i])
      ensures ledger[i] in sorted
    {
      assert ledger[i] in multiset(sorted);
    }
    forall i, j | 0 <= i < j < |sorted|
      ensures sorted[i].borrowDate >= sorted[j].borrowDate
    {
      assert NewestFirst(sorted[i]) <= NewestFirst(sorted[j]);
    }
    sorted
  }

  /** The record matches the optional status filter (`if (status) filter.status = status`). */
  function StatusFilter(status: string): Transaction -> bool {
    (t: Transaction) => status == "" || StatusName(t.status) == status
  }

  /**
    * The ledger, restricted to one status when a non-empty `status` is given,
    * newest borrow first; 404 when nothing matches.
    */
  function ListTransactions(s: Store, status: string): (r: (Reply, seq<Transaction>))
    ensures r.0.status in {Ok, NotFound}
    ensures r.0.status == NotFound <==> |r.1| == 0
    ensures forall i :: 0 <= i < |r.1| ==> r.1[i] in s.ledger && (status == "" || StatusName(r.1[i].status) == status)
    ensures multiset(r.1) == multiset(Filter(s.ledger, StatusFilter(status)))
    ensures status == "" ==> multiset(r.1) == multiset(s.ledger)
    ensures forall i :: 0 <= i < |s.ledger| && (status == "" || StatusName(s.ledger[i].status) == status) ==>
              s.ledger[i] in r.1
    ensures forall i, j :: 0 <= i < j < |r.1| ==> r.1[i].borrowDate >= r.1[j].borrowDate
  {
    var sorted := SelectNewestFirst(s.ledger, StatusFilter(status));
    assert status == "" ==> Filter(s.ledger, StatusFilter(status)) == s.ledger by {
      if status == "" {
        FilterAll(s.ledger, StatusFilter(status));
      }
    }
    if |sorted| > 0 then (Reply(Ok, ""), sorted) else (Reply(NotFound, "No transactions found"), [])
  }

  /** The record was borrowed by `student` (`{ borrowedBy: studentId }`). */
  function BorrowedBy(student: DocId): Transaction -> bool {
    (t: Transaction) => t.borrowedBy == student
  }

  /** One student's records, newest borrow first; 404 when there are none. */
  function StudentTransactions(s: Store, student: DocId): (r: (Reply, seq<Transaction>))
    ensures r.0.status in {Ok, NotFound}
    ensures r.0.status == NotFound <==> |r.1| == 0
    ensures multiset(r.1) == multiset(Filter(s.ledger, BorrowedBy(student)))
    ensures forall i :: 0 <= i < |r.1| ==> r.1[i].borrowedBy == student && r.1[i] in s.ledger
    ensures forall i :: 0 <= i < |s.ledger| && s.ledger[i].borrowedBy == student ==> s.ledger[i] in r.1
    ensures forall i, j :: 0 <= i < j < |r.1| ==> r.1[i].borrowDate >= r.1[j].borrowDate
  {
    var sorted := SelectNewestFirst(s.ledger, BorrowedBy(student));
    if |sorted| > 0 then (Reply(Ok, ""), sorted) else (Reply(NotFound, "No transactions found for this student"), [])
  }

  // ---------------------------------------------------------------------------
  // Stock bookkeeping across requests

  /** Records still out on loan for book `id`. */
  function OpenLoanOf(id: DocId): Transaction -> bool {
    (t: Transaction) => t.bookID == id && t.status == Borrowed
  }

  function OpenLoans(ledger: seq<Transaction>, id: DocId): nat {
    Count(ledger, OpenLoanOf(id))
  }

  /** For every book, the available copies plus the copies on loan make up the total. */
  predicate StockConserved(s: Store) {
    forall id :: id in s.books ==> s.books[id].availableCopies + OpenLoans(s.ledger, id) == s.books[id].totalCopies
  }

  /** No book shows a negative available count. */
  predicate StockNonNegative(s: Store) {
    forall id :: id in s.books ==> s.books[id].availableCopies >= 0
  }

  /** While the stock is conserved, no book shows more available copies than it owns. */
  lemma ConservedStockWithinTotal(s: Store, id: DocId)
    requires StockConserved(s) && id in s.books
    ensures s.books[id].availableCopies <= s.books[id].totalCopies
  {
  }

  lemma IssueKeepsStockNonNegative(s: Store, bookID: DocId, borrowedBy: DocId, now: Millis)
    requires StockNonNegative(s)
    ensures StockNonNegative(Issue(s, bookID, borrowedBy, now).store)
  {
  }

  lemma ReturnKeepsStockNonNegative(s: Store, txId: int, now: Millis)
    requires StockNonNegative(s)
    ensures StockNonNegative(Return(s, txId, now).store)
  {
  }

  /** Every ledger record satisfies the LibraryTransaction schema. */
  predicate LedgerWellFormed(s: Store) {
    forall i :: 0 <= i < |s.ledger| ==> WellFormed(s.ledger[i])
  }

  /** An issue stores only a record the schema accepts (a titleless book gives 500 instead). */
  lemma IssueKeepsLedgerWellFormed(s: Store, bookID: DocId, borrowedBy: DocId, now: Millis)
    requires LedgerWellFormed(s)
    ensures LedgerWellFormed(Issue(s, bookID, borrowedBy, now).store)
  {
    var r := Issue(s, bookID, borrowedBy, now);
    if r.reply.status == Created {
      forall i | 0 <= i < |r.store.ledger|
        ensures WellFormed(r.store.ledger[i])
      {
        if i < |s.ledger| {
          assert r.store.ledger[i] == r.store.ledger[..|s.ledger|][i];
        }
      }
    }
  }

  /** A return records a fine of at least zero and keeps the other fields. */
  lemma ReturnKeepsLedgerWellFormed(s: Store, txId: int, now: Millis)
    requires LedgerWellFormed(s)
    ensures LedgerWellFormed(Return(s, txId, now).store)
  {
  }

  /** A fine correction stores only a fine of at least zero. */
  lemma SetFineKeepsLedgerWellFormed(s: Store, txId: int, fine: Option<int>)
    requires LedgerWellFormed(s)
    ensures LedgerWellFormed(SetFine(s, txId, fine).store)
  {
  }

  /** Issuing moves one copy from the shelf to an open loan, so the stock stays conserved. */
  lemma IssueConservesStock(s: Store, bookID: DocId, borrowedBy: DocId, now: Millis)
    requires StockConserved(s)
    ensures StockConserved(Issue(s, bookID, borrowedBy, now).store)
  {
    var r := Issue(s, bookID, borrowedBy, now);
    if r.reply.status == Created {
      var tx := r.store.ledger[|s.ledger|];
      assert r.store.ledger == s.ledger + [tx];
      forall id | id in r.store.books
        ensures r.store.books[id].availableCopies + OpenLoans(r.store.ledger, id) == r.store.books[id].totalCopies
      {
        CountAppend(s.ledger, [tx], OpenLoanOf(id));
        assert Count([tx], OpenLoanOf(id)) == if id == bookID then 1 else 0;
      }
    }
  }

  /** Returning a record that is still "borrowed" moves its copy back to the shelf. */
  lemma ReturnOfOpenLoanConservesStock(s: Store, txId: int, now: Millis)
    requires StockConserved(s)
    requires ValidTx(s, txId) && s.ledger[txId].status == Borrowed
    ensures StockConserved(Return(s, txId, now).store)
  {
    var r := Return(s, txId, now);
    var t := s.ledger[txId];
    var t' := r.store.ledger[txId];
    assert r.store.ledger == s.ledger[txId := t'];
    forall id | id in r.store.books
      ensures r.store.books[id].availableCopies + OpenLoans(r.store.ledger, id) == r.store.books[id].totalCopies
    {
      CountUpdate(s.ledger, txId, t', OpenLoanOf(id));
    }
  }

  /**
    * A record already closed as "overdue" is not refused by a second return:
    * the copy is counted back a second time while no loan is closed, so the
    * conservation of stock breaks.
    */
  lemma ReturnOfOverdueRecordBreaksStock(s: Store, txId: int, now: Millis)
    requires StockConserved(s)
    requires ValidTx(s, txId) && s.ledger[txId].status == Overdue && s.ledger[txId].bookID in s.books
    ensures
      var r := Return(s, txId, now);
      var id := s.ledger[txId].bookID;
      && r.reply.status == Ok
      && r.store.books[id].availableCopies == s.books[id].availableCopies + 1
      && !StockConserved(r.store)
  {
    var r := Return(s, txId, now);
    var id := s.ledger[txId].bookID;
    assert r.store.ledger == s.ledger[txId := r.store.ledger[txId]];
    CountUpdate(s.ledger, txId, r.store.ledger[txId], OpenLoanOf(id));
    assert OpenLoans(r.store.ledger, id) == OpenLoans(s.ledger, id);
  }

  /**
    * The state that lemma needs is reached by an ordinary late return: one
    * copy of a book, issued at time 0 and returned 20 days later, leaves an
    * "overdue" record with a $6 fine; returning it again puts a second copy on
    * the shelf of a book that owns one.
    */
  lemma SecondReturnOfOverdueLoanExceedsTotal()
    ensures
      var s0 := Store(map["b" := Book("Dune", 1, 1)], []);
      var s1 := Issue(s0, "b", "s", 0).store;
      var r2 := Return(s1, 0, 20 * MsPerDay);
      var r3 := Return(r2.store, 0, 21 * MsPerDay);
      && r2.store.ledger[0].status == Overdue && r2.store.ledger[0].fine == 6
      && r3.reply.status == Ok
      && r3.store.books["b"].availableCopies == 2
      && r3.store.books["b"].totalCopies == 1
  {
    var s0 := Store(map["b" := Book("Dune", 1, 1)], []);
    var s1 := Issue(s0, "b", "s", 0).store;
    assert s1.books["b"].availableCopies == 0 && |s1.ledger| == 1;
    assert s1.ledger[0].status == Borrowed && s1.ledger[0].borrowDate == 0 && s1.ledger[0].bookID == "b";
    assert DaysElapsed(0, 20 * MsPerDay) == 20;
    var r2 := Return(s1, 0, 20 * MsPerDay);
    assert r2.store.books["b"].availableCopies == 1 && |r2.store.ledger| == 1;
    assert r2.store.ledger[0].status == Overdue && r2.store.ledger[0].bookID == "b";
    var r3 := Return(r2.store, 0, 21 * MsPerDay);
    assert r3.store.books["b"] == r2.store.books["b"].(availableCopies := 2);
  }

  /** A full loan cycle within the loan period: no fine, record "returned", shelf restored. */
  lemma LoanWithinPeriodRestoresShelf(s: Store, bookID: DocId, student: DocId, borrowed: Millis, returned: Millis)
    requires bookID in s.books && s.books[bookID].availableCopies > 0 && s.books[bookID].title != ""
    requires student != "" && bookID != ""
    requires borrowed <= returned < borrowed + (LoanDays + 1) * MsPerDay
    ensures
      var s1 := Issue(s, bookID, student, borrowed).store;
      var r := Return(s1, |s.ledger|, returned);
      && r.reply.status == Ok
      && r.fine == Some("No fine")
      && r.store.ledger[|s.ledger|].status == Returned
      && r.store.ledger[|s.ledger|].fine == 0
      && r.store.books == s.books
  {
    var s1 := Issue(s, bookID, student, borrowed).store;
    var d := DaysElapsed(borrowed, returned);
    assert d <= LoanDays;
    var r := Return(s1, |s.ledger|, returned);
    assert r.store.books[bookID] == s.books[bookID];
  }

  // ---------------------------------------------------------------------------
  // The controller's handlers, step by step

  /** The book collection and the ledger as the request handlers update them. */
  class LibraryDesk {
    var books: map<DocId, Book>
    var ledger: seq<Transaction>

    function State(): Store
      reads this
    {
      Store(books, ledger)
    }

    constructor (books: map<DocId, Book>)
      ensures State() == Store(books, [])
    {
      this.books := books;
      this.ledger := [];
    }

    /** `issueBook`: check the request and the stock, record the loan, take one copy off the shelf. */
    method IssueBook(bookID: DocId, borrowedBy: DocId, now: Millis) returns (reply: Reply)
      modifies this
      ensures Response(reply, None, State()) == Issue(old(State()), bookID, borrowedBy, now)
    {
      if bookID == "" || borrowedBy == "" {
        return Reply(BadRequest, "Book ID and Student ID are required");
      }
      if bookID !in books {
        return Reply(NotFound, "Book not found");
      }
      var book := books[bookID];
      if book.availableCopies <= 0 {
        return Reply(BadRequest, "Book is not available");
      }
      if book.title == "" {
        return Reply(ServerError, "Internal server error");
      }
      var transaction := Transaction(bookID, book.title, borrowedBy, now, None, Borrowed, 0);
      ledger := ledger + [transaction];
      book := book.(availableCopies := book.availableCopies - 1);
      books := books[bookID := book];
      reply := Reply(Created, "Book issued successfully");
    }

    /** `returnBook`: close the record with its fine, then give the copy back if the book still exists. */
    method ReturnBook(txId: int, now: Millis) returns (reply: Reply, fine: Option<string>)
      modifies this
      ensures Response(reply, fine, State()) == Return(old(State()), txId, now)
    {
      if !(0 <= txId < |ledger|) {
        return Reply(NotFound, "Transaction not found"), None;
      }
      var transaction := ledger[txId];
      if transaction.status == Returned {
        return Reply(BadRequest, "Book already returned"), None;
      }
      var days := DaysElapsed(transaction.borrowDate, now);
      var amount := 0;
      if days > LoanDays {
        amount := (days - LoanDays) * FinePerDay;
      }
      transaction := transaction.(returnDate := Some(now));
      transaction := transaction.(status := if amount > 0 then Overdue else Returned);
      transaction := transaction.(fine := amount);
      ledger := ledger[txId := transaction];
      if transaction.bookID in books {
        var book := books[transaction.bookID];
        book := book.(availableCopies := book.availableCopies + 1);
        books := books[transaction.bookID := book];
      }
      reply := Reply(Ok, "Book returned successfully");
      fine := Some(FineText(amount));
    }

    /** `updateFine`: validate the amount, then overwrite the record's fine. */
    method UpdateFine(txId: int, fine: Option<int>) returns (reply: Reply)
      modifies this
      ensures Response(reply, None, State()) == SetFine(old(State()), txId, fine)
    {
      if fine.None? || fine.value < 0 {
        return Reply(BadRequest, "Valid fine amount is required");
      }
      if !(0 <= txId < |ledger|) {
        return Reply(NotFound, "Transaction not found");
      }
      ledger := ledger[txId := ledger[txId].(fine := fine.value)];
      reply := Reply(Ok, "Fine updated successfully");
    }

    /** `calculateFine`: read-only. */
    method CalculateFine(txId: int, now: Millis) returns (reply: Reply, quote: Option<FineQuote>)
      ensures (reply, quote) == Quote(State(), txId, now)
    {
      if !(0 <= txId < |ledger|) {
        return Reply(NotFound, "Transaction not found"), None;
      }
      var days := DaysElapsed(ledger[txId].borrowDate, now);
      var amount := 0;
      if days > LoanDays {
        amount := (days - LoanDays) * FinePerDay;
      }
      var overdue := if 0 >= days - LoanDays then 0 else days - LoanDays;
      reply := Reply(Ok, "");
      quote := Some(FineQuote(days, LoanDays, FineText(amount), overdue));
    }
  }
}
