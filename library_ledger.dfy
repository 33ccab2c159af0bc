/**
  * The library ledger record (one document per borrow event): its fields, the
  * three-valued status with its default, and the validation the schema
  * applies when a record is saved.
  */
module LibraryLedger {
  import opened Wrappers

  /** Document identifiers (MongoDB object ids) as their string form. */
  type DocId = string

  /** A point in time in milliseconds since the epoch (what `new Date()` carries). */
  type Millis = int

  datatype TxStatus = Borrowed | Returned | Overdue

  /** The status as stored: one of the enum strings "borrowed", "returned", "overdue". */
  function StatusName(s: TxStatus): string {
    match s
    case Borrowed => "borrowed"
    case Returned => "returned"
    case Overdue => "overdue"
  }

  /** The enum validator: a string is accepted exactly when it names a status. */
  function ParseStatus(name: string): (r: Option<TxStatus>)
    ensures r.Some? ==> StatusName(r.value) == name
    ensures r.None? ==> forall s: TxStatus :: StatusName(s) != name
  {
    if name == "borrowed" then Some(Borrowed)
    else if name == "returned" then Some(Returned)
    else if name == "overdue" then Some(Overdue)
    else None
  }

  lemma ParseStatusName(s: TxStatus)
    ensures ParseStatus(StatusName(s)) == Some(s)
  {
  }

  /** A saved ledger record. */
  datatype Transaction = Transaction(
    bookID: DocId,
    bookTitle: string,
    borrowedBy: DocId,
    borrowDate: Millis,
    returnDate: Option<Millis>,
    status: TxStatus,
    fine: int)

  /** A record as handed to the model constructor: every field may be absent. */
  datatype TransactionInput = TransactionInput(
    bookID: Option<DocId>,
    bookTitle: Option<string>,
    borrowedBy: Option<DocId>,
    borrowDate: Option<Millis>,
    returnDate: Option<Millis>,
    status: Option<string>,
    fine: Option<int>)

  /** A required field is present and, for strings, not empty. */
  predicate Present(v: Option<string>) {
    v.Some? && v.value != ""
  }

  /** The constraints every saved record satisfies. */
  predicate WellFormed(t: Transaction) {
    t.bookID != "" && t.bookTitle != "" && t.borrowedBy != "" && t.fine >= 0
  }

  /**
    * Schema validation: the names of the failing fields in declaration order,
    * or the record with `status` defaulted to "borrowed" and `fine` to 0.
    */
  datatype Validation = Valid(record: Transaction) | Invalid(fields: seq<string>)

  function FailingFields(t: TransactionInput): seq<string> {
    (if Present(t.bookID) then [] else ["bookID"])
    + (if Present(t.bookTitle) then [] else ["bookTitle"])
    + (if Present(t.borrowedBy) then [] else ["borrowedBy"])
    + (if t.borrowDate.Some? then [] else ["borrowDate"])
    + (if t.status.None? || ParseStatus(t.status.value).Some? then [] else ["status"])
    + (if t.fine.None? || t.fine.value >= 0 then [] else ["fine"])
  }

  function Validate(t: TransactionInput): (v: Validation)
    ensures v.Valid? <==>
      Present(t.bookID) && Present(t.bookTitle) && Present(t.borrowedBy) && t.borrowDate.Some?
      && (t.status.None? || ParseStatus(t.status.value).Some?)
      && (t.fine.None? || t.fine.value >= 0)
    ensures v.Valid? ==> WellFormed(v.record)
    ensures v.Valid? ==>
      && v.record.bookID == t.bookID.value && v.record.bookTitle == t.bookTitle.value
      && v.record.borrowedBy == t.borrowedBy.value && v.record.borrowDate == t.borrowDate.value
    ensures v.Valid? && t.status.None? ==> v.record.status == Borrowed
    ensures v.Valid? && t.status.Some? ==> StatusName(v.record.status) == t.status.value
    ensures v.Valid? ==> v.record.fine == t.fine.GetOr(0)
    ensures v.Valid? ==> v.record.returnDate == t.returnDate
    ensures v.Invalid? ==> |v.fields| > 0
  {
    var failing := FailingFields(t);
    if failing != [] then Invalid(failing)
    else
      Valid(Transaction(
        t.bookID.value, t.bookTitle.value, t.borrowedBy.value, t.borrowDate.value, t.returnDate,
        if t.status.None? then Borrowed else ParseStatus(t.status.value).value,
        t.fine.GetOr(0)))
  }
}
