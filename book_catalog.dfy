/**
  * The student's book catalog page: the search and category filters, the
  * availability badge, and the category list offered for filtering.
  */
module BookCatalog {
  import opened Wrappers
  import opened Text
  import opened Seqs
  import opened Choices

  /** A catalog entry as the page reads it; every field may be missing. */
  datatype CatalogBook = CatalogBook(
    title: Option<string>,
    author: Option<string>,
    isbn: Option<string>,
    publisher: Option<string>,
    category: Option<string>,
    totalCopies: Option<int>,
    issuedCopies: Option<int>)

  /** `field?.toLowerCase().includes(search)`: a missing field never matches. */
  predicate FieldMatches(field: Option<string>, search: string) {
    field.Some? && Contains(ToLower(field.value), search)
  }

  /** The search term, lower-cased but not trimmed, occurs in the title, author, isbn or publisher. */
  predicate MatchesSearch(b: CatalogBook, term: string) {
    var search := ToLower(term);
    FieldMatches(b.title, search) || FieldMatches(b.author, search)
    || FieldMatches(b.isbn, search) || FieldMatches(b.publisher, search)
  }

  /** `book.category?.toLowerCase() === selectedCategory.toLowerCase()`. */
  predicate MatchesCategory(b: CatalogBook, selected: string) {
    b.category.Some? && EqualsIgnoreCase(b.category.value, selected)
  }

  /**
    * `filterBooks`: the text filter applies only when the term is not blank
    * after trimming, the category filter only when the selection is not
    * "all". The result keeps catalog order.
    */
  function FilterBooks(books: seq<CatalogBook>, term: string, selected: string): (r: seq<CatalogBook>)
    ensures IsSubsequence(r, books)
    ensures forall i :: 0 <= i < |r| ==>
      && r[i] in books
      && (IsBlank(term) || MatchesSearch(r[i], term))
      && (selected == "all" || MatchesCategory(r[i], selected))
    ensures forall i :: 0 <= i < |books| ==>
      (IsBlank(term) || MatchesSearch(books[i], term)) && (selected == "all" || MatchesCategory(books[i], selected))
      ==> books[i] in r
  {
    TrimEmptyIffBlank(term);
    var bySearch := if Trim(term) != "" then Filter(books, (b: CatalogBook) => MatchesSearch(b, term)) else books;
    var byCategory := if selected != "all" then Filter(bySearch, (b: CatalogBook) => MatchesCategory(b, selected)) else bySearch;
    SubsequenceReflexive(books);
    SubsequenceReflexive(bySearch);
    SubsequenceTransitive(byCategory, bySearch, books);
    byCategory
  }

  /** With a blank term and "all", the catalog is shown whole. */
  lemma NoFilterKeepsCatalog(books: seq<CatalogBook>, term: string)
    requires IsBlank(term)
    ensures FilterBooks(books, term, "all") == books
  {
    TrimEmptyIffBlank(term);
  }

  // ---------------------------------------------------------------------------
  // getAvailabilityBadge

  datatype Variant = Success | Warning | Error

  datatype Badge = Badge(variant: Variant, text: string)

  /** `(book.totalCopies || 0) - (book.issuedCopies || 0)`. */
  function Available(b: CatalogBook): int {
    b.totalCopies.GetOr(0) - b.issuedCopies.GetOr(0)
  }

  /** More than five copies: "Available"; one to five: "N left"; none or fewer: "Not Available". */
  function AvailabilityBadge(b: CatalogBook): (r: Badge)
    ensures r == Badge(Success, "Available") <==> Available(b) > 5
    ensures r.variant == Warning <==> 0 < Available(b) <= 5
    ensures r.variant == Warning ==> r.text == NatToString(Available(b)) + " left"
    ensures r == Badge(Error, "Not Available") <==> Available(b) <= 0
  {
    var available := Available(b);
    if available > 5 then Badge(Success, "Available")
    else if available > 0 then Badge(Warning, NatToString(available) + " left")
    else Badge(Error, "Not Available")
  }

  function Rank(v: Variant): nat {
    match v
    case Error => 0
    case Warning => 1
    case Success => 2
  }

  /** A book with more copies available never shows a worse badge. */
  lemma AvailabilityBadgeMonotone(a: CatalogBook, b: CatalogBook)
    requires Available(a) <= Available(b)
    ensures Rank(AvailabilityBadge(a).variant) <= Rank(AvailabilityBadge(b).variant)
  {
  }

  // ---------------------------------------------------------------------------
  // categories

  function CategoryOf(b: CatalogBook): Option<string> {
    b.category
  }

  /**
    * `["all", ...new Set(books.map(b => b.category).filter(Boolean))]`: "all",
    * then every non-empty category once, in order of first appearance.
    */
  function Categories(books: seq<CatalogBook>): (r: seq<string>)
    ensures |r| >= 1 && r[0] == "all"
    ensures NoDuplicates(r[1..])
    ensures forall i :: 1 <= i < |r| ==> r[i] != "" && exists k :: 0 <= k < |books| && books[k].category == Some(r[i])
    ensures forall k :: 0 <= k < |books| && books[k].category.Some? && books[k].category.value != "" ==>
              books[k].category.value in r[1..]
  {
    var categories := Map(books, CategoryOf);
    var r := WithAll(categories);
    forall i | 1 <= i < |r|
      ensures exists k :: 0 <= k < |books| && books[k].category == Some(r[i])
    {
      var k :| 0 <= k < |categories| && categories[k] == Some(r[i]);
      assert books[k].category == Some(r[i]);
    }
    r
  }
}
