/**
  * The join-sport page: the search filter. Its joined-sport test and its
  * "available" figure are `Seqs.AnyHasKey` and `Seqs.LengthGap`.
  */
module JoinSport {
  import opened Wrappers
  import opened Text
  import opened Seqs
  import BookCatalog

  /** A sport as the page reads it; `coachName` is `sport.coach?.name`. */
  datatype ListedSport = ListedSport(
    id: string,
    sportName: Option<string>,
    description: Option<string>,
    sportID: Option<string>,
    coachName: Option<string>)

  /** The lower-cased term occurs in the name, the description, the sport id or the coach's name. */
  predicate MatchesSearch(s: ListedSport, term: string) {
    var search := ToLower(term);
    BookCatalog.FieldMatches(s.sportName, search)
    || BookCatalog.FieldMatches(s.description, search)
    || BookCatalog.FieldMatches(s.sportID, search)
    || BookCatalog.FieldMatches(s.coachName, search)
  }

  /**
    * `filterSports`: a blank term keeps every sport in order; otherwise the
    * sports that match, in order.
    */
  function FilterSports(all: seq<ListedSport>, term: string): (r: seq<ListedSport>)
    ensures IsBlank(term) ==> r == all
    ensures IsSubsequence(r, all)
    ensures forall i :: 0 <= i < |r| ==> IsBlank(term) || MatchesSearch(r[i], term)
    ensures forall i :: 0 <= i < |all| ==> (IsBlank(term) || MatchesSearch(all[i], term) ==> all[i] in r)
  {
    TrimEmptyIffBlank(term);
    SubsequenceReflexive(all);
    if Trim(term) != "" then Filter(all, (s: ListedSport) => MatchesSearch(s, term)) else all
  }

  /** Searching again with the same term changes nothing. */
  lemma {:induction false} FilterSportsIdempotent(all: seq<ListedSport>, term: string)
    ensures FilterSports(FilterSports(all, term), term) == FilterSports(all, term)
  {
    var r := FilterSports(all, term);
    if !IsBlank(term) {
      TrimEmptyIffBlank(term);
      FilterAll(r, (s: ListedSport) => MatchesSearch(s, term));
    }
  }
}
