/** Symbol search (`searchStocks`, src/services/stockAPI.js:459-491): the
    provider's best matches capped at 25, or, when the request fails or the
    provider reports an error, a static list of six popular stocks filtered
    by case-insensitive substring match on symbol or name. */
module Search {
  import opened Common

  datatype SearchResult = SearchResult(symbol: string, name: string, securityType: string, region: string)

  /** The provider's answer: a failure (network error, unreadable body, or an
      error message in the payload), or a payload with or without a
      `bestMatches` array. */
  datatype SearchOutcome = SearchFailed | Matches(best: Option<seq<SearchResult>>)

  const MaxResults: nat := 25

  function Popular(symbol: string, name: string): SearchResult
  {
    SearchResult(symbol, name, "Equity", "United States")
  }

  /** The static fallback list, in its fixed order. */
  const PopularStocks: seq<SearchResult> := [
    Popular("AAPL", "Apple Inc."),
    Popular("MSFT", "Microsoft Corporation"),
    Popular("GOOGL", "Alphabet Inc."),
    Popular("TSLA", "Tesla, Inc."),
    Popular("AMZN", "Amazon.com, Inc."),
    Popular("NVDA", "NVIDIA Corporation")
  ]

  /** Lower-case symbol or lower-case name contains the lower-case query. */
  predicate MatchesQuery(query: string, s: SearchResult)
  {
    Contains(Lower(s.symbol), Lower(query)) || Contains(Lower(s.name), Lower(query))
  }

  /** The fallback: exactly the static entries matching the query, in the
      list's order. */
  function FallbackSearch(query: string): (r: seq<SearchResult>)
    ensures |r| <= |PopularStocks|
    ensures forall s :: s in r <==> s in PopularStocks && MatchesQuery(query, s)
    ensures Subsequence(r, PopularStocks)
  {
    var keep := (s: SearchResult) => MatchesQuery(query, s);
    FilterIsSubsequence(PopularStocks, keep);
    FilterMember(PopularStocks, keep);
    Filter(PopularStocks, keep)
  }

  /** `searchStocks(query)`: never fails. A payload's best matches are cut
      to their first 25; a payload without them gives no results; a failure
      gives the filtered fallback list. */
  function SearchStocks(query: string, outcome: SearchOutcome): (r: seq<SearchResult>)
    ensures outcome.Matches? && outcome.best.Some? ==>
      |r| <= MaxResults && r <= outcome.best.value &&
      (|outcome.best.value| >= MaxResults ==> |r| == MaxResults) &&
      (|outcome.best.value| < MaxResults ==> r == outcome.best.value)
    ensures outcome == Matches(None) ==> r == []
    ensures outcome.SearchFailed? ==> r == FallbackSearch(query)
  {
    match outcome
    case SearchFailed => FallbackSearch(query)
    case Matches(None) => []
    case Matches(Some(best)) => Take(best, MaxResults)
  }

  /** An empty query matches every fallback entry. */
  lemma {:induction false} EmptyQueryListsAll()
    ensures SearchStocks("", SearchFailed) == PopularStocks
  {
    var keep := (s: SearchResult) => MatchesQuery("", s);
    forall i | 0 <= i < |PopularStocks|
      ensures keep(PopularStocks[i])
    {
      assert OccursAt(Lower(PopularStocks[i].symbol), "", 0);
    }
    FilterKeepsAll(PopularStocks, keep);
  }

  /** The fallback is case-insensitive: "apple" finds Apple Inc. by name. */
  lemma {:induction false} LowerCaseNameFindsApple()
    ensures Popular("AAPL", "Apple Inc.") in SearchStocks("apple", SearchFailed)
  {
    var apple := Popular("AAPL", "Apple Inc.");
    assert Lower("apple") == "apple";
    assert Lower("Apple Inc.")[0..5] == "apple";
    assert OccursAt(Lower(apple.name), Lower("apple"), 0);
    assert apple == PopularStocks[0];
  }
}
