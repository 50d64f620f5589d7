/** The analyst-ratings panel's row selection
    (src/components/AnalystRatings.js:12-21): the ratings for the symbol in
    view, or all of them, split into holdings, popular and other rows. */
module AnalystRatings {
  import opened Common
  import opened Holdings
  import opened Partition

  datatype Rating = Rating(date: string, symbol: string, firm: string, action: string,
                           fromRating: string, toRating: string, priceTarget: real)

  const PopularRated: set<string> := {"AAPL", "MSFT", "GOOGL", "NVDA", "AMZN", "TSLA", "META", "NFLX"}

  predicate IsFor(symbol: string, r: Rating)
  {
    r.symbol == symbol
  }

  /** `filtered`: with a symbol (non-empty), exactly its ratings in order;
      without one, all ratings. */
  function Filtered(ratings: seq<Rating>, symbol: string): (r: seq<Rating>)
    ensures symbol == "" ==> r == ratings
    ensures symbol != "" ==> forall x :: x in r <==> x in ratings && x.symbol == symbol
    ensures Subsequence(r, ratings)
    ensures symbol != "" ==> forall x :: multiset(r)[x] == if x.symbol == symbol then multiset(ratings)[x] else 0
  {
    var keep := (x: Rating) => IsFor(symbol, x);
    FilterCount(ratings, keep);
    FilterMember(ratings, keep);
    FilterIsSubsequence(ratings, keep);
    FilterKeepsAll(ratings, (x: Rating) => true);
    FilterIsSubsequence(ratings, (x: Rating) => true);
    if symbol == "" then ratings else Filter(ratings, keep)
  }

  /** The three tables: holdings rows, popular rows that are not holdings
      rows, and the rest. */
  function RatingSections(ratings: seq<Rating>, symbol: string, p: seq<Holding>): (r: Sections<Rating>)
    ensures forall x :: x in r.holdings <==> x in Filtered(ratings, symbol) && Held(p, x.symbol)
    ensures forall x :: x in r.popular <==>
      x in Filtered(ratings, symbol) && !Held(p, x.symbol) && x.symbol in PopularRated
    ensures forall x :: x in r.rest <==>
      x in Filtered(ratings, symbol) && !Held(p, x.symbol) && x.symbol !in PopularRated
    ensures multiset(r.holdings) + multiset(r.popular) + multiset(r.rest) == multiset(Filtered(ratings, symbol))
    ensures Subsequence(r.holdings, Filtered(ratings, symbol))
    ensures Subsequence(r.popular, Filtered(ratings, symbol))
    ensures Subsequence(r.rest, Filtered(ratings, symbol))
  {
    var holdings := HoldingSet(p);
    Split3(Filtered(ratings, symbol), (x: Rating) => x.symbol in holdings, (x: Rating) => x.symbol in PopularRated)
  }

  /** A held symbol's ratings are all in the holdings table, even when the
      symbol is also a popular one. */
  lemma HoldingsTakePrecedence(ratings: seq<Rating>, symbol: string, p: seq<Holding>, x: Rating)
    requires x in ratings && Held(p, x.symbol) && (symbol == "" || symbol == x.symbol)
    ensures x in RatingSections(ratings, symbol, p).holdings
    ensures x !in RatingSections(ratings, symbol, p).popular
    ensures x !in RatingSections(ratings, symbol, p).rest
  {
  }
}
