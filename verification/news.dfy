/** The news panel's grouping (src/components/News.js:40-49): stories
    tagged with a held symbol, then stories tagged with a popular symbol,
    then the rest, macro stories without symbols among them. */
module News {
  import opened Common
  import opened Holdings
  import opened Partition

  /** A story; `symbols` is None when the story has no symbol list. */
  datatype NewsItem = NewsItem(title: string, source: string, symbols: Option<seq<string>>)

  const PopularNews: set<string> := {"AAPL", "MSFT", "GOOGL", "NVDA", "AMZN", "TSLA", "META", "NFLX", "XOM", "CVX"}

  /** `item.symbols?.some(s => set.has(s))`: a missing list matches
      nothing. */
  predicate MatchesAny(item: NewsItem, symbols: set<string>)
  {
    item.symbols.Some? && exists i :: 0 <= i < |item.symbols.value| && item.symbols.value[i] in symbols
  }

  /** `holdingsNews`, `popularNews` and `restNews`. */
  function NewsSections(news: seq<NewsItem>, p: seq<Holding>): (r: Sections<NewsItem>)
    ensures forall n :: n in r.holdings <==> n in news && MatchesAny(n, HoldingSet(p))
    ensures forall n :: n in r.popular <==>
      n in news && !MatchesAny(n, HoldingSet(p)) && MatchesAny(n, PopularNews)
    ensures forall n :: n in r.rest <==>
      n in news && !MatchesAny(n, HoldingSet(p)) && !MatchesAny(n, PopularNews)
    ensures multiset(r.holdings) + multiset(r.popular) + multiset(r.rest) == multiset(news)
    ensures Subsequence(r.holdings, news) && Subsequence(r.popular, news) && Subsequence(r.rest, news)
  {
    var held := HoldingSet(p);
    Split3(news, (n: NewsItem) => MatchesAny(n, held), (n: NewsItem) => MatchesAny(n, PopularNews))
  }

  /** A story with an empty or missing symbol list always lands in the
      rest, whatever the portfolio. */
  lemma MacroNewsInRest(news: seq<NewsItem>, p: seq<Holding>, n: NewsItem)
    requires n in news && (n.symbols.None? || n.symbols.value == [])
    ensures n in NewsSections(news, p).rest
    ensures n !in NewsSections(news, p).holdings && n !in NewsSections(news, p).popular
  {
  }

  /** A story tagged with a held symbol is a holdings story even when it
      also names popular symbols. */
  lemma HeldTagWins(news: seq<NewsItem>, p: seq<Holding>, n: NewsItem, k: nat)
    requires n in news && n.symbols.Some? && k < |n.symbols.value| && Held(p, n.symbols.value[k])
    ensures n in NewsSections(news, p).holdings
    ensures n !in NewsSections(news, p).popular && n !in NewsSections(news, p).rest
  {
    assert n.symbols.value[k] in HoldingSet(p);
  }
}
