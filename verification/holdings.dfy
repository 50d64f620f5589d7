/** The portfolio and watchlist state transitions of the application shell
    (src/App.js:232-306): buying shares of a symbol (a merge into an existing
    holding at the weighted-average cost, or a new holding at the end),
    refreshing current prices from a batch of quotes, and adding to and
    removing from the watchlist. Persistence to `localStorage` and the React
    state setters are left out; each operation returns the new list. */
module Holdings {
  import opened Common
  import opened Quotes

  datatype Holding = Holding(symbol: string, shares: real, avgPrice: real, currentPrice: real, addedDate: string)

  predicate HasSymbol(symbol: string, h: Holding)
  {
    h.symbol == symbol
  }

  predicate Held(p: seq<Holding>, symbol: string)
  {
    exists i :: 0 <= i < |p| && p[i].symbol == symbol
  }

  /** `new Set(portfolio.map(p => p.symbol))`: the symbols of the holdings,
      as the ratings and news panels build it. */
  function HoldingSet(p: seq<Holding>): (r: set<string>)
    ensures forall s :: s in r <==> Held(p, s)
  {
    set i | 0 <= i < |p| :: p[i].symbol
  }

  /** Every holding has a positive share count: what the add dialog's guard
      keeps true. */
  predicate PositiveShares(p: seq<Holding>)
  {
    forall i :: 0 <= i < |p| ==> p[i].shares > 0.0
  }

  predicate UniqueSymbols(p: seq<Holding>)
  {
    forall i, j :: 0 <= i < j < |p| ==> p[i].symbol != p[j].symbol
  }

  function Min(a: real, b: real): real { if a <= b then a else b }
  function Max(a: real, b: real): real { if a <= b then b else a }

  /** The cost-weighted average price of `a` shares at `x` and `b` shares
      at `y`: the price at which the combined shares cost what the parts
      cost, which lies between the two prices. */
  function WeightedAverage(a: real, x: real, b: real, y: real): (avg: real)
    requires a > 0.0 && b > 0.0
    ensures (a + b) * avg == a * x + b * y
    ensures Min(x, y) <= avg <= Max(x, y)
  {
    var avg := (a * x + b * y) / (a + b);
    assert avg * (a + b) == a * x + b * y;
    if x <= y then
      assert b * x <= b * y && a * x <= a * y;
      assert (a + b) * x <= avg * (a + b) <= (a + b) * y;
      avg
    else
      assert b * y <= b * x && a * y <= a * x;
      assert (a + b) * y <= avg * (a + b) <= (a + b) * x;
      avg
  }

  /** `portfolio.find(stock => stock.symbol === symbol)`. */
  function Existing(p: seq<Holding>, symbol: string): (r: Option<Holding>)
    ensures r.None? <==> !Held(p, symbol)
    ensures r.Some? ==>
      (exists k :: 0 <= k < |p| && p[k] == r.value && (forall j :: 0 <= j < k ==> p[j].symbol != symbol))
    ensures r.Some? ==> r.value in p && r.value.symbol == symbol
  {
    match FirstIndex(p, (h: Holding) => HasSymbol(symbol, h))
    case Some(k) => Some(p[k])
    case None => None
  }

  /** Every holding of `symbol` set to the merged position; the others as
      they were. */
  function MergeInto(p: seq<Holding>, symbol: string, total: real, avg: real, price: real): (r: seq<Holding>)
    ensures |r| == |p|
    ensures forall i :: 0 <= i < |p| && p[i].symbol != symbol ==> r[i] == p[i]
    ensures forall i :: 0 <= i < |p| && p[i].symbol == symbol ==>
      r[i] == p[i].(shares := total, avgPrice := avg, currentPrice := price)
  {
    seq(|p|, i requires 0 <= i < |p| =>
      if p[i].symbol == symbol then p[i].(shares := total, avgPrice := avg, currentPrice := price) else p[i])
  }

  /** `h` is the holding `before` after buying `shares` at `price` into the
      held position `e`: same symbol and added date, the quote price as
      current price, the combined share count, and an average price at which
      the combined shares cost what the parts cost, between the two prices. */
  predicate MergedFrom(h: Holding, before: Holding, e: Holding, shares: real, price: real)
  {
    && h.symbol == before.symbol && h.addedDate == before.addedDate && h.currentPrice == price
    && h.shares == e.shares + shares
    && h.shares * h.avgPrice == e.shares * e.avgPrice + shares * price
    && Min(e.avgPrice, price) <= h.avgPrice <= Max(e.avgPrice, price)
  }

  /** `addToPortfolio(symbol, shares)` once the quote has arrived with
      `price` (the quote lookup never fails, so the rethrow is unreachable).
      An already held symbol is merged: every holding with that symbol gets
      the first one's shares plus the new ones, the cost-weighted average
      price and the quote price as current price, and keeps its own added
      date; otherwise one new holding is appended, bought at the quote
      price. */
  function AddToPortfolio(p: seq<Holding>, symbol: string, shares: real, price: real, addedDate: string): (r: seq<Holding>)
    requires shares > 0.0 && PositiveShares(p)
    ensures PositiveShares(r)
    ensures !Held(p, symbol) ==> r == p + [Holding(symbol, shares, price, price, addedDate)]
    ensures Held(p, symbol) ==> |r| == |p|
    ensures Held(p, symbol) ==> forall i :: 0 <= i < |p| && p[i].symbol != symbol ==> r[i] == p[i]
    ensures Existing(p, symbol).Some? ==> forall i :: 0 <= i < |p| && p[i].symbol == symbol ==>
      MergedFrom(r[i], p[i], Existing(p, symbol).value, shares, price)
  {
    match Existing(p, symbol)
    case None => p + [Holding(symbol, shares, price, price, addedDate)]
    case Some(e) =>
      MergedPosition(p, symbol, e, shares, price);
      MergeInto(p, symbol, e.shares + shares, WeightedAverage(e.shares, e.avgPrice, shares, price), price)
  }

  /** What merging a purchase into the held position `e` leaves in every
      holding of its symbol. */
  lemma MergedPosition(p: seq<Holding>, symbol: string, e: Holding, shares: real, price: real)
    requires shares > 0.0 && PositiveShares(p) && e in p
    ensures e.shares > 0.0
    ensures var r := MergeInto(p, symbol, e.shares + shares, WeightedAverage(e.shares, e.avgPrice, shares, price), price);
      && PositiveShares(r)
      && forall i :: 0 <= i < |p| && p[i].symbol == symbol ==> MergedFrom(r[i], p[i], e, shares, price)
  {
    var k :| 0 <= k < |p| && p[k] == e;
    assert e.shares > 0.0;
    var total := e.shares + shares;
    var avg := WeightedAverage(e.shares, e.avgPrice, shares, price);
    assert total * avg == e.shares * e.avgPrice + shares * price;
    var r := MergeInto(p, symbol, total, avg, price);
    forall i | 0 <= i < |p|
      ensures r[i].shares > 0.0
      ensures p[i].symbol == symbol ==> MergedFrom(r[i], p[i], e, shares, price)
    {
      if p[i].symbol == symbol {
        MergedOne(r[i], p[i], e, shares, price, total, avg);
      }
    }
  }

  lemma MergedOne(h: Holding, before: Holding, e: Holding, shares: real, price: real, total: real, avg: real)
    requires shares > 0.0 && e.shares > 0.0
    requires total == e.shares + shares && avg == WeightedAverage(e.shares, e.avgPrice, shares, price)
    requires h == before.(shares := total, avgPrice := avg, currentPrice := price)
    ensures MergedFrom(h, before, e, shares, price)
  {
  }

  /** Buying never creates a second holding for a symbol. */
  lemma AddKeepsSymbolsUnique(p: seq<Holding>, symbol: string, shares: real, price: real, addedDate: string)
    requires shares > 0.0 && PositiveShares(p) && UniqueSymbols(p)
    ensures UniqueSymbols(AddToPortfolio(p, symbol, shares, price, addedDate))
  {
  }

  /** `quotes.find(q => q.symbol === symbol)`: the first quote for the
      symbol, if any. */
  function QuoteFor(quotes: seq<Quote>, symbol: string): (r: Option<Quote>)
    ensures r.Some? ==> r.value in quotes && r.value.symbol == symbol
    ensures r.None? <==> forall j :: 0 <= j < |quotes| ==> quotes[j].symbol != symbol
    ensures r.Some? ==>
      (exists k :: 0 <= k < |quotes| && quotes[k] == r.value && (forall j :: 0 <= j < k ==> quotes[j].symbol != symbol))
  {
    match FirstIndex(quotes, (q: Quote) => q.symbol == symbol)
    case Some(k) => Some(quotes[k])
    case None => None
  }

  /** `updatePortfolioData` once the batch of quotes has arrived: same
      holdings in the same order, each with only its current price changed,
      to the price of the first quote for its symbol when there is one. */
  function UpdatePortfolioData(p: seq<Holding>, quotes: seq<Quote>): (r: seq<Holding>)
    ensures |r| == |p|
    ensures forall i :: 0 <= i < |p| ==> r[i].(currentPrice := p[i].currentPrice) == p[i]
    ensures forall i :: 0 <= i < |p| ==>
      match QuoteFor(quotes, p[i].symbol)
      case Some(q) => r[i].currentPrice == q.price
      case None => r[i] == p[i]
  {
    seq(|p|, i requires 0 <= i < |p| =>
      match QuoteFor(quotes, p[i].symbol)
      case Some(q) => p[i].(currentPrice := q.price)
      case None => p[i])
  }

  /** Refreshing twice with the same quotes is refreshing once. */
  lemma {:induction false} UpdateIdempotent(p: seq<Holding>, quotes: seq<Quote>)
    ensures UpdatePortfolioData(UpdatePortfolioData(p, quotes), quotes) == UpdatePortfolioData(p, quotes)
  {
    var once := UpdatePortfolioData(p, quotes);
    var twice := UpdatePortfolioData(once, quotes);
    forall i | 0 <= i < |p|
      ensures twice[i] == once[i]
    {
      assert once[i].symbol == p[i].symbol;
    }
  }

  // ---------------------------------------------------------------------
  // Watchlist
  // ---------------------------------------------------------------------

  predicate NoDuplicates(w: seq<string>)
  {
    forall i, j :: 0 <= i < j < |w| ==> w[i] != w[j]
  }

  /** `addToWatchlist`: appends the symbol only when it is absent. */
  function AddToWatchlist(w: seq<string>, symbol: string): (r: seq<string>)
    ensures symbol in r && w <= r
    ensures |r| == if symbol in w then |w| else |w| + 1
    ensures forall x :: x in r <==> x in w || x == symbol
  {
    if symbol in w then w else w + [symbol]
  }

  /** Adding is idempotent and never introduces a duplicate. */
  lemma AddToWatchlistIdempotent(w: seq<string>, symbol: string)
    ensures AddToWatchlist(AddToWatchlist(w, symbol), symbol) == AddToWatchlist(w, symbol)
    ensures NoDuplicates(w) ==> NoDuplicates(AddToWatchlist(w, symbol))
  {
  }

  /** `removeFromWatchlist`: every occurrence of the symbol goes, the rest
      keep their order. */
  function RemoveFromWatchlist(w: seq<string>, symbol: string): (r: seq<string>)
    ensures symbol !in r
    ensures forall x :: x in r <==> x in w && x != symbol
    ensures Subsequence(r, w)
    ensures forall x :: multiset(r)[x] == if x != symbol then multiset(w)[x] else 0
    ensures symbol !in w ==> r == w
  {
    var keep := (x: string) => x != symbol;
    FilterCount(w, keep);
    FilterIsSubsequence(w, keep);
    FilterMember(w, keep);
    if symbol in w then Filter(w, keep)
    else
      FilterKeepsAll(w, keep);
      Filter(w, keep)
  }

  /** Removing a symbol just added to a watchlist that lacked it restores
      the watchlist. */
  lemma {:induction false} RemoveUndoesAdd(w: seq<string>, symbol: string)
    requires symbol !in w
    ensures RemoveFromWatchlist(AddToWatchlist(w, symbol), symbol) == w
  {
    var keep := (x: string) => x != symbol;
    FilterConcat(w, [symbol], keep);
    FilterKeepsAll(w, keep);
    assert Filter([symbol], keep) == [];
  }
}
