/** The stock-search page's list and keyboard rules
    (src/components/StockSearch.js): the recent-search list (move to front,
    no repeated symbol, at most eight), the type-ahead suggestions with their
    keyboard highlight, the timeframe buttons' period tokens, the guard in
    front of the portfolio purchase, and the Gainers/Losers tabs. Debounce
    timers, toasts and `localStorage` are left out; each handler is a pure
    step from the component state it reads to the state it sets. */
module StockSearch {
  import opened Common
  import opened Quotes
  import opened Periods
  import opened Search
  import opened Holdings

  // ---------------------------------------------------------------------
  // Recent searches
  // ---------------------------------------------------------------------

  datatype RecentEntry = RecentEntry(symbol: string, name: string)

  const MaxRecent: nat := 8

  predicate NotSymbol(symbol: string, e: RecentEntry)
  {
    e.symbol != symbol
  }

  predicate UniqueRecent(recent: seq<RecentEntry>)
  {
    forall i, j :: 0 <= i < j < |recent| ==> recent[i].symbol != recent[j].symbol
  }

  /** `persistRecent(symbol, name)`: the new entry first, then the previous
      entries for other symbols in their order, cut to eight. */
  function PersistRecent(recent: seq<RecentEntry>, symbol: string, name: string): (r: seq<RecentEntry>)
    ensures 1 <= |r| <= MaxRecent
    ensures r[0] == RecentEntry(symbol, name)
    ensures forall i :: 1 <= i < |r| ==> r[i].symbol != symbol && r[i] in recent
    ensures Subsequence(r[1..], recent)
    ensures r[1..] <= Filter(recent, (e: RecentEntry) => NotSymbol(symbol, e))
    ensures |r| == if |Filter(recent, (e: RecentEntry) => NotSymbol(symbol, e))| < MaxRecent
      then 1 + |Filter(recent, (e: RecentEntry) => NotSymbol(symbol, e))| else MaxRecent
  {
    var rest := Filter(recent, (e: RecentEntry) => NotSymbol(symbol, e));
    FilterIsSubsequence(recent, (e: RecentEntry) => NotSymbol(symbol, e));
    TakeCons(RecentEntry(symbol, name), rest, MaxRecent);
    SubsequencePrefix(Take(rest, MaxRecent - 1), rest, recent);
    Take([RecentEntry(symbol, name)] + rest, MaxRecent)
  }

  /** Cutting after a fixed first element cuts the rest one shorter. */
  lemma TakeCons<T>(x: T, s: seq<T>, n: nat)
    requires n >= 1
    ensures Take([x] + s, n) == [x] + Take(s, n - 1)
  {
  }

  /** A prefix of a subsequence is a subsequence. */
  lemma {:induction false} SubsequencePrefix<T>(a: seq<T>, b: seq<T>, c: seq<T>)
    requires a <= b && Subsequence(b, c)
    ensures Subsequence(a, c)
    decreases |c|
  {
    if a != [] && c != [] {
      if b[0] == c[0] && Subsequence(b[1..], c[1..]) {
        SubsequencePrefix(a[1..], b[1..], c[1..]);
      } else {
        SubsequencePrefix(a, b, c[1..]);
      }
    }
  }

  /** Recording a symbol that is already at the front again changes
      nothing. */
  lemma {:induction false} PersistRecentTwice(recent: seq<RecentEntry>, symbol: string, name: string)
    ensures PersistRecent(PersistRecent(recent, symbol, name), symbol, name) == PersistRecent(recent, symbol, name)
  {
    var keep := (e: RecentEntry) => NotSymbol(symbol, e);
    var entry := RecentEntry(symbol, name);
    var rest := Filter(recent, keep);
    var once := PersistRecent(recent, symbol, name);
    assert once == [entry] + Take(rest, MaxRecent - 1);
    FilterConcat([entry], Take(rest, MaxRecent - 1), keep);
    assert Filter([entry], keep) == [];
    var kept := Take(rest, MaxRecent - 1);
    assert forall i :: 0 <= i < |kept| ==> keep(kept[i]);
    FilterKeepsAll(kept, keep);
    assert Filter(once, keep) == kept;
    TakeCons(entry, kept, MaxRecent);
    assert Take(kept, MaxRecent - 1) == kept;
    assert PersistRecent(once, symbol, name) == Take([entry] + Filter(once, keep), MaxRecent);
  }

  /** The list never holds two entries for one symbol. */
  lemma PersistRecentKeepsUnique(recent: seq<RecentEntry>, symbol: string, name: string)
    requires UniqueRecent(recent)
    ensures UniqueRecent(PersistRecent(recent, symbol, name))
  {
    var r := PersistRecent(recent, symbol, name);
    var tail := r[1..];
    UniqueOfSubsequence(tail, recent);
    forall i, j | 0 <= i < j < |r|
      ensures r[i].symbol != r[j].symbol
    {
      assert r[j] == tail[j - 1];
      if i > 0 {
        assert r[i] == tail[i - 1];
      }
    }
  }

  /** Deleting entries cannot create a repeated symbol. */
  lemma UniqueOfSubsequence(a: seq<RecentEntry>, b: seq<RecentEntry>)
    requires Subsequence(a, b) && UniqueRecent(b)
    ensures UniqueRecent(a)
  {
    forall i, j | 0 <= i < j < |a|
      ensures a[i].symbol != a[j].symbol
    {
      SubsequenceKeepsOrder(a, b, i, j);
    }
  }

  /** Two positions of a subsequence come from two increasing positions of
      the sequence. */
  lemma {:induction false} SubsequenceKeepsOrder<T>(a: seq<T>, b: seq<T>, i: nat, j: nat)
    requires Subsequence(a, b) && i < j < |a|
    ensures exists p, q :: 0 <= p < q < |b| && b[p] == a[i] && b[q] == a[j]
    decreases |b|
  {
    if a[0] == b[0] && Subsequence(a[1..], b[1..]) {
      if i == 0 {
        SubsequenceMember(a[1..], b[1..], j - 1);
        var q :| 0 <= q < |b[1..]| && b[1..][q] == a[1..][j - 1];
        assert b[0] == a[i] && b[q + 1] == a[j];
      } else {
        SubsequenceKeepsOrder(a[1..], b[1..], i - 1, j - 1);
        var p, q :| 0 <= p < q < |b[1..]| && b[1..][p] == a[1..][i - 1] && b[1..][q] == a[1..][j - 1];
        assert b[p + 1] == a[i] && b[q + 1] == a[j];
      }
    } else {
      SubsequenceKeepsOrder(a, b[1..], i, j);
      var p, q :| 0 <= p < q < |b[1..]| && b[1..][p] == a[i] && b[1..][q] == a[j];
      assert b[p + 1] == a[i] && b[q + 1] == a[j];
    }
  }

  lemma {:induction false} SubsequenceMember<T>(a: seq<T>, b: seq<T>, i: nat)
    requires Subsequence(a, b) && i < |a|
    ensures exists q :: 0 <= q < |b| && b[q] == a[i]
    decreases |b|
  {
    if a[0] == b[0] && Subsequence(a[1..], b[1..]) {
      if i == 0 {
        assert b[0] == a[0];
      } else {
        SubsequenceMember(a[1..], b[1..], i - 1);
        var q :| 0 <= q < |b[1..]| && b[1..][q] == a[1..][i - 1];
        assert b[q + 1] == a[i];
      }
    } else {
      SubsequenceMember(a, b[1..], i);
      var q :| 0 <= q < |b[1..]| && b[1..][q] == a[i];
      assert b[q + 1] == a[i];
    }
  }

  /** What `localStorage` held under the recent-searches key, once parsed:
      an array, or some other JSON value. */
  datatype Saved = SavedArray(entries: seq<RecentEntry>) | SavedOther

  /** Loading on mount: an array is cut to eight entries, anything else
      gives an empty list. */
  function LoadRecent(saved: Saved): (r: seq<RecentEntry>)
    ensures |r| <= MaxRecent
    ensures saved.SavedArray? ==>
      (r <= saved.entries &&
       (|saved.entries| >= MaxRecent ==> |r| == MaxRecent) &&
       (|saved.entries| < MaxRecent ==> r == saved.entries))
    ensures saved.SavedOther? ==> r == []
  {
    match saved
    case SavedArray(entries) => Take(entries, MaxRecent)
    case SavedOther => []
  }

  // ---------------------------------------------------------------------
  // Suggestions and the keyboard highlight
  // ---------------------------------------------------------------------

  const MaxSuggestions: nat := 15

  datatype SuggestBox = SuggestBox(query: string, suggestions: seq<SearchResult>, highlight: int)

  /** JavaScript `%`: the remainder takes the sign of the dividend. */
  function JsRem(a: int, n: int): (r: int)
    requires n > 0
    ensures a >= 0 ==> 0 <= r < n && r == a % n
    ensures a < 0 ==> -n < r <= 0
    ensures 0 <= a < 2 * n ==> r == if a < n then a else a - n
    ensures -n < a < 0 ==> r == a
  {
    RemainderFacts(a, n);
    if a >= 0 then a % n else -((-a) % n)
  }

  /** The Euclidean remainder's range, and its value below twice the
      divisor. */
  lemma RemainderFacts(a: int, n: int)
    requires n > 0
    ensures a < 0 ==> -n < -((-a) % n) <= 0
    ensures -n < a < 0 ==> -((-a) % n) == a
    ensures 0 <= a < n ==> a % n == a
    ensures n <= a < 2 * n ==> a % n == a - n
  {
    if a < 0 {
      NegativeRemainder(a, n);
    } else if a < n {
      SmallRemainder(a, n);
    } else if a < 2 * n {
      WrappedRemainder(a, n);
    }
  }

  lemma NegativeRemainder(a: int, n: int)
    requires n > 0 && a < 0
    ensures -n < -((-a) % n) <= 0
    ensures -n < a ==> -((-a) % n) == a
  {
  }

  lemma SmallRemainder(a: int, n: int)
    requires 0 <= a < n
    ensures a % n == a
  {
  }

  lemma WrappedRemainder(a: int, n: int)
    requires 0 < n <= a < 2 * n
    ensures a % n == a - n
  {
  }

  /** The highlight is on a suggestion, or on none (-1). */
  predicate HighlightInRange(b: SuggestBox)
  {
    b.suggestions == [] || -1 <= b.highlight < |b.suggestions|
  }

  /** The suggestions effect after the debounce: a blank query clears the
      list and the highlight; otherwise the search for the trimmed query,
      cut to fifteen, with no highlight. */
  function OnQueryChange(b: SuggestBox, query: string, outcome: SearchOutcome): (r: SuggestBox)
    ensures r.query == query && r.highlight == -1
    ensures IsBlank(query) ==> r.suggestions == []
    ensures !IsBlank(query) ==>
      (|r.suggestions| <= MaxSuggestions && r.suggestions <= SearchStocks(Trim(query), outcome))
    ensures !IsBlank(query) ==>
      |r.suggestions| == if |SearchStocks(Trim(query), outcome)| < MaxSuggestions
        then |SearchStocks(Trim(query), outcome)| else MaxSuggestions
    ensures HighlightInRange(r)
  {
    TrimEmptyIffBlank(query);
    if Trim(query) == [] then SuggestBox(query, [], -1)
    else SuggestBox(query, Take(SearchStocks(Trim(query), outcome), MaxSuggestions), -1)
  }

  datatype Key = ArrowDown | ArrowUp | Enter | OtherKey

  /** The result of a key press: the new box and the symbol selected by
      Enter, if any. */
  datatype KeyResult = KeyResult(box: SuggestBox, selected: Option<string>)

  /** `onKeyDown`: with no suggestions every key is ignored; the arrows move
      the highlight cyclically; Enter on a highlighted suggestion puts its
      symbol in the query, closes the list and selects it. */
  function OnKeyDown(b: SuggestBox, key: Key): (r: KeyResult)
    requires HighlightInRange(b)
    ensures HighlightInRange(r.box)
    ensures b.suggestions == [] ==> r == KeyResult(b, None)
    ensures b.suggestions != [] && key in {ArrowDown, ArrowUp} ==>
      r.selected == None && r.box.suggestions == b.suggestions && 0 <= r.box.highlight < |b.suggestions|
    ensures b.suggestions != [] && key == ArrowDown ==>
      r.box.highlight == if b.highlight + 1 < |b.suggestions| then b.highlight + 1 else 0
    ensures b.suggestions != [] && key == ArrowUp ==>
      r.box.highlight == if b.highlight >= 1 then b.highlight - 1 else if b.highlight == 0 || |b.suggestions| == 1 then |b.suggestions| - 1 else |b.suggestions| - 2
    ensures r.selected.Some? <==> b.suggestions != [] && key == Enter && b.highlight >= 0
    ensures r.selected.Some? ==>
      r.selected.value == b.suggestions[b.highlight].symbol &&
      r.box.query == r.selected.value && r.box.suggestions == []
  {
    var n := |b.suggestions|;
    if n == 0 then KeyResult(b, None)
    else match key
      case ArrowDown => KeyResult(b.(highlight := JsRem(b.highlight + 1, n)), None)
      case ArrowUp => KeyResult(b.(highlight := JsRem(b.highlight - 1 + n, n)), None)
      case Enter =>
        if b.highlight >= 0 then
          var s := b.suggestions[b.highlight];
          KeyResult(b.(query := s.symbol, suggestions := []), Some(s.symbol))
        else KeyResult(b, None)
      case OtherKey => KeyResult(b, None)
  }

  /** ArrowUp undoes ArrowDown on a highlighted suggestion, and the other
      way round. */
  lemma ArrowsAreInverse(b: SuggestBox)
    requires b.suggestions != [] && 0 <= b.highlight < |b.suggestions|
    ensures OnKeyDown(OnKeyDown(b, ArrowDown).box, ArrowUp).box == b
    ensures OnKeyDown(OnKeyDown(b, ArrowUp).box, ArrowDown).box == b
  {
    var n := |b.suggestions|;
    var down := OnKeyDown(b, ArrowDown).box;
    if b.highlight + 1 < n {
      assert down.highlight == b.highlight + 1;
    } else {
      assert down.highlight == 0;
    }
    var up := OnKeyDown(b, ArrowUp).box;
    if b.highlight >= 1 {
      assert up.highlight == b.highlight - 1;
    } else {
      assert up.highlight == n - 1;
    }
  }

  /** From no highlight, ArrowDown lands on the first suggestion and ArrowUp
      on the last. */
  lemma ArrowsFromNoHighlight(b: SuggestBox)
    requires b.suggestions != [] && b.highlight == -1
    ensures OnKeyDown(b, ArrowDown).box.highlight == 0
    ensures |b.suggestions| >= 2 ==> OnKeyDown(b, ArrowUp).box.highlight == |b.suggestions| - 2
  {
  }

  // ---------------------------------------------------------------------
  // Timeframes, the purchase guard, and the popular-list tabs
  // ---------------------------------------------------------------------

  const Timeframes: seq<string> := ["1W", "1M", "3M", "6M", "1Y"]

  /** `fetchHistorical`'s map: the five button labels map to themselves,
      anything else to "1M". */
  function TimeframeToken(tf: string): (r: string)
    ensures tf in Timeframes ==> r == tf
    ensures tf !in Timeframes ==> r == "1M"
    ensures r in Timeframes
  {
    if tf in Timeframes then tf else "1M"
  }

  /** Every token the page sends is a recognised period, and each button
      asks Yahoo for the expected range of daily bars. */
  lemma TimeframesAreRecognised(tf: string)
    ensures Classify(TimeframeToken(tf)).Some?
    ensures NormalizePeriod(TimeframeToken(tf)).interval == "1d"
  {
    assert Lower("1W") == "1w";
    assert Lower("1M") == "1m";
    assert Lower("3M") == "3m";
    assert Lower("6M") == "6m";
    assert Lower("1Y") == "1y";
  }

  /** The share-count input: `parseInt(value) || 1`, so an unparsable or zero
      entry reads as one share. */
  function SharesFromInput(parsed: Option<int>): (n: int)
    ensures n != 0
    ensures parsed.Some? && parsed.value != 0 ==> n == parsed.value
    ensures parsed.None? || parsed.value == 0 ==> n == 1
  {
    match parsed
    case Some(v) => if v == 0 then 1 else v
    case None => 1
  }

  datatype AddOutcome = Rejected | Added(portfolio: seq<Holding>)

  /** `handleAddToPortfolio`: rejected without a selected symbol or with a
      non-positive share count; otherwise the purchase at the quote's price
      goes through. */
  function HandleAddToPortfolio(p: seq<Holding>, selected: string, shares: int, price: real, date: string): (r: AddOutcome)
    requires PositiveShares(p)
    ensures r.Rejected? <==> selected == "" || shares <= 0
    ensures r.Added? ==> r.portfolio == AddToPortfolio(p, selected, shares as real, price, date)
    ensures r.Added? ==> PositiveShares(r.portfolio) && Held(r.portfolio, selected)
  {
    if selected == "" || shares <= 0 then Rejected
    else
      var q := AddToPortfolio(p, selected, shares as real, price, date);
      assert Held(q, selected) by {
        if !Held(p, selected) {
          assert q[|p|].symbol == selected;
        } else {
          var k :| 0 <= k < |p| && p[k].symbol == selected;
          assert q[k].symbol == selected;
        }
      }
      Added(q)
  }

  datatype PopularTab = AllTab | Gainers | Losers

  predicate Gaining(q: Quote) { q.changePercent >= 0.0 }
  predicate Losing(q: Quote) { q.changePercent < 0.0 }

  /** The rows of the popular-stocks table for a tab. */
  function TabRows(stocks: seq<Quote>, tab: PopularTab): (r: seq<Quote>)
    ensures tab == AllTab ==> r == stocks
    ensures tab == Gainers ==> forall q :: q in r <==> q in stocks && q.changePercent >= 0.0
    ensures tab == Losers ==> forall q :: q in r <==> q in stocks && q.changePercent < 0.0
    ensures Subsequence(r, stocks)
  {
    match tab
    case AllTab =>
      FilterKeepsAll(stocks, (q: Quote) => true);
      FilterIsSubsequence(stocks, (q: Quote) => true);
      stocks
    case Gainers =>
      FilterMember(stocks, Gaining);
      FilterIsSubsequence(stocks, Gaining);
      Filter(stocks, Gaining)
    case Losers =>
      FilterMember(stocks, Losing);
      FilterIsSubsequence(stocks, Losing);
      Filter(stocks, Losing)
  }

  /** Gainers and Losers split All: every row lands in exactly one of them. */
  lemma GainersLosersPartition(stocks: seq<Quote>)
    ensures multiset(TabRows(stocks, Gainers)) + multiset(TabRows(stocks, Losers)) == multiset(TabRows(stocks, AllTab))
    ensures forall q :: !(q in TabRows(stocks, Gainers) && q in TabRows(stocks, Losers))
  {
    FilterSplit(stocks, Gaining, Losing);
  }
}
