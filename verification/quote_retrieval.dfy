/** Quote retrieval with an ordered provider fallback chain
    (`getStockQuote`, src/services/stockAPI.js:130-158) and the batch wrapper
    over it (`getMultipleQuotes`, src/services/stockAPI.js:161-171).

    Each provider call is an abstract outcome: the normalised quote it
    produced, or a failure (network error, rate limit, invalid symbol,
    malformed payload). */
module QuoteRetrieval {
  import opened Common
  import opened Quotes
  import opened QuoteCache

  datatype ProviderOutcome = Ok(quote: Quote) | Fail

  /** What each provider would answer for one symbol, and the clock reading
      `answeredMs` at which the answer that wins is written to the cache:
      `setCachedData` reads the clock again once the provider has
      responded, so the stamp is the write time, not the time of the
      freshness check. */
  datatype Providers = Providers(
    finnhub: ProviderOutcome, yahoo: ProviderOutcome, alphaVantage: ProviderOutcome, answeredMs: int)

  /** The fixed priority order: Finnhub, then Yahoo, then Alpha Vantage. */
  function Chain(p: Providers): (c: seq<ProviderOutcome>)
    ensures |c| == 3
  {
    [p.finnhub, p.yahoo, p.alphaVantage]
  }

  /** Index of the first provider that succeeded, trying them in order. */
  function FirstSuccess(outcomes: seq<ProviderOutcome>): (r: Option<nat>)
    ensures r.Some? ==> r.value < |outcomes| && outcomes[r.value].Ok?
    ensures r.Some? ==> forall j :: 0 <= j < r.value ==> outcomes[j].Fail?
    ensures r.None? <==> forall j :: 0 <= j < |outcomes| ==> outcomes[j].Fail?
  {
    if outcomes == [] then None
    else if outcomes[0].Ok? then Some(0)
    else match FirstSuccess(outcomes[1..])
      case Some(k) => Some(k + 1)
      case None => None
  }

  /** Where the returned quote came from. */
  datatype Source = FromCache | FromProvider(index: nat) | Synthetic

  datatype Fetch = Fetch(quote: Quote, cache: Cache, source: Source)

  /** Number of provider requests a retrieval issued. */
  function Calls(s: Source): nat
  {
    match s
    case FromCache => 0
    case FromProvider(k) => k + 1
    case Synthetic => 3
  }

  /** `getStockQuote(symbol, { noCache })`, its freshness check reading the
      clock as `nowMs`. It never fails: a fresh cache hit is served without
      any provider request; otherwise the first provider that succeeds wins
      and is cached (even under `noCache`), stamped `p.answeredMs`; if all
      three fail the synthetic quote is returned and the cache is left
      alone. */
  function GetStockQuote(cache: Cache, symbol: string, noCache: bool, nowMs: int, p: Providers): (r: Fetch)
    ensures !noCache && IsCacheValid(cache, symbol, nowMs) ==>
      r.quote == cache[symbol].data && r.cache == cache && Calls(r.source) == 0
    ensures (noCache || !IsCacheValid(cache, symbol, nowMs)) ==>
      && (p.finnhub.Ok? ==> r.quote == p.finnhub.quote && Calls(r.source) == 1)
      && (p.finnhub.Fail? && p.yahoo.Ok? ==> r.quote == p.yahoo.quote && Calls(r.source) == 2)
      && (p.finnhub.Fail? && p.yahoo.Fail? && p.alphaVantage.Ok? ==>
            r.quote == p.alphaVantage.quote && Calls(r.source) == 3)
      && (p.finnhub.Fail? && p.yahoo.Fail? && p.alphaVantage.Fail? ==>
            r.quote == FallbackData(symbol) && r.cache == cache && Calls(r.source) == 3)
    ensures r.source.FromProvider? ==> r.cache == SetCachedData(cache, symbol, r.quote, p.answeredMs)
    ensures !r.source.FromProvider? ==> r.cache == cache
    ensures r.source.FromProvider? ==> r.source.index < 3 && Chain(p)[r.source.index] == Ok(r.quote)
    ensures r.source.Synthetic? ==> r.quote.isFallback
  {
    if !noCache && IsCacheValid(cache, symbol, nowMs) then
      Fetch(GetCachedData(cache, symbol).value, cache, FromCache)
    else
      var chain := Chain(p);
      assert chain[0] == p.finnhub && chain[1] == p.yahoo && chain[2] == p.alphaVantage;
      match FirstSuccess(chain)
      case Some(k) =>
        var q := chain[k].quote;
        Fetch(q, SetCachedData(cache, symbol, q, p.answeredMs), FromProvider(k))
      case None =>
        assert chain[0].Fail? && chain[1].Fail? && chain[2].Fail?;
        Fetch(FallbackData(symbol), cache, Synthetic)
  }

  /** Within the time-to-live, counted from the first call's cache write
      (not from its freshness check), a second call issues no provider
      request and returns what the first call fetched. */
  lemma {:induction false} SecondCallWithinTtlIsCached(
    cache: Cache, symbol: string, noCache: bool, t1: int, t2: int, p1: Providers, p2: Providers)
    requires GetStockQuote(cache, symbol, noCache, t1, p1).source.FromProvider?
    requires p1.answeredMs <= t2 < p1.answeredMs + CacheTimeoutMs
    ensures var first := GetStockQuote(cache, symbol, noCache, t1, p1);
      var second := GetStockQuote(first.cache, symbol, false, t2, p2);
      second.quote == first.quote && Calls(second.source) == 0 && second.cache == first.cache
  {
    var first := GetStockQuote(cache, symbol, noCache, t1, p1);
    FreshnessWindow(cache, symbol, first.quote, p1.answeredMs, t2);
  }

  /** Once the time-to-live has passed since the first call's cache write,
      a second call goes back to the providers. */
  lemma {:induction false} SecondCallAfterTtlRefetches(
    cache: Cache, symbol: string, noCache: bool, t1: int, t2: int, p1: Providers, p2: Providers)
    requires GetStockQuote(cache, symbol, noCache, t1, p1).source.FromProvider?
    requires t2 >= p1.answeredMs + CacheTimeoutMs
    ensures var first := GetStockQuote(cache, symbol, noCache, t1, p1);
      Calls(GetStockQuote(first.cache, symbol, false, t2, p2).source) >= 1
  {
    var first := GetStockQuote(cache, symbol, noCache, t1, p1);
    FreshnessWindow(cache, symbol, first.quote, p1.answeredMs, t2);
  }

  lemma {:induction false} StaleEntryRefetches(cache: Cache, symbol: string, t: int, p: Providers)
    requires symbol in cache && t - cache[symbol].timestamp >= CacheTimeoutMs
    ensures Calls(GetStockQuote(cache, symbol, false, t, p).source) >= 1
  {
  }

  /** Result of the batch: the quotes in input order, and the cache after
      every retrieval's write. */
  datatype BatchResult = BatchResult(quotes: seq<Quote>, cache: Cache)

  /** The symbols whose retrieval in the batch reached a provider that
      answered (and therefore wrote the cache). */
  function Fetched(lookup: Cache, symbols: seq<string>, ps: seq<Providers>, nowMs: int): set<string>
    requires |ps| == |symbols|
  {
    set i | 0 <= i < |symbols| && Writes(lookup, symbols[i], ps[i], nowMs) :: symbols[i]
  }

  lemma FetchedCons(lookup: Cache, symbols: seq<string>, ps: seq<Providers>, nowMs: int)
    requires |ps| == |symbols| > 0
    ensures Fetched(lookup, symbols, ps, nowMs) == Fetched(lookup, symbols[1..], ps[1..], nowMs) +
      (if Writes(lookup, symbols[0], ps[0], nowMs) then {symbols[0]} else {})
  {
    var all := Fetched(lookup, symbols, ps, nowMs);
    var rest := Fetched(lookup, symbols[1..], ps[1..], nowMs);
    forall k | k in all
      ensures k in rest || (k == symbols[0] && Writes(lookup, symbols[0], ps[0], nowMs))
    {
      var i :| 0 <= i < |symbols| && Writes(lookup, symbols[i], ps[i], nowMs) && symbols[i] == k;
      if i > 0 {
        assert symbols[1..][i - 1] == k && ps[1..][i - 1] == ps[i];
      }
    }
    forall k | k in rest
      ensures k in all
    {
      var i :| 0 <= i < |symbols[1..]| && Writes(lookup, symbols[1..][i], ps[1..][i], nowMs) && symbols[1..][i] == k;
      assert symbols[i + 1] == k && ps[i + 1] == ps[1..][i];
    }
  }

  /** Each symbol is retrieved independently against the cache as it was
      when the batch started: all lookups are issued before any response
      arrives. */
  function BatchQuotes(lookup: Cache, symbols: seq<string>, ps: seq<Providers>, nowMs: int): (r: seq<Quote>)
    requires |ps| == |symbols|
    ensures |r| == |symbols|
    ensures forall i :: 0 <= i < |symbols| ==>
      r[i] == GetStockQuote(lookup, symbols[i], false, nowMs, ps[i]).quote
  {
    seq(|symbols|, i requires 0 <= i < |symbols| => GetStockQuote(lookup, symbols[i], false, nowMs, ps[i]).quote)
  }

  /** Whether retrieving `symbol` in the batch reached a provider that
      answered, and so wrote the cache. */
  predicate Writes(lookup: Cache, symbol: string, p: Providers, nowMs: int)
  {
    GetStockQuote(lookup, symbol, false, nowMs, p).source.FromProvider?
  }

  /** The entry a retrieval that reached a provider writes: the fetched
      quote, stamped with the time that retrieval's answer arrived. */
  function WrittenEntry(lookup: Cache, symbol: string, p: Providers, nowMs: int): Entry
  {
    Entry(GetStockQuote(lookup, symbol, false, nowMs, p).quote, p.answeredMs)
  }

  /** One position's cache write: the fetched quote, stamped with its own
      answer time, when a provider answered; nothing otherwise. */
  function Record(lookup: Cache, acc: Cache, symbol: string, p: Providers, nowMs: int): (c: Cache)
    ensures Writes(lookup, symbol, p, nowMs) ==>
      c == acc[symbol := WrittenEntry(lookup, symbol, p, nowMs)]
    ensures !Writes(lookup, symbol, p, nowMs) ==> c == acc
  {
    var f := GetStockQuote(lookup, symbol, false, nowMs, p);
    if f.source.FromProvider? then SetCachedData(acc, symbol, f.quote, p.answeredMs) else acc
  }

  /** The cache writes of the batch, applied in input order: exactly the
      fetched symbols gain (or refresh) an entry, all other keys keep theirs. */
  function BatchCache(lookup: Cache, acc: Cache, symbols: seq<string>, ps: seq<Providers>, nowMs: int): (r: Cache)
    requires |ps| == |symbols|
    ensures r.Keys == acc.Keys + Fetched(lookup, symbols, ps, nowMs)
    ensures forall k :: k in acc && k !in Fetched(lookup, symbols, ps, nowMs) ==> r[k] == acc[k]
    decreases |symbols|
  {
    if symbols == [] then acc
    else
      var rest := BatchCache(lookup, Record(lookup, acc, symbols[0], ps[0], nowMs), symbols[1..], ps[1..], nowMs);
      BatchCacheStep(lookup, acc, symbols, ps, nowMs, rest);
      rest
  }

  /** The first position's write followed by the rest of the batch's writes
      is the whole batch's writes. */
  lemma BatchCacheStep(lookup: Cache, acc: Cache, symbols: seq<string>, ps: seq<Providers>, nowMs: int, rest: Cache)
    requires |ps| == |symbols| > 0
    requires var first := Record(lookup, acc, symbols[0], ps[0], nowMs);
      && rest.Keys == first.Keys + Fetched(lookup, symbols[1..], ps[1..], nowMs)
      && forall k :: k in first && k !in Fetched(lookup, symbols[1..], ps[1..], nowMs) ==> rest[k] == first[k]
    ensures rest.Keys == acc.Keys + Fetched(lookup, symbols, ps, nowMs)
    ensures forall k :: k in acc && k !in Fetched(lookup, symbols, ps, nowMs) ==> rest[k] == acc[k]
  {
    FetchedCons(lookup, symbols, ps, nowMs);
    BatchKeysStep(lookup, acc, symbols, ps, nowMs, rest.Keys);
  }

  lemma BatchKeysStep(lookup: Cache, acc: Cache, symbols: seq<string>, ps: seq<Providers>, nowMs: int, keys: set<string>)
    requires |ps| == |symbols| > 0
    requires keys == Record(lookup, acc, symbols[0], ps[0], nowMs).Keys + Fetched(lookup, symbols[1..], ps[1..], nowMs)
    ensures keys == acc.Keys + Fetched(lookup, symbols, ps, nowMs)
  {
    FetchedCons(lookup, symbols, ps, nowMs);
  }

  /** The position of the batch whose cache write for `k` lands last
      (writes are applied in input order, so a later one overrides). */
  function LastWriter(lookup: Cache, symbols: seq<string>, ps: seq<Providers>, nowMs: int, k: string): (r: Option<nat>)
    requires |ps| == |symbols|
    ensures r.Some? ==> r.value < |symbols|
    decreases |symbols|
  {
    if symbols == [] then None
    else match LastWriter(lookup, symbols[1..], ps[1..], nowMs, k)
      case Some(i) => Some(i + 1)
      case None => if symbols[0] == k && Writes(lookup, k, ps[0], nowMs) then Some(0) else None
  }

  /** `LastWriter` finds a fetching position for `k` with no fetching
      position for `k` after it. */
  lemma {:induction false} LastWriterIsLast(lookup: Cache, symbols: seq<string>, ps: seq<Providers>, nowMs: int, k: string)
    requires |ps| == |symbols|
    ensures var r := LastWriter(lookup, symbols, ps, nowMs, k);
      && (r.Some? ==> symbols[r.value] == k && Writes(lookup, k, ps[r.value], nowMs))
      && (r.Some? ==> forall j :: r.value < j < |symbols| && symbols[j] == k ==> !Writes(lookup, k, ps[j], nowMs))
    decreases |symbols|
  {
    if symbols != [] {
      LastWriterIsLast(lookup, symbols[1..], ps[1..], nowMs, k);
      LastWriterNone(lookup, symbols[1..], ps[1..], nowMs, k);
      match LastWriter(lookup, symbols[1..], ps[1..], nowMs, k)
      case Some(i) =>
        assert symbols[1..][i] == symbols[i + 1] && ps[1..][i] == ps[i + 1];
        forall j | i + 1 < j < |symbols| && symbols[j] == k
          ensures !Writes(lookup, k, ps[j], nowMs)
        {
          assert symbols[1..][j - 1] == k && ps[1..][j - 1] == ps[j];
        }
      case None =>
        forall j | 0 < j < |symbols| && symbols[j] == k
          ensures !Writes(lookup, k, ps[j], nowMs)
        {
          assert symbols[1..][j - 1] == k && ps[1..][j - 1] == ps[j];
        }
    }
  }

  /** `LastWriter` finds no position exactly when `k` was not fetched. */
  lemma {:induction false} LastWriterNone(lookup: Cache, symbols: seq<string>, ps: seq<Providers>, nowMs: int, k: string)
    requires |ps| == |symbols|
    ensures LastWriter(lookup, symbols, ps, nowMs, k).None? <==> k !in Fetched(lookup, symbols, ps, nowMs)
    decreases |symbols|
  {
    if symbols != [] {
      LastWriterNone(lookup, symbols[1..], ps[1..], nowMs, k);
      FetchedCons(lookup, symbols, ps, nowMs);
    }
  }

  /** The batch's cache holds, for each fetched symbol, the quote of the
      last position that fetched it, stamped with the batch time. */
  lemma {:induction false} BatchCacheLastWrite(lookup: Cache, acc: Cache, symbols: seq<string>, ps: seq<Providers>, nowMs: int, k: string)
    requires |ps| == |symbols|
    ensures LastWriter(lookup, symbols, ps, nowMs, k).Some? ==>
      k in BatchCache(lookup, acc, symbols, ps, nowMs) &&
      BatchCache(lookup, acc, symbols, ps, nowMs)[k] ==
        WrittenEntry(lookup, k, ps[LastWriter(lookup, symbols, ps, nowMs, k).value], nowMs)
    decreases |symbols|
  {
    if symbols != [] {
      var acc' := Record(lookup, acc, symbols[0], ps[0], nowMs);
      assert BatchCache(lookup, acc, symbols, ps, nowMs) == BatchCache(lookup, acc', symbols[1..], ps[1..], nowMs);
      BatchCacheLastWrite(lookup, acc', symbols[1..], ps[1..], nowMs, k);
      match LastWriter(lookup, symbols[1..], ps[1..], nowMs, k)
      case Some(i) =>
        assert LastWriter(lookup, symbols, ps, nowMs, k) == Some(i + 1);
        assert ps[1..][i] == ps[i + 1];
      case None =>
        if symbols[0] == k && Writes(lookup, k, ps[0], nowMs) {
          assert LastWriter(lookup, symbols, ps, nowMs, k) == Some(0);
          FirstWriteSurvives(lookup, acc, symbols, ps, nowMs, k);
        } else {
          assert LastWriter(lookup, symbols, ps, nowMs, k) == None;
        }
    }
  }

  /** A write at the head of the batch survives when no later position
      fetches the same symbol. */
  lemma FirstWriteSurvives(lookup: Cache, acc: Cache, symbols: seq<string>, ps: seq<Providers>, nowMs: int, k: string)
    requires |ps| == |symbols| > 0 && symbols[0] == k && Writes(lookup, k, ps[0], nowMs)
    requires LastWriter(lookup, symbols[1..], ps[1..], nowMs, k).None?
    ensures BatchCache(lookup, Record(lookup, acc, k, ps[0], nowMs), symbols[1..], ps[1..], nowMs)[k] ==
      WrittenEntry(lookup, k, ps[0], nowMs)
  {
    LastWriterNone(lookup, symbols[1..], ps[1..], nowMs, k);
  }

  /** `getMultipleQuotes`: the quotes come back in input order, one per
      symbol, whatever order the responses arrive in. Since `getStockQuote`
      never fails, the source's per-symbol error handler is unreachable and
      has no counterpart here. */
  function GetMultipleQuotes(cache: Cache, symbols: seq<string>, ps: seq<Providers>, nowMs: int): (r: BatchResult)
    requires |ps| == |symbols|
    ensures |r.quotes| == |symbols|
    ensures forall i :: 0 <= i < |symbols| ==>
      r.quotes[i] == GetStockQuote(cache, symbols[i], false, nowMs, ps[i]).quote
    ensures r.cache.Keys == cache.Keys + Fetched(cache, symbols, ps, nowMs)
    ensures forall k :: k in cache && k !in Fetched(cache, symbols, ps, nowMs) ==> r.cache[k] == cache[k]
    ensures forall k :: k in Fetched(cache, symbols, ps, nowMs) ==>
      LastWriter(cache, symbols, ps, nowMs, k).Some? &&
      r.cache[k] == WrittenEntry(cache, k, ps[LastWriter(cache, symbols, ps, nowMs, k).value], nowMs)
  {
    assert forall k :: k in Fetched(cache, symbols, ps, nowMs) ==>
      LastWriter(cache, symbols, ps, nowMs, k).Some? &&
      BatchCache(cache, cache, symbols, ps, nowMs)[k] ==
        WrittenEntry(cache, k, ps[LastWriter(cache, symbols, ps, nowMs, k).value], nowMs) by {
      forall k | k in Fetched(cache, symbols, ps, nowMs)
        ensures LastWriter(cache, symbols, ps, nowMs, k).Some?
        ensures BatchCache(cache, cache, symbols, ps, nowMs)[k] ==
          WrittenEntry(cache, k, ps[LastWriter(cache, symbols, ps, nowMs, k).value], nowMs)
      {
        LastWriterNone(cache, symbols, ps, nowMs, k);
        BatchCacheLastWrite(cache, cache, symbols, ps, nowMs, k);
      }
    }
    BatchResult(BatchQuotes(cache, symbols, ps, nowMs), BatchCache(cache, cache, symbols, ps, nowMs))
  }

  /** The batch's quotes are exactly the single-symbol retrievals, so a
      symbol whose providers all fail gets its synthetic quote without
      affecting any other position. */
  lemma {:induction false} BatchIsolatesFailures(lookup: Cache, symbols: seq<string>, ps: seq<Providers>, nowMs: int, i: nat)
    requires |ps| == |symbols| && i < |symbols|
    requires !IsCacheValid(lookup, symbols[i], nowMs)
    requires ps[i].finnhub.Fail? && ps[i].yahoo.Fail? && ps[i].alphaVantage.Fail?
    ensures GetMultipleQuotes(lookup, symbols, ps, nowMs).quotes[i] == FallbackData(symbols[i])
    ensures GetMultipleQuotes(lookup, symbols, ps, nowMs).quotes[i].isFallback
  {
  }
}
