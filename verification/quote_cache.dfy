/** The time-to-live quote cache of src/services/stockAPI.js:10-33: a map
    from symbol to the last fetched quote and the time it was stored. Entries
    are never evicted; freshness is decided when an entry is read. The clock
    (`Date.now()`) is the millisecond parameter `nowMs`. */
module QuoteCache {
  import opened Common
  import opened Quotes

  /** 30 minutes, in milliseconds. */
  const CacheTimeoutMs: int := 30 * 60 * 1000

  datatype Entry = Entry(data: Quote, timestamp: int)

  type Cache = map<string, Entry>

  /** `isCacheValid`: an entry exists and is younger than the timeout. */
  predicate IsCacheValid(cache: Cache, symbol: string, nowMs: int)
  {
    symbol in cache && nowMs - cache[symbol].timestamp < CacheTimeoutMs
  }

  /** `getCachedData`: the stored quote, fresh or not. */
  function GetCachedData(cache: Cache, symbol: string): (r: Option<Quote>)
    ensures r.Some? <==> symbol in cache
    ensures r.Some? ==> r.value == cache[symbol].data
  {
    if symbol in cache then Some(cache[symbol].data) else None
  }

  /** `setCachedData`: the symbol now reads back `data`, stamped `nowMs`;
      every other key is untouched. */
  function SetCachedData(cache: Cache, symbol: string, data: Quote, nowMs: int): (c: Cache)
    ensures GetCachedData(c, symbol) == Some(data)
    ensures IsCacheValid(c, symbol, nowMs)
    ensures c.Keys == cache.Keys + {symbol}
    ensures forall k :: k in cache && k != symbol ==> c[k] == cache[k]
  {
    cache[symbol := Entry(data, nowMs)]
  }

  /** An entry written at `t` is served exactly while less than the timeout
      has elapsed (reads at or after the write). */
  lemma {:induction false} FreshnessWindow(cache: Cache, symbol: string, data: Quote, t: int, later: int)
    requires t <= later
    ensures IsCacheValid(SetCachedData(cache, symbol, data, t), symbol, later)
      <==> later - t < 30 * 60 * 1000
  {
    var c := SetCachedData(cache, symbol, data, t);
    assert c[symbol] == Entry(data, t);
  }

  /** Writing a key does not change the freshness of any other key. */
  lemma {:induction false} OtherKeysKeepFreshness(cache: Cache, symbol: string, data: Quote, t: int, other: string, later: int)
    requires other != symbol
    ensures IsCacheValid(SetCachedData(cache, symbol, data, t), other, later)
      <==> IsCacheValid(cache, other, later)
  {
    var c := SetCachedData(cache, symbol, data, t);
    if other in cache {
      assert c[other] == cache[other];
    }
  }
}
