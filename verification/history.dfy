/** Historical price series (`getHistoricalData`,
    src/services/stockAPI.js:174-322, and `getFallbackHistoricalData`,
    src/services/stockAPI.js:431-446): three provider tiers tried in order
    (Yahoo chart, Finnhub candles, Alpha Vantage daily series), each parsed
    into points with positive prices and topped up with a live point for
    today, and a synthetic series when all three fail.

    Dates are day ordinals; `toLocaleDateString` equality is equality of
    ordinals. The clock, the live quote's price and `Math.random` are
    inputs. */
module History {
  import opened Common
  import opened Dates
  import opened Periods
  import opened Quotes
  import opened Sorting

  datatype Point = Point(date: int, price: real)

  /** A candle response: epoch-second timestamps and the close array
      (`None` for a missing, null or non-numeric close). */
  datatype CandleOutcome = Candles(timestamps: seq<int>, closes: seq<Option<real>>) | CandleFail

  type CalendarDate = d: Date | ValidDate(d) witness Date(1970, 1, 1)

  /** One Alpha Vantage daily entry: its calendar-date key and adjusted close. */
  datatype DailyEntry = DailyEntry(date: CalendarDate, close: Option<real>)

  datatype DailyOutcome = Daily(entries: seq<DailyEntry>) | DailyFail

  /** The wall clock as two separate readings: `Date.now()` in milliseconds
      and the local calendar date of `new Date()`. The source takes them at
      different moments, so nothing ties one to the other. */
  datatype Clock = Clock(nowMs: int, today: CalendarDate)

  function Today(c: Clock): int
  {
    Ordinal(c.today)
  }

  /** Close of candle `i`, a missing one reading as 0. */
  function CloseOrZero(closes: seq<Option<real>>, i: int): real
  {
    if 0 <= i < |closes| && closes[i].Some? then closes[i].value else 0.0
  }

  function DayOfTimestamp(seconds: int): int
  {
    seconds / SecondsPerDay
  }

  predicate Positive(pt: Point)
  {
    pt.price > 0.0
  }

  /** Candle `i` as a point: its timestamp's day and its close. */
  function CandlePoints(timestamps: seq<int>, closes: seq<Option<real>>): (r: seq<Point>)
    ensures |r| == |timestamps|
    ensures forall i :: 0 <= i < |r| ==> r[i] == Point(DayOfTimestamp(timestamps[i]), CloseOrZero(closes, i))
  {
    seq(|timestamps|, i requires 0 <= i < |timestamps| =>
      Point(DayOfTimestamp(timestamps[i]), CloseOrZero(closes, i)))
  }

  /** Candles zipped into points, then every non-positive price dropped;
      the survivors stay in candle order. */
  function ParseCandles(timestamps: seq<int>, closes: seq<Option<real>>): (r: seq<Point>)
    ensures Subsequence(r, CandlePoints(timestamps, closes))
    ensures forall pt :: multiset(r)[pt] == if pt.price > 0.0 then multiset(CandlePoints(timestamps, closes))[pt] else 0
    ensures |r| <= |timestamps|
    ensures forall k :: 0 <= k < |r| ==> r[k].price > 0.0
  {
    var zipped := CandlePoints(timestamps, closes);
    FilterCount(zipped, Positive);
    FilterIsSubsequence(zipped, Positive);
    Filter(zipped, Positive)
  }

  predicate NeedsLivePoint(series: seq<Point>, today: int)
  {
    series == [] || series[|series| - 1].date != today
  }

  /** The best-effort live top-up: when the series is empty or does not end
      today, one point dated today is appended if the live quote's price is a
      finite number (`live` is `None` otherwise). */
  function AppendLive(series: seq<Point>, today: int, live: Option<real>): (r: seq<Point>)
    ensures series <= r && |r| <= |series| + 1
    ensures |r| == |series| + 1 <==> NeedsLivePoint(series, today) && live.Some?
    ensures |r| == |series| + 1 ==> r[|series|] == Point(today, live.value)
    ensures r != [] && !NeedsLivePoint(series, today) ==> r[|r| - 1].date == today
  {
    if NeedsLivePoint(series, today) && live.Some? then series + [Point(today, live.value)] else series
  }

  /** The top-up is idempotent, and once it has added a point a second
      top-up adds nothing whatever the live price: at most one live point is
      ever appended. */
  lemma {:induction false} AppendLiveOnce(series: seq<Point>, today: int, live: Option<real>, live2: Option<real>)
    ensures AppendLive(AppendLive(series, today, live), today, live) == AppendLive(series, today, live)
    ensures |AppendLive(series, today, live)| == |series| + 1 ==>
      AppendLive(AppendLive(series, today, live), today, live2) == AppendLive(series, today, live)
  {
    var r := AppendLive(series, today, live);
    if |r| == |series| + 1 {
      assert r[|r| - 1] == Point(today, live.value);
    }
  }

  predicate DatesAscending(s: seq<Point>)
  {
    forall i, j :: 0 <= i < j < |s| ==> s[i].date <= s[j].date
  }

  /** The top-up keeps a chronologically ordered series ordered when no
      point lies after today. */
  lemma {:induction false} AppendLiveKeepsOrder(series: seq<Point>, today: int, live: Option<real>)
    requires DatesAscending(series)
    requires forall i :: 0 <= i < |series| ==> series[i].date <= today
    ensures DatesAscending(AppendLive(series, today, live))
    ensures forall i :: 0 <= i < |AppendLive(series, today, live)| ==> AppendLive(series, today, live)[i].date <= today
  {
    var r := AppendLive(series, today, live);
    if |r| == |series| + 1 {
      forall i, j | 0 <= i < j < |r|
        ensures r[i].date <= r[j].date
      {
        if j == |series| {
          assert r[j].date == today && r[i] == series[i];
        } else {
          assert r[i] == series[i] && r[j] == series[j];
        }
      }
    }
  }

  /** Dropping points keeps a chronologically ordered series ordered. */
  lemma FilterKeepsDatesAscending(s: seq<Point>, p: Point -> bool)
    requires DatesAscending(s)
    ensures DatesAscending(Filter(s, p))
  {
    var le := (a: Point, b: Point) => a.date <= b.date;
    assert SortedBy(s, le);
    SortedFilter(s, p, le);
    var r := Filter(s, p);
    assert forall i, j :: 0 <= i < j < |r| ==> le(r[i], r[j]);
  }

  // ---------------------------------------------------------------------
  // Alpha Vantage: date sort and trim
  // ---------------------------------------------------------------------

  function EntryDay(e: DailyEntry): int
  {
    Ordinal(e.date)
  }

  /** The comparator `new Date(a.date) - new Date(b.date)`. */
  function EntryLe(a: DailyEntry, b: DailyEntry): bool
  {
    EntryDay(a) <= EntryDay(b)
  }

  lemma EntryLeIsTotalPreorder()
    ensures TotalPreorder(EntryLe)
  {
  }

  /** The entries in date order, then cut to the requested window: the last
      `n` entries for a fixed-length period, the entries of the current year
      for year-to-date, all of them for an unknown token. */
  function TrimEntries(entries: seq<DailyEntry>, trim: TrimRule, year: int): (r: seq<DailyEntry>)
    requires trim.LastEntries? ==> trim.n > 0
    ensures SortedBy(r, EntryLe)
    ensures |r| <= |entries|
    ensures forall i :: 0 <= i < |r| ==> r[i] in entries
    ensures trim.LastEntries? ==> |r| == if trim.n < |entries| then trim.n else |entries|
    ensures trim.LastEntries? ==> multiset(r) <= multiset(entries)
    ensures trim.LastEntries? ==> forall e, k :: e in multiset(entries) - multiset(r) && k in r ==> EntryDay(e) <= EntryDay(k)
    ensures trim.CurrentYearOnly? ==> forall i :: 0 <= i < |r| ==> r[i].date.year == year
    ensures trim.CurrentYearOnly? ==> forall e :: e in entries && e.date.year == year ==> e in r
    ensures trim.CurrentYearOnly? ==>
      forall e :: multiset(r)[e] == if e.date.year == year then multiset(entries)[e] else 0
    ensures trim.Untrimmed? ==> multiset(r) == multiset(entries)
  {
    match trim
    case LastEntries(n) => NewestEntries(entries, n)
    case CurrentYearOnly => YearEntries(entries, year)
    case Untrimmed => DateOrder(entries)
  }

  /** The entries sorted by date (the source's `sort` with the date
      comparator). */
  function DateOrder(entries: seq<DailyEntry>): (r: seq<DailyEntry>)
    ensures SortedBy(r, EntryLe)
    ensures |r| == |entries|
    ensures multiset(r) == multiset(entries)
    ensures forall e :: e in r <==> e in entries
  {
    var sorted := Sort(entries, EntryLe);
    SortedEntries(entries);
    sorted
  }

  /** The `slice(-n)` window: the newest `n` entries in date order. */
  function NewestEntries(entries: seq<DailyEntry>, n: nat): (r: seq<DailyEntry>)
    requires n > 0
    ensures SortedBy(r, EntryLe)
    ensures |r| == if n < |entries| then n else |entries|
    ensures forall i :: 0 <= i < |r| ==> r[i] in entries
    ensures multiset(r) <= multiset(entries)
    ensures forall e, k :: e in multiset(entries) - multiset(r) && k in r ==> EntryDay(e) <= EntryDay(k)
  {
    var sorted := DateOrder(entries);
    var kept := TakeLast(sorted, n);
    LastEntriesTrim(entries, sorted, n, kept);
    kept
  }

  /** The year-to-date window: the entries of `year`, in date order. */
  function YearEntries(entries: seq<DailyEntry>, year: int): (r: seq<DailyEntry>)
    ensures SortedBy(r, EntryLe)
    ensures |r| <= |entries|
    ensures forall i :: 0 <= i < |r| ==> r[i] in entries && r[i].date.year == year
    ensures forall e :: e in entries && e.date.year == year ==> e in r
    ensures forall e :: multiset(r)[e] == if e.date.year == year then multiset(entries)[e] else 0
  {
    var sorted := DateOrder(entries);
    var inYear := (e: DailyEntry) => e.date.year == year;
    var kept := Filter(sorted, inYear);
    YearTrim(entries, sorted, year, inYear, kept);
    kept
  }

  /** The `slice(-n)` branch of the trim, on the date-sorted entries. */
  lemma LastEntriesTrim(entries: seq<DailyEntry>, sorted: seq<DailyEntry>, n: nat, r: seq<DailyEntry>)
    requires n > 0 && multiset(sorted) == multiset(entries) && SortedBy(sorted, EntryLe)
    requires r == TakeLast(sorted, n)
    ensures SortedBy(r, EntryLe)
    ensures |r| == if n < |entries| then n else |entries|
    ensures forall i :: 0 <= i < |r| ==> r[i] in entries
    ensures multiset(r) <= multiset(entries)
    ensures forall e, k :: e in multiset(entries) - multiset(r) && k in r ==> EntryDay(e) <= EntryDay(k)
  {
    LastEntriesNewest(entries, sorted, n, r);
    assert |sorted| == |multiset(sorted)| == |entries|;
    TakeLastSorted(sorted, n, EntryLe);
    forall i | 0 <= i < |r|
      ensures r[i] in entries
    {
      assert r[i] in multiset(entries);
    }
  }

  /** `NewestKept`, carried over from the sorted copy to the entries it
      was sorted from. */
  lemma LastEntriesNewest(entries: seq<DailyEntry>, sorted: seq<DailyEntry>, n: nat, r: seq<DailyEntry>)
    requires n > 0 && multiset(sorted) == multiset(entries) && SortedBy(sorted, EntryLe)
    requires r == TakeLast(sorted, n)
    ensures multiset(r) <= multiset(entries)
    ensures forall e, k :: e in multiset(entries) - multiset(r) && k in r ==> EntryDay(e) <= EntryDay(k)
  {
    NewestKept(sorted, n);
  }

  /** The year-to-date branch of the trim, on the date-sorted entries. */
  lemma YearTrim(entries: seq<DailyEntry>, sorted: seq<DailyEntry>, year: int,
                 inYear: DailyEntry -> bool, r: seq<DailyEntry>)
    requires SortedBy(sorted, EntryLe) && |sorted| == |entries|
    requires forall e :: e in sorted <==> e in entries
    requires multiset(sorted) == multiset(entries)
    requires forall e :: inYear(e) == (e.date.year == year)
    requires r == Filter(sorted, inYear)
    ensures SortedBy(r, EntryLe)
    ensures |r| <= |entries|
    ensures forall i :: 0 <= i < |r| ==> r[i] in entries && r[i].date.year == year
    ensures forall e :: e in entries && e.date.year == year ==> e in r
    ensures forall e :: multiset(r)[e] == if e.date.year == year then multiset(entries)[e] else 0
  {
    SortedFilter(sorted, inYear, EntryLe);
    FilterCount(sorted, inYear);
  }

  /** Cutting a date-ordered list to its last `n` entries keeps the newest:
      no dropped entry is later than a kept one. */
  lemma NewestKept(sorted: seq<DailyEntry>, n: nat)
    requires n > 0 && SortedBy(sorted, EntryLe)
    ensures multiset(TakeLast(sorted, n)) <= multiset(sorted)
    ensures forall e, k :: e in multiset(sorted) - multiset(TakeLast(sorted, n)) && k in TakeLast(sorted, n) ==>
      EntryDay(e) <= EntryDay(k)
  {
    DroppedBeforeKept(sorted, n, EntryLe);
  }

  /** The date sort orders the entries and keeps exactly the same ones. */
  lemma SortedEntries(entries: seq<DailyEntry>)
    ensures SortedBy(Sort(entries, EntryLe), EntryLe)
    ensures forall e :: e in Sort(entries, EntryLe) <==> e in entries
  {
    EntryLeIsTotalPreorder();
    SortSorted(entries, EntryLe);
    var sorted := Sort(entries, EntryLe);
    assert forall e :: e in sorted <==> e in multiset(sorted);
    assert forall e :: e in entries <==> e in multiset(entries);
  }

  function EntryPoint(e: DailyEntry): Point
  {
    Point(EntryDay(e), match e.close case Some(v) => v case None => 0.0)
  }

  /** The Alpha Vantage tier's series before the live top-up: trimmed,
      converted, and cleared of non-positive prices; it is in date order. */
  function ParseDaily(entries: seq<DailyEntry>, token: string, year: int): (r: seq<Point>)
    ensures Subsequence(r, EntryPoints(TrimEntries(entries, AlphaTrim(token), year)))
    ensures forall pt :: pt in EntryPoints(TrimEntries(entries, AlphaTrim(token), year)) && pt.price > 0.0 ==> pt in r
    ensures forall k :: 0 <= k < |r| ==> r[k].price > 0.0
    ensures DatesAscending(r)
    ensures |r| <= |entries|
    ensures forall k :: 0 <= k < |r| ==> r[k] in EntryPoints(entries)
    ensures var pts := EntryPoints(TrimEntries(entries, AlphaTrim(token), year));
      forall pt :: multiset(r)[pt] == if pt.price > 0.0 then multiset(pts)[pt] else 0
  {
    var trimmed := TrimEntries(entries, AlphaTrim(token), year);
    var pts := EntryPoints(trimmed);
    FilterCount(pts, Positive);
    FilterIsSubsequence(pts, Positive);
    EntryPointsAscending(trimmed, pts);
    FilterKeepsDatesAscending(pts, Positive);
    FilterMember(pts, Positive);
    PointsOfEntries(entries, trimmed, pts, Filter(pts, Positive));
    Filter(pts, Positive)
  }

  /** Every entry converted to a point, in the order given. */
  function EntryPoints(entries: seq<DailyEntry>): (r: seq<Point>)
    ensures |r| == |entries|
    ensures forall i :: 0 <= i < |r| ==> r[i] == EntryPoint(entries[i])
  {
    seq(|entries|, i requires 0 <= i < |entries| => EntryPoint(entries[i]))
  }

  /** Points kept from the converted entries each come from an entry. */
  lemma PointsOfEntries(entries: seq<DailyEntry>, trimmed: seq<DailyEntry>, pts: seq<Point>, r: seq<Point>)
    requires forall i :: 0 <= i < |trimmed| ==> trimmed[i] in entries
    requires |pts| == |trimmed| && forall i :: 0 <= i < |pts| ==> pts[i] == EntryPoint(trimmed[i])
    requires forall x :: x in r ==> x in pts
    ensures forall k :: 0 <= k < |r| ==> r[k] in EntryPoints(entries)
  {
    var all := EntryPoints(entries);
    forall k | 0 <= k < |r|
      ensures r[k] in all
    {
      assert r[k] in pts;
      var i :| 0 <= i < |pts| && pts[i] == r[k];
      var j :| 0 <= j < |entries| && entries[j] == trimmed[i];
      assert all[j] == r[k];
    }
  }

  lemma {:induction false} EntryPointsAscending(trimmed: seq<DailyEntry>, pts: seq<Point>)
    requires SortedBy(trimmed, EntryLe)
    requires |pts| == |trimmed| && forall i :: 0 <= i < |pts| ==> pts[i] == EntryPoint(trimmed[i])
    ensures DatesAscending(pts)
  {
    forall i, j | 0 <= i < j < |pts|
      ensures pts[i].date <= pts[j].date
    {
      assert EntryLe(trimmed[i], trimmed[j]);
    }
  }

  // ---------------------------------------------------------------------
  // Synthetic history
  // ---------------------------------------------------------------------

  const SyntheticLength: nat := 31

  /** Valid draws of `Math.random()`, one per synthetic point. */
  predicate UnitDraws(draws: seq<real>)
  {
    |draws| == SyntheticLength && forall i :: 0 <= i < |draws| ==> 0.0 <= draws[i] < 1.0
  }

  /** The synthetic price for one draw: within five percent of the base. */
  function Jitter(base: real, draw: real): (p: real)
    requires base > 0.0 && 0.0 <= draw < 1.0
    ensures 0.95 * base <= p < 1.05 * base
  {
    assert base * draw < base * 1.0;
    base * (1.0 + (draw - 0.5) * 0.1)
  }

  /** `getFallbackHistoricalData`: 31 consecutive days ending today, each
      priced within five percent of the symbol's synthetic base price. */
  function FallbackHistoricalData(symbol: string, today: int, draws: seq<real>): (r: seq<Point>)
    requires UnitDraws(draws)
    ensures |r| == 31
    ensures forall i :: 0 <= i < |r| ==> r[i].date == today - 30 + i
    ensures r[30].date == today
    ensures forall i :: 0 <= i < |r| ==>
      0.95 * FallbackData(symbol).price <= r[i].price < 1.05 * FallbackData(symbol).price
    ensures forall i :: 0 <= i < |r| ==> r[i].price > 0.0
  {
    var base := FallbackData(symbol).price;
    seq(SyntheticLength, i requires 0 <= i < SyntheticLength => Point(today - (30 - i), Jitter(base, draws[i])))
  }

  /** Every synthetic series is strictly increasing in date. */
  lemma FallbackHistoryAscending(symbol: string, today: int, draws: seq<real>)
    requires UnitDraws(draws)
    ensures forall i, j :: 0 <= i < j < 31 ==>
      FallbackHistoricalData(symbol, today, draws)[i].date < FallbackHistoricalData(symbol, today, draws)[j].date
  {
  }

  // ---------------------------------------------------------------------
  // The three-tier retrieval
  // ---------------------------------------------------------------------

  datatype Request = YahooChart(window: YahooWindow) | FinnhubCandles(candles: FinnhubWindow) | AlphaDaily

  datatype Tier = YahooTier | FinnhubTier | AlphaVantageTier | SyntheticTier

  datatype HistoryResult = HistoryResult(series: seq<Point>, tier: Tier, requests: seq<Request>)

  /** The top-up keeps a positive series positive everywhere but possibly
      at the live point, and there too when the live price is positive. */
  lemma AppendLiveKeepsPositive(series: seq<Point>, today: int, live: Option<real>)
    requires forall k :: 0 <= k < |series| ==> series[k].price > 0.0
    ensures forall k :: 0 <= k < |AppendLive(series, today, live)| - 1 ==> AppendLive(series, today, live)[k].price > 0.0
    ensures (live.None? || live.value > 0.0) ==>
      forall k :: 0 <= k < |AppendLive(series, today, live)| ==> AppendLive(series, today, live)[k].price > 0.0
  {
    var r := AppendLive(series, today, live);
    forall k | 0 <= k < |series|
      ensures r[k].price > 0.0
    {
      assert r[k] == series[k];
    }
  }

  /** The chart request to Yahoo for a period token. */
  function YahooRequest(period: string): Request
  {
    YahooChart(NormalizePeriod(period))
  }

  /** The candle request to Finnhub for a period token at the clock's time. */
  function FinnhubRequest(period: string, clock: Clock): Request
  {
    FinnhubCandles(ComputeFromAndRes(period, clock.nowMs, clock.today.year))
  }

  /** The result of a tier that answered with a positive series: the series
      topped up with the live point. */
  function Answered(series: seq<Point>, today: int, live: Option<real>, tier: Tier, requests: seq<Request>): (r: HistoryResult)
    requires forall k :: 0 <= k < |series| ==> series[k].price > 0.0
    ensures r.series == AppendLive(series, today, live) && r.tier == tier && r.requests == requests
    ensures forall k :: 0 <= k < |r.series| - 1 ==> r.series[k].price > 0.0
    ensures (live.None? || live.value > 0.0) ==> forall k :: 0 <= k < |r.series| ==> r.series[k].price > 0.0
  {
    AppendLiveKeepsPositive(series, today, live);
    HistoryResult(AppendLive(series, today, live), tier, requests)
  }

  /** `getHistoricalData(symbol, period)`. It never fails. Yahoo is asked for
      the normalised range and interval; on failure Finnhub for the
      normalised window; on failure Alpha Vantage's daily series, trimmed to
      the period; the first tier that answers is parsed and topped up with
      the live point; if none answers the synthetic series is returned. */
  function GetHistoricalData(
    symbol: string, period: string, clock: Clock,
    yahoo: CandleOutcome, finnhub: CandleOutcome, alpha: DailyOutcome,
    live: Option<real>, draws: seq<real>): (r: HistoryResult)
    requires UnitDraws(draws)
    ensures 1 <= |r.requests| <= 3
    ensures r.requests[0] == YahooRequest(period)
    ensures |r.requests| >= 2 ==> r.requests[1] == FinnhubRequest(period, clock)
    ensures |r.requests| == 3 ==> r.requests[2] == AlphaDaily
    ensures yahoo.Candles? ==>
      (r.tier == YahooTier && |r.requests| == 1 &&
       r.series == AppendLive(ParseCandles(yahoo.timestamps, yahoo.closes), Today(clock), live))
    ensures yahoo.CandleFail? && finnhub.Candles? ==>
      (r.tier == FinnhubTier && |r.requests| == 2 &&
       r.series == AppendLive(ParseCandles(finnhub.timestamps, finnhub.closes), Today(clock), live))
    ensures yahoo.CandleFail? && finnhub.CandleFail? && alpha.Daily? ==>
      (r.tier == AlphaVantageTier && |r.requests| == 3 &&
       r.series == AppendLive(ParseDaily(alpha.entries, period, clock.today.year), Today(clock), live))
    ensures yahoo.CandleFail? && finnhub.CandleFail? && alpha.DailyFail? ==>
      (r.tier == SyntheticTier && r.series == FallbackHistoricalData(symbol, Today(clock), draws))
    ensures r.tier == SyntheticTier ==> |r.series| == 31
    ensures forall k :: 0 <= k < |r.series| - 1 ==> r.series[k].price > 0.0
    ensures (live.None? || live.value > 0.0) ==> forall k :: 0 <= k < |r.series| ==> r.series[k].price > 0.0
  {
    match yahoo
    case Candles(ts, cs) => Answered(ParseCandles(ts, cs), Today(clock), live, YahooTier, [YahooRequest(period)])
    case CandleFail => AfterYahoo(symbol, period, clock, finnhub, alpha, live, draws)
  }

  /** The tiers after Yahoo has failed: Finnhub, then Alpha Vantage, then the
      synthetic series. */
  function AfterYahoo(
    symbol: string, period: string, clock: Clock,
    finnhub: CandleOutcome, alpha: DailyOutcome,
    live: Option<real>, draws: seq<real>): (r: HistoryResult)
    requires UnitDraws(draws)
    ensures 2 <= |r.requests| <= 3
    ensures r.requests[0] == YahooRequest(period) && r.requests[1] == FinnhubRequest(period, clock)
    ensures |r.requests| == 3 ==> r.requests[2] == AlphaDaily
    ensures finnhub.Candles? ==>
      (r.tier == FinnhubTier && |r.requests| == 2 &&
       r.series == AppendLive(ParseCandles(finnhub.timestamps, finnhub.closes), Today(clock), live))
    ensures finnhub.CandleFail? && alpha.Daily? ==>
      (r.tier == AlphaVantageTier && |r.requests| == 3 &&
       r.series == AppendLive(ParseDaily(alpha.entries, period, clock.today.year), Today(clock), live))
    ensures finnhub.CandleFail? && alpha.DailyFail? ==>
      (r.tier == SyntheticTier && r.series == FallbackHistoricalData(symbol, Today(clock), draws))
    ensures r.tier == SyntheticTier ==> |r.series| == 31
    ensures forall k :: 0 <= k < |r.series| - 1 ==> r.series[k].price > 0.0
    ensures (live.None? || live.value > 0.0) ==> forall k :: 0 <= k < |r.series| ==> r.series[k].price > 0.0
  {
    match finnhub
    case Candles(ts, cs) =>
      Answered(ParseCandles(ts, cs), Today(clock), live, FinnhubTier, [YahooRequest(period), FinnhubRequest(period, clock)])
    case CandleFail => AfterFinnhub(symbol, period, clock, alpha, live, draws)
  }

  /** The tiers after Yahoo and Finnhub have failed: Alpha Vantage, then the
      synthetic series. */
  function AfterFinnhub(
    symbol: string, period: string, clock: Clock, alpha: DailyOutcome,
    live: Option<real>, draws: seq<real>): (r: HistoryResult)
    requires UnitDraws(draws)
    ensures r.requests == [YahooRequest(period), FinnhubRequest(period, clock), AlphaDaily]
    ensures alpha.Daily? ==>
      (r.tier == AlphaVantageTier &&
       r.series == AppendLive(ParseDaily(alpha.entries, period, clock.today.year), Today(clock), live))
    ensures alpha.DailyFail? ==>
      (r.tier == SyntheticTier && r.series == FallbackHistoricalData(symbol, Today(clock), draws))
    ensures r.tier == SyntheticTier ==> |r.series| == 31
    ensures forall k :: 0 <= k < |r.series| - 1 ==> r.series[k].price > 0.0
    ensures (live.None? || live.value > 0.0) ==> forall k :: 0 <= k < |r.series| ==> r.series[k].price > 0.0
  {
    var requests := [YahooRequest(period), FinnhubRequest(period, clock), AlphaDaily];
    match alpha
    case Daily(entries) =>
      Answered(ParseDaily(entries, period, clock.today.year), Today(clock), live, AlphaVantageTier, requests)
    case DailyFail =>
      HistoryResult(FallbackHistoricalData(symbol, Today(clock), draws), SyntheticTier, requests)
  }

  /** When the Alpha Vantage tier answers with no entry dated after today,
      the series it returns, live point included, is in date order. */
  lemma AlphaTierAscending(symbol: string, period: string, clock: Clock, entries: seq<DailyEntry>,
                           live: Option<real>, draws: seq<real>)
    requires UnitDraws(draws)
    requires forall e :: e in entries ==> EntryDay(e) <= Today(clock)
    ensures DatesAscending(GetHistoricalData(symbol, period, clock, CandleFail, CandleFail, Daily(entries), live, draws).series)
  {
    var s := ParseDaily(entries, period, clock.today.year);
    var all := EntryPoints(entries);
    forall k | 0 <= k < |s|
      ensures s[k].date <= Today(clock)
    {
      assert s[k] in all;
      var j :| 0 <= j < |all| && all[j] == s[k];
      assert all[j] == EntryPoint(entries[j]);
      assert entries[j] in entries;
    }
    AppendLiveKeepsOrder(s, Today(clock), live);
    var r := GetHistoricalData(symbol, period, clock, CandleFail, CandleFail, Daily(entries), live, draws);
    assert r.series == AppendLive(s, Today(clock), live);
  }

  /** With every provider failing, AAPL gets 31 points ending
      today, all within five percent of its base price 175.43. */
  lemma AaplTotalFailure(period: string, clock: Clock, live: Option<real>, draws: seq<real>)
    requires UnitDraws(draws)
    ensures var r := GetHistoricalData("AAPL", period, clock, CandleFail, CandleFail, DailyFail, live, draws);
      |r.series| == 31 && r.series[30].date == Today(clock) &&
      forall k :: 0 <= k < 31 ==> 0.95 * 175.43 <= r.series[k].price < 1.05 * 175.43
  {
  }
}
