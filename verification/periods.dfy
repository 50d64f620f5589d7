/** Period-token normalisation for historical data
    (src/services/stockAPI.js:177-192, 231-251, 289-303). A caller's token is
    lower-cased and matched against a fixed alias vocabulary; each provider
    then has its own reading of the recognised period: Yahoo a calendar range
    and bar interval, Finnhub a from/to window in epoch seconds and a
    resolution letter, Alpha Vantage a client-side trim of its daily series. */
module Periods {
  import opened Common
  import opened Dates

  datatype Period = Week | Month | Quarter | HalfYear | Year | YearToDate | ThreeYears | FiveYears | TenYears

  /** The alias vocabulary, on an already lower-cased token. */
  function ParseToken(v: string): (r: Option<Period>)
  {
    if v == "1w" || v == "1wk" || v == "week" then Some(Week)
    else if v == "1m" || v == "1mo" || v == "1month" then Some(Month)
    else if v == "3m" || v == "3mo" then Some(Quarter)
    else if v == "6m" || v == "6mo" then Some(HalfYear)
    else if v == "1y" || v == "12m" || v == "1yr" then Some(Year)
    else if v == "ytd" then Some(YearToDate)
    else if v == "3y" || v == "3yr" then Some(ThreeYears)
    else if v == "5y" || v == "5yr" then Some(FiveYears)
    else if v == "10y" || v == "10yr" then Some(TenYears)
    else None
  }

  /** `String(p || '').toLowerCase()` followed by the alias match; a missing
      token is the empty string. */
  function Classify(token: string): Option<Period>
  {
    ParseToken(Lower(token))
  }

  // ---------------------------------------------------------------------
  // Yahoo: calendar range and bar interval
  // ---------------------------------------------------------------------

  datatype YahooWindow = YahooWindow(range: string, interval: string)

  function YahooFor(p: Period): YahooWindow
  {
    match p
    case Week => YahooWindow("5d", "1d")
    case Month => YahooWindow("1mo", "1d")
    case Quarter => YahooWindow("3mo", "1d")
    case HalfYear => YahooWindow("6mo", "1d")
    case Year => YahooWindow("1y", "1d")
    case YearToDate => YahooWindow("ytd", "1d")
    case ThreeYears => YahooWindow("3y", "1wk")
    case FiveYears => YahooWindow("5y", "1mo")
    case TenYears => YahooWindow("10y", "1mo")
  }

  /** `normalizePeriod`: unknown and empty tokens read as one month of daily
      bars; three years use weekly bars, five and ten years monthly bars,
      everything else daily bars. */
  function NormalizePeriod(token: string): (w: YahooWindow)
    ensures w.interval == "1wk" <==> Classify(token) == Some(ThreeYears)
    ensures w.interval == "1mo" <==> Classify(token) in {Some(FiveYears), Some(TenYears)}
    ensures w.interval == "1d" <==> Classify(token) !in {Some(ThreeYears), Some(FiveYears), Some(TenYears)}
    ensures w == YahooWindow("1mo", "1d") <==> Classify(token) in {None, Some(Month)}
  {
    match Classify(token)
    case None => YahooWindow("1mo", "1d")
    case Some(p) => YahooFor(p)
  }

  /** Normalisation ignores letter case. */
  lemma NormalizeIgnoresCase(token: string)
    ensures NormalizePeriod(token) == NormalizePeriod(Lower(token))
  {
    LowerIdempotent(token);
  }

  /** A token without upper-case letters is its own lower-case form. */
  lemma LowerOfLowercase(s: string)
    requires forall i :: 0 <= i < |s| ==> !('A' <= s[i] <= 'Z')
    ensures Lower(s) == s
  {
  }

  /** The aliases of one year normalise identically. */
  lemma YearAliasesAgree()
    ensures NormalizePeriod("1y") == NormalizePeriod("12m") == NormalizePeriod("1yr") == YahooWindow("1y", "1d")
  {
    LowerOfLowercase("1y");
    LowerOfLowercase("12m");
    LowerOfLowercase("1yr");
  }

  /** Upper-case tokens, as the stock-search timeframe buttons send them,
      read like their lower-case aliases. */
  lemma UpperCaseTokens()
    ensures NormalizePeriod("1W") == NormalizePeriod("week") == YahooWindow("5d", "1d")
    ensures NormalizePeriod("1Y") == YahooWindow("1y", "1d")
  {
    assert Lower("1W") == "1w";
    assert Lower("1Y") == "1y";
    LowerOfLowercase("week");
  }

  /** Empty and unrecognised tokens read as one month of daily bars. */
  lemma UnknownTokensDefault()
    ensures NormalizePeriod("") == NormalizePeriod("2w") == YahooWindow("1mo", "1d")
  {
    LowerOfLowercase("2w");
  }

  /** Distinct recognised periods ask Yahoo for distinct ranges. */
  lemma YahooRangeIdentifiesPeriod(p: Period, q: Period)
    requires YahooFor(p).range == YahooFor(q).range
    ensures p == q
  {
  }

  // ---------------------------------------------------------------------
  // Finnhub: from/to window in epoch seconds and resolution
  // ---------------------------------------------------------------------

  /** Look-back length in days of each fixed-length period. */
  function LookbackDays(p: Period): (d: nat)
    requires p != YearToDate
    ensures d in {7, 30, 90, 180, 365, 3 * 365, 5 * 365, 10 * 365}
  {
    match p
    case Week => 7
    case Month => 30
    case Quarter => 90
    case HalfYear => 180
    case Year => 365
    case ThreeYears => 3 * 365
    case FiveYears => 5 * 365
    case TenYears => 10 * 365
  }

  /** Finnhub's candle resolution for each period, its own table. */
  function FinnhubResolution(p: Period): string
  {
    match p
    case Week => "D"
    case Month => "D"
    case Quarter => "D"
    case HalfYear => "D"
    case Year => "D"
    case YearToDate => "D"
    case ThreeYears => "W"
    case FiveYears => "M"
    case TenYears => "M"
  }

  datatype FinnhubWindow = FinnhubWindow(from: int, to: int, resolution: string)

  /** `computeFromAndRes` with `to = floor(nowMs / 1000)`. Year-to-date
      starts at local midnight of January 1st of `year` (UTC here); an
      unknown token looks back 30 days. */
  function ComputeFromAndRes(token: string, nowMs: int, year: int): (w: FinnhubWindow)
    ensures w.to == nowMs / 1000
    ensures Classify(token) == Some(YearToDate) ==> w.from == DaysBeforeYear(year) * SecondsPerDay
    ensures Classify(token) == None ==> w.from == w.to - 30 * SecondsPerDay
    ensures Classify(token).Some? && Classify(token) != Some(YearToDate) ==>
      w.from == w.to - LookbackDays(Classify(token).value) * SecondsPerDay
  {
    var to := nowMs / 1000;
    match Classify(token)
    case None => FinnhubWindow(to - 30 * 24 * 3600, to, "D")
    case Some(p) =>
      if p == YearToDate then FinnhubWindow(DaysBeforeYear(year) * 24 * 3600, to, FinnhubResolution(p))
      else FinnhubWindow(to - LookbackDays(p) * 24 * 3600, to, FinnhubResolution(p))
  }

  /** Yahoo's and Finnhub's separate tables agree on the bar size for every
      token. */
  lemma ResolutionsAgree(token: string, nowMs: int, year: int)
    ensures var r := ComputeFromAndRes(token, nowMs, year).resolution;
      var i := NormalizePeriod(token).interval;
      (r == "D" <==> i == "1d") && (r == "W" <==> i == "1wk") && (r == "M" <==> i == "1mo")
  {
  }

  // ---------------------------------------------------------------------
  // Alpha Vantage: client-side trim of the daily series
  // ---------------------------------------------------------------------

  datatype TrimRule = LastEntries(n: nat) | CurrentYearOnly | Untrimmed

  /** Fixed-length periods keep as many trailing entries as Finnhub looks
      back days; year-to-date keeps the current calendar year; an unknown
      token keeps everything. */
  function AlphaTrim(token: string): (t: TrimRule)
    ensures t.LastEntries? ==> t.n > 0
    ensures t.Untrimmed? <==> Classify(token) == None
    ensures t.CurrentYearOnly? <==> Classify(token) == Some(YearToDate)
  {
    match Classify(token)
    case None => Untrimmed
    case Some(YearToDate) => CurrentYearOnly
    case Some(p) => LastEntries(LookbackDays(p))
  }

  /** For every recognised fixed-length period the Alpha Vantage trim keeps
      as many entries as Finnhub looks back days; for an unknown token the
      two disagree (30 days against no trim at all). */
  lemma TrimMatchesLookback(token: string, nowMs: int, year: int)
    ensures Classify(token).Some? && Classify(token) != Some(YearToDate) ==>
      AlphaTrim(token).LastEntries? &&
      ComputeFromAndRes(token, nowMs, year).from ==
        ComputeFromAndRes(token, nowMs, year).to - AlphaTrim(token).n * SecondsPerDay
    ensures Classify(token).None? ==> AlphaTrim(token) == Untrimmed
  {
  }
}
