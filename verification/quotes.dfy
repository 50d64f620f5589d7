/** The normalised quote shape every provider adapter produces, and the
    synthetic quote the service falls back to when every provider fails
    (`getFallbackData`, src/services/stockAPI.js:405-429). */
module Quotes {
  import opened Common

  datatype Quote = Quote(
    symbol: string,
    price: real,
    change: real,
    changePercent: real,
    volume: int,
    previousClose: real,
    open: real,
    high: real,
    low: real,
    isFallback: bool)

  /** Base price and day change of the synthetic table. */
  datatype Base = Base(price: real, change: real)

  /** The fixed table of well-known symbols. */
  function KnownBase(symbol: string): Option<Base>
  {
    if symbol == "AAPL" then Some(Base(175.43, 1.23))
    else if symbol == "MSFT" then Some(Base(338.11, -0.87))
    else if symbol == "GOOGL" then Some(Base(125.37, 2.15))
    else if symbol == "TSLA" then Some(Base(245.67, -3.21))
    else if symbol == "AMZN" then Some(Base(142.83, 0.95))
    else if symbol == "NVDA" then Some(Base(456.78, 4.32))
    else None
  }

  const DefaultBase: Base := Base(100.0, 0.0)
  const FallbackVolume: int := 1_000_000

  function FallbackBase(symbol: string): (b: Base)
    ensures b.price > 0.0
    ensures KnownBase(symbol).Some? ==> b == KnownBase(symbol).value
    ensures KnownBase(symbol).None? ==> b == DefaultBase
  {
    match KnownBase(symbol)
    case Some(b) => b
    case None => DefaultBase
  }

  function Abs(x: real): (r: real)
    ensures r >= 0.0 && (r == x || r == -x)
  {
    if x < 0.0 then -x else x
  }

  /** The synthetic quote: every derived field is consistent with the base
      price and change, the day range brackets the open, and the quote is
      flagged as synthetic. */
  function FallbackData(symbol: string): (q: Quote)
    ensures q.symbol == symbol && q.isFallback
    ensures q.price == FallbackBase(symbol).price && q.change == FallbackBase(symbol).change
    ensures q.price > 0.0
    ensures q.previousClose + q.change == q.price
    ensures q.changePercent * q.price == q.change * 100.0
    ensures q.low <= q.open <= q.high
    ensures q.high - q.price == q.price - q.low >= 0.0
    ensures q.high - q.price == Abs(q.change)
    ensures (q.open - q.previousClose) * 2.0 == q.change
    ensures q.volume == FallbackVolume
  {
    var b := FallbackBase(symbol);
    Quote(
      symbol := symbol,
      price := b.price,
      change := b.change,
      changePercent := (b.change / b.price) * 100.0,
      volume := FallbackVolume,
      previousClose := b.price - b.change,
      open := b.price - b.change * 0.5,
      high := b.price + Abs(b.change),
      low := b.price - Abs(b.change),
      isFallback := true)
  }

  /** An unknown ticker gets the neutral synthetic quote. */
  lemma UnknownTickerFallback()
    ensures var q := FallbackData("UNKNOWN_TICKER");
      q.price == 100.0 && q.change == 0.0 && q.changePercent == 0.0 && q.previousClose == 100.0
      && q.open == 100.0 && q.high == 100.0 && q.low == 100.0
  {
  }

  /** The table entry for AAPL is used verbatim. */
  lemma AaplFallback()
    ensures var q := FallbackData("AAPL");
      q.price == 175.43 && q.change == 1.23 && q.previousClose == 174.20
      && q.high == 176.66 && q.low == 174.20
  {
  }
}
