# Stock portfolio dashboard — a verified model of its data and list rules

This project models, in Dafny, the decision logic of a React stock-portfolio
dashboard and its market-data service:

- **Market-data service** (`src/services/stockAPI.js`)
  - a quote cache with a 30-minute time-to-live;
  - quote retrieval through an ordered provider chain (Finnhub, then Yahoo, then Alpha Vantage), with a synthetic quote when all three fail;
  - the order-preserving batch of quotes;
  - period-token normalisation for each history provider;
  - parsing of historical series, with the live "today" point appended;
  - the synthetic history;
  - the static fallback of symbol search.
- **Application shell** (`src/App.js`)
  - buying into the portfolio, with a weighted-average cost merge;
  - refreshing prices;
  - watchlist add and remove;
  - the ETF browser's filter, sort, sector grouping and selection repair.
- **Components** (`src/components/`)
  - the stock-search page: recent searches, suggestions and keyboard highlight, timeframes, the purchase guard, and the gainers/losers tabs;
  - the portfolio page's totals, insights and top performer;
  - the economic calendar's impact filter, sort and guide choice;
  - the earnings calendar's date parsing, week and month ranges, and row subsets;
  - the holdings / popular / other split of the analyst-ratings and news panels.

Everything is modelled as immutable datatypes and pure functions. Outside effects become parameters:

| Outside effect | How it is modelled |
|---|---|
| The clock | a millisecond count or a calendar date |
| Each provider request | an abstract outcome |
| `Math.random` | a sequence of draws in `[0, 1)` |
| Prices | exact `real`s |
| Calendar days | day ordinals since 1970-01-01, with local time taken to be UTC |

Modules:

| Module | What it models |
|---|---|
| `Common` | Order-preserving filter, subsequences, de-duplication, ASCII lower-casing, `includes`, `trim` (over ECMAScript's white-space and line-terminator characters), lexicographic string order |
| `Sorting` | A stable insertion sort, standing for `Array.prototype.sort` with a comparator |
| `Dates` | Gregorian day numbers, `getDay`, and `new Date(y, m, d)` with its 19yy reading of years 0..99 |
| `Quotes`, `QuoteCache`, `QuoteRetrieval`, `Periods`, `History`, `Search` | The market-data service |
| `Holdings`, `Etfs` | The application shell |
| `StockSearch`, `PortfolioView`, `EconomicCalendar`, `EarningsCalendar`, `AnalystRatings`, `News` | One component each |
| `Partition` | The three-way split shared by the ratings and news panels |

Points where the behaviour is easy to mistake, and where the model follows the code:

- **History: the appended "today" point is never checked for being positive.** The live top-up appends the live price whenever it is a finite number. So every point is positive except possibly the appended last one (`History.GetHistoricalData`).
- **History: a series is not re-sorted.** Chronological order is only guaranteed where the code sorts, which is the Alpha Vantage tier (`History.AlphaTierAscending`).
- **Economic calendar: a missing impact is read two ways.** The impact filter reads it as "Low", but the sort ranks it below "Low" (`EconomicCalendar.UnratedSortsAfterLow`).
- **Stock search: ArrowUp from no highlight skips the last suggestion.** It lands on the second-to-last suggestion, because `(-1 - 1 + n) % n` is `n - 2` (`StockSearch.ArrowsFromNoHighlight`).
- **Economic calendar: the `'core cpi'` test is redundant.** Anything containing "core cpi" also contains "cpi" (`EconomicCalendar.CoreCpiIsCpi`).
- **History: unknown period tokens disagree across providers.** Finnhub looks back 30 days, while Alpha Vantage does not trim at all (`Periods.TrimMatchesLookback`).

## Model

| member | source | states |
|---|---|---|
| QuoteCache.GetCachedData | src/services/stockAPI.js:23-25 | The cached quote is returned exactly when the symbol has an entry, fresh or stale |
| QuoteCache.SetCachedData | src/services/stockAPI.js:28-33 | After a write the symbol reads back the data and is fresh at the write time; every other key keeps its entry |
| QuoteCache.FreshnessWindow | src/services/stockAPI.js:12-20 | An entry written at t is valid at a later time exactly while less than 30 minutes have passed |
| QuoteCache.OtherKeysKeepFreshness | src/services/stockAPI.js:16-33 | Writing one symbol never changes whether another symbol's entry is valid |
| Quotes.FallbackBase | src/services/stockAPI.js:406-415 | Known tickers use their table entry; any other symbol that does not name an inherited object property gets price 100 and change 0; the base price is positive |
| Quotes.FallbackData | src/services/stockAPI.js:405-429 | The synthetic quote is flagged as synthetic with volume 1,000,000. Previous close plus change is the price, and the change percent is change over price times 100. The open is half the change below the price, and low ≤ open ≤ high: the day's high is the price plus the absolute change and the low the price minus it |
| Quotes.UnknownTickerFallback | src/services/stockAPI.js:415-427 | An unknown ticker's synthetic quote is flat at 100 on every price field |
| Quotes.AaplFallback | src/services/stockAPI.js:407-426 | AAPL's synthetic quote uses 175.43 / 1.23, giving previous close 174.20 and a day range of 174.20..176.66 |
| QuoteRetrieval.FirstSuccess | src/services/stockAPI.js:144-153 | The chain stops at the first provider that succeeds, and every provider before it failed; no index means all failed |
| QuoteRetrieval.GetStockQuote | src/services/stockAPI.js:130-158 | A fresh hit without noCache is served with no provider request. Otherwise Finnhub, Yahoo and Alpha Vantage are tried in order and the first success is returned and cached, even under noCache, stamped with the time its answer arrived rather than the time of the freshness check. When all fail the synthetic quote is returned and the cache is untouched |
| QuoteRetrieval.SecondCallWithinTtlIsCached | src/services/stockAPI.js:130-148 | A second call within the time-to-live, counted from the first call's cache write, makes no provider request and returns the fetched quote |
| QuoteRetrieval.SecondCallAfterTtlRefetches | src/services/stockAPI.js:130-148 | A second call once the time-to-live since the first call's cache write has passed goes back to the providers |
| QuoteRetrieval.StaleEntryRefetches | src/services/stockAPI.js:133-146 | A stale entry always sends the call back to the providers |
| QuoteRetrieval.BatchQuotes | src/services/stockAPI.js:161-170 | One quote per symbol, in input order, each the single-symbol retrieval against the starting cache |
| QuoteRetrieval.BatchCache | src/services/stockAPI.js:161-170 | After the batch, exactly the symbols some provider answered gain an entry, and all other keys keep theirs |
| QuoteRetrieval.LastWriterIsLast | src/services/stockAPI.js:161-170 | The chosen position fetches the symbol, and no later position fetches it |
| QuoteRetrieval.LastWriterNone | src/services/stockAPI.js:161-170 | No writing position exists exactly when no provider answered for the symbol |
| QuoteRetrieval.BatchCacheLastWrite | src/services/stockAPI.js:161-170 | A symbol fetched in the batch holds the quote of its last fetching position, stamped with the time that position's answer arrived |
| QuoteRetrieval.GetMultipleQuotes | src/services/stockAPI.js:161-171 | Same length and order as the input, each position being that symbol's retrieval. The cache changes only for fetched symbols, and each of those holds the quote its last fetch returned, stamped with the time that fetch's answer arrived |
| QuoteRetrieval.BatchIsolatesFailures | src/services/stockAPI.js:161-168 | A symbol whose providers all fail gets its synthetic quote in its own position of the batch |
| Periods.NormalizePeriod | src/services/stockAPI.js:177-192 | Weekly bars exactly for three years and monthly bars exactly for five or ten years; daily bars otherwise. One month of daily bars exactly for unknown or empty tokens and the month aliases |
| Periods.NormalizeIgnoresCase | src/services/stockAPI.js:178 | Normalisation gives the same window for a token and its lower-case form |
| Periods.YearAliasesAgree | src/services/stockAPI.js:186 | "1y", "12m" and "1yr" all give one year of daily bars |
| Periods.UpperCaseTokens | src/services/stockAPI.js:178-186 | "1W" reads as "week" (5 days of daily bars) and "1Y" as one year |
| Periods.UnknownTokensDefault | src/services/stockAPI.js:178-181 | The empty token and an unknown token both give one month of daily bars |
| Periods.YahooRangeIdentifiesPeriod | src/services/stockAPI.js:182-190 | Distinct recognised periods ask for distinct ranges |
| Periods.LookbackDays | src/services/stockAPI.js:237-249 | Each fixed-length period looks back 7, 30, 90, 180, 365, 3·365, 5·365 or 10·365 days |
| Periods.ComputeFromAndRes | src/services/stockAPI.js:231-252 | `to` is the current epoch second. `from` is `to` minus the period's days in seconds, 30 days for an unknown token, and January 1st for year-to-date |
| Periods.ResolutionsAgree | src/services/stockAPI.js:234-251 | Finnhub's resolution letter is D, W or M exactly when Yahoo's interval for the same token is daily, weekly or monthly |
| Periods.AlphaTrim | src/services/stockAPI.js:289-303 | An unknown token leaves the series untrimmed, year-to-date keeps the current year, and every other period keeps a positive count of trailing entries |
| Periods.TrimMatchesLookback | src/services/stockAPI.js:290-303 | For every fixed-length period the trim keeps as many entries as Finnhub looks back days; an unknown token is untrimmed |
| History.ParseCandles | src/services/stockAPI.js:209-212 | The kept points are the zipped candles in candle order, less some. Every kept point has a positive price, and each point with a positive price is kept as many times as it occurs among the candles |
| History.AppendLive | src/services/stockAPI.js:214-223 | The series is extended by exactly one point dated today, carrying the live price. This happens iff the series is empty or ends on another day and the live price is a finite number |
| History.AppendLiveOnce | src/services/stockAPI.js:216-221 | The top-up is idempotent, and after it has appended a point a further top-up adds nothing |
| History.AppendLiveKeepsOrder | src/services/stockAPI.js:216-221 | A date-ordered series with no point after today stays date-ordered after the top-up |
| History.TrimEntries | src/services/stockAPI.js:285-303 | The entries come out in date order, and every entry kept is an input entry. A fixed-length period of n keeps min(n, count) entries, and no dropped entry is later than a kept one (the newest are kept). Year-to-date keeps exactly the current year's entries, each as many times as it is listed, and an unknown token keeps a permutation of all |
| History.NewestKept | src/services/stockAPI.js:290-296 | Cutting a date-ordered list to its last n entries drops only entries no later than every kept one |
| History.ParseDaily | src/services/stockAPI.js:285-304 | The trimmed entries' points in their order, less some: every point with a positive price is kept, as many times as it occurs, and no other. The series is date-ordered, and each point comes from an entry |
| History.AlphaTierAscending | src/services/stockAPI.js:279-315 | When Alpha Vantage answers with no entry after today, the returned series, live point included, is in date order |
| History.Jitter | src/services/stockAPI.js:438-441 | A synthetic price lies in [0.95·base, 1.05·base) |
| History.FallbackHistoricalData | src/services/stockAPI.js:431-446 | Exactly 31 points on the consecutive days ending today, each positive and within five percent of the symbol's synthetic base price |
| History.FallbackHistoryAscending | src/services/stockAPI.js:435-437 | The synthetic dates are strictly increasing |
| History.GetHistoricalData | src/services/stockAPI.js:174-322 | Yahoo is asked first with the normalised window, then Finnhub with its window, then Alpha Vantage. The first tier that answers is parsed and topped up; with none, the 31-point synthetic series is returned. Every point but the last is positive, and so is the last when the live price is positive or absent |
| History.AaplTotalFailure | src/services/stockAPI.js:316-318 | With every provider failing, AAPL gets 31 points ending today, all within five percent of 175.43 |
| Search.FallbackSearch | src/services/stockAPI.js:480-490 | Exactly the static entries whose lower-case symbol or name contains the lower-case query, in list order |
| Search.SearchStocks | src/services/stockAPI.js:459-491 | A payload's best matches are cut to their first 25, a payload without them gives nothing, and a failure gives the filtered fallback list |
| Search.EmptyQueryListsAll | src/services/stockAPI.js:487-490 | The empty query returns the whole fallback list |
| Search.LowerCaseNameFindsApple | src/services/stockAPI.js:487-490 | The fallback is case-insensitive: "apple" finds Apple Inc. |
| Holdings.WeightedAverage | src/App.js:262-264 | The new average price makes the combined shares cost what the parts cost, and lies between the two prices |
| Holdings.Existing | src/App.js:258 | The first holding of the symbol, if any is held |
| Holdings.MergeInto | src/App.js:266-270 | Every holding of the symbol gets the merged position; the others are unchanged |
| Holdings.AddToPortfolio | src/App.js:254-292 | A new symbol is appended as one holding bought at the quote price. A held symbol keeps the length, leaves other symbols alone, and sets its holdings to old plus new shares at the cost-weighted average with the quote price |
| Holdings.MergedPosition | src/App.js:260-270 | Merging keeps every share count positive and gives each holding of the symbol the merged position |
| Holdings.AddKeepsSymbolsUnique | src/App.js:258-287 | Buying never creates a second holding for a symbol |
| Holdings.QuoteFor | src/App.js:240 | The first quote for the symbol, or none when no quote has it |
| Holdings.UpdatePortfolioData | src/App.js:239-245 | Same holdings in the same order, each changing only its current price, to the first matching quote's price when there is one |
| Holdings.UpdateIdempotent | src/App.js:239-245 | Refreshing twice with the same quotes is refreshing once |
| Holdings.AddToWatchlist | src/App.js:294-300 | The symbol is appended only when absent; nothing else changes |
| Holdings.AddToWatchlistIdempotent | src/App.js:294-300 | Adding twice is adding once, and a duplicate-free watchlist stays duplicate-free |
| Holdings.RemoveFromWatchlist | src/App.js:302-306 | Every occurrence of the symbol goes; every other symbol keeps all its occurrences, in order; an absent symbol changes nothing |
| Holdings.RemoveUndoesAdd | src/App.js:294-306 | Removing a symbol just added to a watchlist without it restores the watchlist |
| Etfs.SectorKey | src/App.js:88 | A fund's group key is its sector, or "Broad Market" when it has none |
| Etfs.CombinedEtfs | src/App.js:77 | The popular funds, each with its sector defaulted, followed by the sector funds unchanged |
| Etfs.DisplayedEtfs | src/App.js:78-84 | A permutation of the funds passing the sector filter: ascending by expense ratio for "low", descending for "high", and the filter's order otherwise. Funds with equal ratios keep the filter's order (stable sort) |
| Etfs.EqualRatiosKeepFilterOrder | src/App.js:78-84 | Funds sharing an expense ratio (VOO, IVV, VTI and AGG at 0.03) are shown in the filter's order, whatever the sort |
| Etfs.AllUnsortedShowsEverything | src/App.js:78-84 | "All" with no sort shows the combined list unchanged |
| Etfs.AddToGroup | src/App.js:88-91 | The fund is appended to its sector's group, created if missing; other groups are unchanged |
| Etfs.GroupsAreSectorFilters | src/App.js:87-92 | The group keys are exactly the displayed funds' sectors, and each group is exactly its sector's funds in displayed order |
| Etfs.SectorOrder | src/App.js:94 | Exactly the group names, each once, in strictly ascending order |
| Etfs.RepairSelection | src/App.js:97-103 | With funds displayed, an empty or undisplayed selection becomes the first displayed fund; otherwise it is kept, and the result is always displayed |
| Etfs.RepairSettles | src/App.js:97-103 | The repair effect settles after one run |
| StockSearch.PersistRecent | src/components/StockSearch.js:97-102 | The new entry is first. The rest are a prefix of the earlier entries for other symbols, in their order, and the length is one more than those entries, capped at eight |
| StockSearch.PersistRecentTwice | src/components/StockSearch.js:97-99 | Recording the same search again changes nothing |
| StockSearch.PersistRecentKeepsUnique | src/components/StockSearch.js:99 | The list never holds two entries for one symbol |
| StockSearch.LoadRecent | src/components/StockSearch.js:34-35 | A saved array is cut to its first eight entries, and anything else gives an empty list |
| StockSearch.JsRem | src/components/StockSearch.js:182-185 | JavaScript's `%`: the remainder takes the dividend's sign, and it is the number itself or the number less the divisor below twice the divisor |
| StockSearch.OnQueryChange | src/components/StockSearch.js:78-95 | A blank query clears the suggestions. Otherwise the suggestions are the first min(15, count) search results for the trimmed query. The highlight is reset either way |
| StockSearch.OnKeyDown | src/components/StockSearch.js:178-192 | With no suggestions keys are ignored. Down and Up move the highlight cyclically within range. Enter on a highlighted suggestion selects its symbol, puts it in the query and clears the list |
| StockSearch.ArrowsAreInverse | src/components/StockSearch.js:180-185 | From a highlighted suggestion, Up undoes Down and Down undoes Up |
| StockSearch.ArrowsFromNoHighlight | src/components/StockSearch.js:182-185 | From no highlight, Down goes to the first suggestion and Up to the second-to-last |
| StockSearch.TimeframeToken | src/components/StockSearch.js:120-123 | The five timeframe labels map to themselves and any other label that does not name an inherited object property to "1M" |
| StockSearch.TimeframesAreRecognised | src/components/StockSearch.js:120-122 | Every token the page sends is a recognised period with daily bars |
| StockSearch.SharesFromInput | src/components/StockSearch.js:470 | Never zero: a non-zero parsed count is kept, and an unparsable or zero entry reads as one |
| StockSearch.HandleAddToPortfolio | src/components/StockSearch.js:153-164 | The purchase is rejected exactly without a selected symbol or with a non-positive share count. Otherwise it is the portfolio purchase, after which the symbol is held |
| StockSearch.TabRows | src/components/StockSearch.js:317 | All shows every stock; Gainers exactly those with change percent ≥ 0; Losers exactly those below 0; order kept |
| StockSearch.GainersLosersPartition | src/components/StockSearch.js:317 | Gainers and Losers together are All, and no stock is in both |
| PortfolioView.TotalsConcat | src/components/Portfolio.js:8-9 | Value and cost totals add up over concatenated portfolios |
| PortfolioView.TotalGainLossIsSumOfGains | src/components/Portfolio.js:8-22 | The total gain is the sum of the per-holding gains the chart shows |
| PortfolioView.TotalGainLossPercent | src/components/Portfolio.js:11 | 0 when the cost is not positive; otherwise gain over cost in percent, positive exactly when value exceeds cost |
| PortfolioView.Allocation | src/components/Portfolio.js:14-18 | One slice per holding in order, each its share of the total value in percent, or 0 when the total is not positive |
| PortfolioView.AllocationSumsTo100 | src/components/Portfolio.js:14-18 | With a positive total the percentages add up to 100 |
| PortfolioView.RemoveFromPortfolio | src/components/Portfolio.js:33-34 | Every holding of the symbol goes, and every other holding stays, as many times as it occurred and in order |
| PortfolioView.RemoveUndoesNewPurchase | src/components/Portfolio.js:33-34 | Buying a symbol not held and then removing it restores the portfolio |
| PortfolioView.AddIncreasesCostByPurchase | src/App.js:258-287 | Buying raises the total cost by exactly the shares times the price paid |
| PortfolioView.MergedCost | src/App.js:262-270 | Buying into a held symbol changes only its (single) holding, whose cost rises by the shares times the price |
| PortfolioView.UpdateKeepsCost | src/App.js:239-245 | Refreshing prices never changes the total cost |
| PortfolioView.DiversificationInsight | src/components/Portfolio.js:38-43 | No holdings, consider diversifying, good start and well diversified for counts 0, 1, 2..4 and 5 or more |
| PortfolioView.RiskLevel | src/components/Portfolio.js:195-197 | High risk below 3 holdings, medium below 6, low otherwise |
| PortfolioView.InsightsAgree | src/components/Portfolio.js:38-43 | A well-diversified portfolio is never high risk; low risk implies well diversified |
| PortfolioView.GetTopPerformer | src/components/Portfolio.js:45-52 | None for an empty portfolio. Otherwise a holding whose gain percent is at least every holding's, and strictly above every earlier one's, so ties go to the first |
| EconomicCalendar.FilterImpact | src/components/EconomicCalendar.js:18 | The impact the filter sees is the event's impact, or "Low" when it is missing |
| EconomicCalendar.ImpactRank | src/components/EconomicCalendar.js:16-20 | High 3, Medium 2, Low 1, and 0 for every other value that does not name an inherited object property |
| EconomicCalendar.EventLeIsTotalPreorder | src/components/EconomicCalendar.js:19-25 | The comparator orders events totally and transitively |
| EconomicCalendar.Rows | src/components/EconomicCalendar.js:15-25 | A permutation of the events passing the filter (of all events for "All"), by descending rank, then ascending date, then ascending time. Ties keep the filter's order |
| EconomicCalendar.TiedIsSameSlot | src/components/EconomicCalendar.js:19-25 | The comparator ties two events exactly when they share rank, date and time |
| EconomicCalendar.SameSlotKeepsFilterOrder | src/components/EconomicCalendar.js:5-25 | Events in one slot (the two CPI releases at 08:30 on 2025-08-18) keep their listed order |
| EconomicCalendar.UnratedSortsAfterLow | src/components/EconomicCalendar.js:18-20 | Under the "Low" filter an event without impact is kept but sorts after a "Low" event |
| EconomicCalendar.GuideFor | src/components/EconomicCalendar.js:29-149 | The guide is CPI iff the lower-cased name contains "cpi". Jobless iff it does not but contains "jobless", then "home sales", then "fed chair" or "speech"; the general guide otherwise |
| EconomicCalendar.CoreCpiIsCpi | src/components/EconomicCalendar.js:43 | A name containing "core cpi" contains "cpi" |
| EconomicCalendar.CpiReleasesGetCpiGuide | src/components/EconomicCalendar.js:5-6 | Both inflation releases get the CPI guide |
| EconomicCalendar.JoblessClaimsGuide | src/components/EconomicCalendar.js:70 | "Initial Jobless Claims" gets the jobless-claims guide |
| EconomicCalendar.HomeSalesGuideFor | src/components/EconomicCalendar.js:97 | "Existing Home Sales" gets the home-sales guide |
| EarningsCalendar.AllRows | src/components/EarningsCalendar.js:15-17 | A permutation of the rows, ascending by date string; rows tied on the date keep their listed order |
| EarningsCalendar.TiedIsSameDate | src/components/EarningsCalendar.js:16 | The comparator ties two rows exactly when their dates are equal |
| EarningsCalendar.SameDateKeepsOrder | src/components/EarningsCalendar.js:5-17 | Rows sharing a date (AAPL and MSFT on 2025-08-18) keep their listed order |
| EarningsCalendar.CalendarDates | src/components/EarningsCalendar.js:19 | Exactly the row dates, each once, strictly ascending |
| EarningsCalendar.InitialSelection | src/components/EarningsCalendar.js:20 | The first date, or no selection when there are none |
| EarningsCalendar.JoinSplit | src/components/EarningsCalendar.js:26 | Joining the pieces of `split('-')` gives back the string |
| EarningsCalendar.SplitJoin | src/components/EarningsCalendar.js:26 | Splitting joined separator-free pieces gives back the pieces |
| EarningsCalendar.JsNumber | src/components/EarningsCalendar.js:26 | A digit string is a number, the empty string reading as 0; any other string is NaN |
| EarningsCalendar.LeadingZero | src/components/EarningsCalendar.js:26 | A leading zero does not change a number |
| EarningsCalendar.RollDays | src/components/EarningsCalendar.js:27 | An out-of-range day number rolls over to the valid date with that day number |
| EarningsCalendar.LocalDate | src/components/EarningsCalendar.js:27 | The calendar date `new Date(y, monthIndex, day)` falls on, with JavaScript's day number; the time-value range is checked by ParseYmd |
| EarningsCalendar.YmdFields | src/components/EarningsCalendar.js:25 | Three numbers exactly when the '-'-split has at least three pieces and each of the first three is a string of decimal digits, the empty string reading 0 (a missing piece or any other text is NaN); they are those pieces' values |
| EarningsCalendar.ParseYmd | src/components/EarningsCalendar.js:25-28 | A date exactly when the first three pieces are numbers and their day lies within 10^8 days of the epoch (TimeClip); it is then the local date of year, month - 1 and day |
| EarningsCalendar.ParsesMockDate | src/components/EarningsCalendar.js:5 | "2025-08-18" parses to 18 August 2025 |
| EarningsCalendar.StartOfWeekMon | src/components/EarningsCalendar.js:29-36 | A Monday 0..6 days back; a Sunday goes back 6 days |
| EarningsCalendar.EndOfWeekMon | src/components/EarningsCalendar.js:37-43 | The Sunday six days after that Monday, 0..6 days ahead |
| EarningsCalendar.SameWeek | src/components/EarningsCalendar.js:29-43 | A day lies in the anchor's week exactly when both weeks start on the same Monday |
| Dates.MonthBounds | src/components/EarningsCalendar.js:44-45 | Day 1 of month m is the first day, and day 0 of the next month is the month's last day |
| EarningsCalendar.StartOfMonth | src/components/EarningsCalendar.js:44 | The first day of the date's month, in the year JavaScript reads |
| EarningsCalendar.EndOfMonth | src/components/EarningsCalendar.js:45 | The last day of the same month as the start |
| EarningsCalendar.SameMonth | src/components/EarningsCalendar.js:44-45 | A day lies in the anchor's month range exactly when it has the anchor's year and month |
| EarningsCalendar.OrdinalInjective | src/components/EarningsCalendar.js:55-56 | Two valid dates have the same day number exactly when they are the same date |
| EarningsCalendar.RangeFor | src/components/EarningsCalendar.js:47-58 | No range without a selection and an invalid one when it does not parse. Otherwise the single day or its Monday-to-Sunday week, and for years outside 0..99 its calendar month |
| EarningsCalendar.RangeRows | src/components/EarningsCalendar.js:60-66 | Exactly the rows whose parsed date is in the range, each as many times as it is listed, in order; none without a range |
| EarningsCalendar.DayViewRows | src/components/EarningsCalendar.js:55-66 | Day view shows exactly the rows dated the selected day |
| EarningsCalendar.WeekViewRows | src/components/EarningsCalendar.js:50-66 | Week view shows exactly the rows in the selected day's Monday-to-Sunday week |
| EarningsCalendar.MonthViewRows | src/components/EarningsCalendar.js:52-66 | Month view shows exactly the rows in the selected day's calendar month |
| EarningsCalendar.HoldingRows | src/components/EarningsCalendar.js:67-69 | Exactly the rows for held symbols, each as many times as it is listed, in order |
| EarningsCalendar.PopularRows | src/components/EarningsCalendar.js:68-70 | Exactly the rows for the six popular symbols, each as many times as it is listed, in order |
| Common.Distinct | src/components/EarningsCalendar.js:19 | `Array.from(new Set(xs))`: the same members, each once, in first-seen order |
| Sorting.SortedNames | src/App.js:94 | `sort()` on distinct strings gives exactly them in strictly ascending order |
| Sorting.SortStable | src/App.js:79-83 | The sort is stable: for each element, the elements the comparator ties with it come out in their input order |
| Sorting.SortKeepsTies | src/App.js:79-83 | The elements tied with a given one are, as a sequence, the same before and after the sort |
| Partition.Split3 | src/components/AnalystRatings.js:19-21 | Holdings items, popular items that are not held, and the rest: each section in list order, and together every item exactly once |
| Partition.SectionsDisjoint | src/components/AnalystRatings.js:19-21 | No item is in two sections |
| Holdings.HoldingSet | src/components/AnalystRatings.js:13 | Exactly the portfolio's symbols, the set both the ratings and the news panel test against |
| AnalystRatings.Filtered | src/components/AnalystRatings.js:16 | With a symbol, exactly its ratings, each as many times as it is listed, in order; without one, all ratings |
| AnalystRatings.RatingSections | src/components/AnalystRatings.js:19-21 | The three tables split the filtered ratings into held, popular-not-held and other, each in order, with every rating exactly once |
| AnalystRatings.HoldingsTakePrecedence | src/components/AnalystRatings.js:19-20 | A held symbol's ratings are in the holdings table only, even when the symbol is popular |
| News.NewsSections | src/components/News.js:41-49 | Stories with a held tag, stories with a popular tag but no held one, and the rest: each in order, with every story exactly once |
| News.MacroNewsInRest | src/components/News.js:44-49 | A story without symbols always lands in the rest |
| News.HeldTagWins | src/components/News.js:44-48 | A story tagged with a held symbol is a holdings story even if it names popular ones |

## Left out

- Network requests, JSON field extraction and the provider adapters (`getQuoteFinnhub`, `getQuoteYahoo`, `getQuoteAlphaVantage`, src/services/stockAPI.js:36-127): each provider answer is an abstract outcome.
- The news endpoints, `getMarketIndices` and `getFallbackIndexData`: network I/O and field renaming.
- `Promise.all` concurrency: the batch is a map over the symbols, every lookup seeing the starting cache (all freshness checks run before the first response can arrive), and each write carries its own answer time. The writes are applied in input order, whereas the program applies them in completion order.
- QuoteRetrieval.BatchCacheLastWrite: for a symbol listed more than once, the entry kept is that of the last fetching position, whereas the program keeps the one whose answer completed last, because completion order is nondeterministic.
- QuoteRetrieval.GetMultipleQuotes: the same holds for its last-write clause; for symbols listed once the cache it states is the program's.
- `Date.now()`, `new Date()`, time zones and daylight saving: the clock is a parameter (for a quote retrieval, one reading for the freshness check and one, `answeredMs`, for the cache write) and local time is UTC, so `toLocaleDateString` equality is day equality.
- `Math.random`: the synthetic history takes its 31 draws as an input.
- Floating point: prices are exact reals. NaN, infinities, `toFixed` and `toLocaleString` are not modelled, nor are the volatility statistics and CAGR figures.
- React rendering, hooks, debounce timers, toasts and `localStorage`: each handler is a pure step from the state it reads to the state it sets.
- `src/components/Dashboard.js`, `src/components/MarketOverview.js` and `start_react.py` are not part of this model: display-only arithmetic, static data and process plumbing.
- Lower-casing covers ASCII letters only, and string order is by character code, which is what `sort()` does and what `localeCompare` does on the ISO dates and times used here.
- EarningsCalendar.JsNumber: `Number()` is modelled on digit strings only (empty reads as 0); signs, decimals, exponents and surrounding blanks read as NaN.
- Object keys of the sector grouping are plain strings; JavaScript prototype keys such as "constructor" are not modelled.
- Quotes.FallbackBase: a symbol naming an inherited object property ("constructor", "toString", "valueOf", ...) reads that property at src/services/stockAPI.js:415 and yields NaN prices; NaN has no exact-real counterpart, so those symbols are not promised the source's behaviour.
- EconomicCalendar.ImpactRank: an impact naming an inherited object property reads a function at src/components/EconomicCalendar.js:20 and makes the comparator return NaN; the model ranks it 0 instead.
- StockSearch.TimeframeToken: a label naming an inherited object property passes a function to `getHistoricalData` at src/components/StockSearch.js:122; the model maps it to "1M" instead.
- EarningsCalendar.RangeFor: week and month bounds, and the 23:59:59.999 end of a day, are not clipped to the time-value range, so a selection within a week or a month of day ±10^8 gets a range where the source gets an Invalid Date.
- The display fields of ratings, earnings and events (EPS estimates, consensus figures, firms' notes) and the `isDetail` flag of the ratings panel carry no logic and are left out.
- PortfolioView.GetTopPerformer: requires every average price to be non-zero, because the source divides by it and produces Infinity or NaN, which exact reals do not have.
- PortfolioView.Allocation: the percentage is kept exact rather than rounded to a string by `toFixed(1)`.
- Holdings.AddToPortfolio: requires a positive share count and positive holdings, which the purchase guard ensures; with zero total shares the source divides by zero.
- Holdings.AddToPortfolio: the rethrow of a failed quote lookup has no counterpart, because `getStockQuote` never fails.
- History.GetHistoricalData: the live price is an input; the cache write of the live-quote call made by the top-up is not threaded through.
- History.GetHistoricalData: series are not promised to be chronological or free of duplicate dates for the Yahoo and Finnhub tiers, because the code does not sort them.
- EarningsCalendar.MonthViewRows: is stated for selected years outside 0..99, which `new Date` reads as 1900..1999.
- EarningsCalendar.RangeFor: its month-view bounds are stated for selected years outside 0..99 only, for the same reason.
- EarningsCalendar.SameMonth: requires an anchor year outside 0..99, for the same reason.
- EarningsCalendar.RangeFor: ranges are whole days; the millisecond bounds 00:00:00.000 and 23:59:59.999 hold a local midnight exactly when its day is in range.
