/** The portfolio page's arithmetic and list rules
    (src/components/Portfolio.js:8-52, 195-197): value and cost totals with
    their guarded percentages, removal of a symbol, the diversification and
    risk insights chosen by holding count, and the top performer by
    percentage gain. Prices are exact reals; `toFixed` rounding for display
    is left out. */
module PortfolioView {
  import opened Common
  import opened Holdings
  import opened Quotes

  function Value(h: Holding): real { h.shares * h.currentPrice }
  function Cost(h: Holding): real { h.shares * h.avgPrice }

  /** `totalValue`: the sum of shares times current price. */
  function TotalValue(p: seq<Holding>): real
  {
    if p == [] then 0.0 else Value(p[0]) + TotalValue(p[1..])
  }

  /** `totalCost`: the sum of shares times average purchase price. */
  function TotalCost(p: seq<Holding>): real
  {
    if p == [] then 0.0 else Cost(p[0]) + TotalCost(p[1..])
  }

  /** Per-holding gain of the performance chart, in currency. */
  function GainLoss(h: Holding): real { (h.currentPrice - h.avgPrice) * h.shares }

  function TotalOfGains(p: seq<Holding>): real
  {
    if p == [] then 0.0 else GainLoss(p[0]) + TotalOfGains(p[1..])
  }

  lemma {:induction false} TotalsConcat(a: seq<Holding>, b: seq<Holding>)
    ensures TotalValue(a + b) == TotalValue(a) + TotalValue(b)
    ensures TotalCost(a + b) == TotalCost(a) + TotalCost(b)
  {
    if a == [] {
      assert a + b == b;
    } else {
      assert (a + b)[0] == a[0] && (a + b)[1..] == a[1..] + b;
      TotalsConcat(a[1..], b);
    }
  }

  /** `totalGainLoss` is the sum of the per-holding gains the chart shows. */
  lemma {:induction false} TotalGainLossIsSumOfGains(p: seq<Holding>)
    ensures TotalValue(p) - TotalCost(p) == TotalOfGains(p)
  {
    if p != [] {
      TotalGainLossIsSumOfGains(p[1..]);
    }
  }

  /** `totalGainLossPercent`: gain over cost in percent, and 0 when the cost
      is not positive. */
  function TotalGainLossPercent(p: seq<Holding>): (r: real)
    ensures TotalCost(p) <= 0.0 ==> r == 0.0
    ensures TotalCost(p) > 0.0 ==> r * TotalCost(p) == (TotalValue(p) - TotalCost(p)) * 100.0
    ensures TotalCost(p) > 0.0 ==> (r > 0.0 <==> TotalValue(p) > TotalCost(p))
  {
    var cost := TotalCost(p);
    if cost > 0.0 then
      var r := ((TotalValue(p) - cost) / cost) * 100.0;
      assert r * cost == (TotalValue(p) - cost) * 100.0;
      r
    else 0.0
  }

  /** One slice of the allocation chart; the percentage is kept exact. */
  datatype Slice = Slice(name: string, value: real, percentage: real)

  /** `allocationData`: one slice per holding in order, its share of the
      total value in percent, and 0 when the total value is not positive. */
  function Allocation(p: seq<Holding>): (r: seq<Slice>)
    ensures |r| == |p|
    ensures forall i :: 0 <= i < |p| ==> r[i].name == p[i].symbol && r[i].value == Value(p[i])
    ensures TotalValue(p) <= 0.0 ==> forall i :: 0 <= i < |r| ==> r[i].percentage == 0.0
    ensures TotalValue(p) > 0.0 ==> forall i :: 0 <= i < |r| ==> r[i].percentage * TotalValue(p) == Value(p[i]) * 100.0
  {
    Slices(p, TotalValue(p))
  }

  /** The percentage of `v` in `total`, 0 for a total that is not positive. */
  function Percent(v: real, total: real): real
  {
    if total > 0.0 then v / total * 100.0 else 0.0
  }

  /** One slice per holding, each with its share of `total`. */
  function Slices(p: seq<Holding>, total: real): seq<Slice>
  {
    seq(|p|, i requires 0 <= i < |p| => Slice(p[i].symbol, Value(p[i]), Percent(Value(p[i]), total)))
  }

  function PercentSum(s: seq<Slice>): real
  {
    if s == [] then 0.0 else s[0].percentage + PercentSum(s[1..])
  }

  /** The shares of `p` in a total `t`, summed, are `p`'s value over `t`. */
  lemma {:induction false} PercentSumOfShares(p: seq<Holding>, t: real)
    requires t > 0.0
    ensures PercentSum(Slices(p, t)) == TotalValue(p) / t * 100.0
  {
    if p != [] {
      PercentSumOfShares(p[1..], t);
      assert Slices(p, t)[1..] == Slices(p[1..], t);
      assert Value(p[0]) / t * 100.0 + TotalValue(p[1..]) / t * 100.0 == (Value(p[0]) + TotalValue(p[1..])) / t * 100.0;
    }
  }

  /** With a positive total the allocation percentages add up to 100. */
  lemma AllocationSumsTo100(p: seq<Holding>)
    requires TotalValue(p) > 0.0
    ensures PercentSum(Allocation(p)) == 100.0
  {
    var t := TotalValue(p);
    PercentSumOfShares(p, t);
    assert t / t * 100.0 == 100.0;
  }

  /** `removeFromPortfolio`: every holding of the symbol goes, the others
      stay in order. */
  function RemoveFromPortfolio(p: seq<Holding>, symbol: string): (r: seq<Holding>)
    ensures forall i :: 0 <= i < |r| ==> r[i].symbol != symbol
    ensures forall h :: h in r <==> h in p && h.symbol != symbol
    ensures Subsequence(r, p)
    ensures forall h :: multiset(r)[h] == if h.symbol != symbol then multiset(p)[h] else 0
  {
    var keep := (h: Holding) => h.symbol != symbol;
    FilterCount(p, keep);
    FilterIsSubsequence(p, keep);
    FilterMember(p, keep);
    Filter(p, keep)
  }

  /** Buying a symbol not yet held and then removing it restores the
      portfolio. */
  lemma {:induction false} RemoveUndoesNewPurchase(p: seq<Holding>, symbol: string, shares: real, price: real, date: string)
    requires shares > 0.0 && PositiveShares(p) && !Held(p, symbol)
    ensures RemoveFromPortfolio(AddToPortfolio(p, symbol, shares, price, date), symbol) == p
  {
    var keep := (h: Holding) => h.symbol != symbol;
    FilterConcat(p, [Holding(symbol, shares, price, price, date)], keep);
    FilterKeepsAll(p, keep);
  }

  /** Replacing one holding changes the totals by the difference. */
  lemma {:induction false} TotalCostReplace(p: seq<Holding>, k: nat, h: Holding)
    requires k < |p|
    ensures TotalCost(p[k := h]) == TotalCost(p) - Cost(p[k]) + Cost(h)
  {
    if k == 0 {
      assert p[k := h][1..] == p[1..];
    } else {
      TotalCostReplace(p[1..], k - 1, h);
      assert p[k := h][1..] == p[1..][k - 1 := h];
    }
  }

  /** With unique symbols, a change confined to one symbol's holdings is a
      change of the single position at `k`. */
  lemma OnlyOneChanged(p: seq<Holding>, r: seq<Holding>, k: nat, symbol: string)
    requires UniqueSymbols(p) && k < |p| && p[k].symbol == symbol && |r| == |p|
    requires forall i :: 0 <= i < |p| && p[i].symbol != symbol ==> r[i] == p[i]
    ensures r == p[k := r[k]]
  {
    forall i | 0 <= i < |p| && i != k
      ensures r[i] == p[i]
    {
      assert p[i].symbol != p[k].symbol;
    }
  }

  /** Buying adds exactly the money spent to the cost basis, whether the
      symbol was new or merged into its (single) existing holding. */
  lemma AddIncreasesCostByPurchase(p: seq<Holding>, symbol: string, shares: real, price: real, date: string)
    requires shares > 0.0 && PositiveShares(p) && UniqueSymbols(p)
    ensures TotalCost(AddToPortfolio(p, symbol, shares, price, date)) == TotalCost(p) + shares * price
  {
    var r := AddToPortfolio(p, symbol, shares, price, date);
    match Existing(p, symbol)
    case Some(e) =>
      var k :| 0 <= k < |p| && p[k] == e;
      MergedCost(p, symbol, shares, price, date, k);
      TotalCostReplace(p, k, r[k]);
    case None =>
      TotalsConcat(p, [Holding(symbol, shares, price, price, date)]);
  }

  /** Merging into the held position at `k` changes only that position, and
      raises its cost by the money spent. */
  lemma MergedCost(p: seq<Holding>, symbol: string, shares: real, price: real, date: string, k: nat)
    requires shares > 0.0 && PositiveShares(p) && UniqueSymbols(p)
    requires k < |p| && p[k].symbol == symbol
    ensures |AddToPortfolio(p, symbol, shares, price, date)| == |p|
    ensures AddToPortfolio(p, symbol, shares, price, date) == p[k := AddToPortfolio(p, symbol, shares, price, date)[k]]
    ensures Cost(AddToPortfolio(p, symbol, shares, price, date)[k]) == Cost(p[k]) + shares * price
  {
    var r := AddToPortfolio(p, symbol, shares, price, date);
    assert p[k] in p;
    var e := Existing(p, symbol).value;
    var j :| 0 <= j < |p| && p[j] == e;
    assert j == k;
    assert MergedFrom(r[k], p[k], e, shares, price);
    OnlyOneChanged(p, r, k, symbol);
  }

  /** Refreshing prices never changes the cost basis. */
  lemma {:induction false} UpdateKeepsCost(p: seq<Holding>, quotes: seq<Quote>)
    ensures TotalCost(UpdatePortfolioData(p, quotes)) == TotalCost(p)
  {
    if p != [] {
      UpdateKeepsCost(p[1..], quotes);
      assert UpdatePortfolioData(p, quotes)[1..] == UpdatePortfolioData(p[1..], quotes);
    }
  }

  // ---------------------------------------------------------------------
  // Insights
  // ---------------------------------------------------------------------

  datatype Insight = NoHoldings | ConsiderDiversifying | GoodStart | WellDiversified

  /** `getDiversificationInsight`, chosen by the number of holdings. */
  function DiversificationInsight(p: seq<Holding>): (r: Insight)
    ensures r == NoHoldings <==> |p| == 0
    ensures r == ConsiderDiversifying <==> |p| == 1
    ensures r == GoodStart <==> 2 <= |p| <= 4
    ensures r == WellDiversified <==> |p| >= 5
  {
    if |p| == 0 then NoHoldings
    else if |p| == 1 then ConsiderDiversifying
    else if |p| < 5 then GoodStart
    else WellDiversified
  }

  datatype Risk = HighRisk | MediumRisk | LowRisk

  /** The risk-level card, chosen by the number of holdings. */
  function RiskLevel(p: seq<Holding>): (r: Risk)
    ensures r == HighRisk <==> |p| < 3
    ensures r == MediumRisk <==> 3 <= |p| < 6
    ensures r == LowRisk <==> |p| >= 6
  {
    if |p| < 3 then HighRisk else if |p| < 6 then MediumRisk else LowRisk
  }

  /** The two count-based cards never contradict each other: a
      well-diversified portfolio is never high risk, a single holding never
      low risk. */
  lemma InsightsAgree(p: seq<Holding>)
    ensures DiversificationInsight(p) == WellDiversified ==> RiskLevel(p) != HighRisk
    ensures DiversificationInsight(p) in {NoHoldings, ConsiderDiversifying} ==> RiskLevel(p) == HighRisk
    ensures RiskLevel(p) == LowRisk ==> DiversificationInsight(p) == WellDiversified
  {
  }

  // ---------------------------------------------------------------------
  // Top performer
  // ---------------------------------------------------------------------

  predicate PricedHoldings(p: seq<Holding>)
  {
    forall i :: 0 <= i < |p| ==> p[i].avgPrice != 0.0
  }

  /** Percentage gain of one holding over its average price. */
  function GainPercent(h: Holding): real
    requires h.avgPrice != 0.0
  {
    (h.currentPrice - h.avgPrice) / h.avgPrice * 100.0
  }

  /** `getTopPerformer`: none for an empty portfolio; otherwise the first
      holding whose gain is at least every holding's gain (`reduce` replaces
      the best only on a strictly greater gain). */
  method GetTopPerformer(p: seq<Holding>) returns (r: Option<Holding>)
    requires PricedHoldings(p)
    ensures r.None? <==> p == []
    ensures r.Some? ==>
      (exists k :: 0 <= k < |p| && p[k] == r.value &&
        (forall j :: 0 <= j < |p| ==> GainPercent(p[j]) <= GainPercent(p[k])) &&
        (forall j :: 0 <= j < k ==> GainPercent(p[j]) < GainPercent(p[k])))
  {
    if p == [] {
      return None;
    }
    var best := 0;
    var i := 1;
    while i < |p|
      invariant 1 <= i <= |p| && 0 <= best < i
      invariant forall j :: 0 <= j < i ==> GainPercent(p[j]) <= GainPercent(p[best])
      invariant forall j :: 0 <= j < best ==> GainPercent(p[j]) < GainPercent(p[best])
    {
      if GainPercent(p[i]) > GainPercent(p[best]) {
        best := i;
      }
      i := i + 1;
    }
    return Some(p[best]);
  }
}
