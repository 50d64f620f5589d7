/** The ETF browser's list rules (src/App.js:77-103): the popular funds get
    the default sector, the combined list is filtered by sector and sorted
    by expense ratio, grouped by sector for display with the sector names in
    sorted order, and the selection is repaired to the first displayed fund
    when it falls out of view. */
module Etfs {
  import opened Common
  import opened Sorting

  /** A fund; an empty `sector` is a fund without one. */
  datatype Etf = Etf(ticker: string, name: string, sector: string, expenseRatio: real)

  const BroadMarket: string := "Broad Market"
  const AllSectors: string := "All"

  /** `etf.sector || 'Broad Market'`. */
  function SectorKey(e: Etf): (k: string)
    ensures k != ""
    ensures e.sector != "" ==> k == e.sector
  {
    if e.sector == "" then BroadMarket else e.sector
  }

  function WithDefaultSector(e: Etf): Etf
  {
    e.(sector := SectorKey(e))
  }

  /** `combinedETFs`: the popular funds, each with its sector defaulted,
      followed by the sector funds as they are. */
  function CombinedEtfs(popular: seq<Etf>, sectorFunds: seq<Etf>): (r: seq<Etf>)
    ensures |r| == |popular| + |sectorFunds|
    ensures forall i :: 0 <= i < |popular| ==> r[i] == popular[i].(sector := SectorKey(popular[i]))
    ensures forall i :: 0 <= i < |popular| ==> r[i].sector != ""
    ensures r[|popular|..] == sectorFunds
  {
    seq(|popular|, i requires 0 <= i < |popular| => WithDefaultSector(popular[i])) + sectorFunds
  }

  /** The sector filter: "All" keeps every fund, any other value exactly the
      funds of that sector. */
  predicate InSector(filter: string, e: Etf)
  {
    filter == AllSectors || e.sector == filter
  }

  datatype ExpenseSort = Lowest | Highest | Unsorted

  /** The comparator as a "comes no later than" relation. */
  function ExpenseLe(mode: ExpenseSort): (Etf, Etf) -> bool
  {
    match mode
    case Lowest => (a: Etf, b: Etf) => a.expenseRatio <= b.expenseRatio
    case Highest => (a: Etf, b: Etf) => b.expenseRatio <= a.expenseRatio
    case Unsorted => (a: Etf, b: Etf) => true
  }

  lemma ExpenseLeIsTotalPreorder(mode: ExpenseSort)
    ensures TotalPreorder(ExpenseLe(mode))
  {
  }

  /** `displayedETFs`: exactly the funds passing the sector filter, as a
      permutation of them; ascending in expense ratio for "low", descending
      for "high", and in the combined list's order otherwise. */
  function DisplayedEtfs(combined: seq<Etf>, filter: string, mode: ExpenseSort): (r: seq<Etf>)
    ensures multiset(r) == multiset(Filter(combined, (e: Etf) => InSector(filter, e)))
    ensures forall e :: e in r <==> e in combined && InSector(filter, e)
    ensures mode == Lowest ==> forall i, j :: 0 <= i < j < |r| ==> r[i].expenseRatio <= r[j].expenseRatio
    ensures mode == Highest ==> forall i, j :: 0 <= i < j < |r| ==> r[i].expenseRatio >= r[j].expenseRatio
    ensures mode == Unsorted ==> r == Filter(combined, (e: Etf) => InSector(filter, e))
    ensures KeepsTiesInOrder(r, Filter(combined, (e: Etf) => InSector(filter, e)), ExpenseLe(mode))
  {
    var kept := Filter(combined, (e: Etf) => InSector(filter, e));
    FilterMember(combined, (e: Etf) => InSector(filter, e));
    ExpenseLeIsTotalPreorder(mode);
    SortSorted(kept, ExpenseLe(mode));
    SameElements(Sort(kept, ExpenseLe(mode)), kept);
    SortStable(kept, ExpenseLe(mode));
    if mode == Unsorted then
      SortIdentityWhenAllTied(kept, ExpenseLe(mode));
      Sort(kept, ExpenseLe(mode))
    else Sort(kept, ExpenseLe(mode))
  }

  predicate SameRatio(f: Etf, e: Etf)
  {
    e.expenseRatio == f.expenseRatio
  }

  /** Funds with equal expense ratios (VOO, IVV, VTI and AGG all charge
      0.03) keep the order the sector filter gives them, in every sort
      mode. */
  lemma EqualRatiosKeepFilterOrder(combined: seq<Etf>, filter: string, mode: ExpenseSort, f: Etf)
    ensures Filter(DisplayedEtfs(combined, filter, mode), (e: Etf) => SameRatio(f, e)) ==
      Filter(Filter(combined, (e: Etf) => InSector(filter, e)), (e: Etf) => SameRatio(f, e))
  {
    var kept := Filter(combined, (e: Etf) => InSector(filter, e));
    var r := DisplayedEtfs(combined, filter, mode);
    if mode != Unsorted {
      var tied := TiedWith(ExpenseLe(mode), f);
      assert Filter(r, tied) == Filter(kept, tied);
      FilterAgree(r, tied, (e: Etf) => SameRatio(f, e));
      FilterAgree(kept, tied, (e: Etf) => SameRatio(f, e));
    }
  }

  /** "All" with no sort shows the combined list unchanged. */
  lemma AllUnsortedShowsEverything(combined: seq<Etf>)
    ensures DisplayedEtfs(combined, AllSectors, Unsorted) == combined
  {
    FilterKeepsAll(combined, (e: Etf) => InSector(AllSectors, e));
  }

  // ---------------------------------------------------------------------
  // Grouping by sector
  // ---------------------------------------------------------------------

  type Groups = map<string, seq<Etf>>

  /** One step of the `reduce`: append the fund to its sector's group,
      creating the group if needed. */
  function AddToGroup(acc: Groups, e: Etf): (g: Groups)
    ensures g.Keys == acc.Keys + {SectorKey(e)}
    ensures g[SectorKey(e)] == (if SectorKey(e) in acc then acc[SectorKey(e)] else []) + [e]
    ensures forall k :: k in acc && k != SectorKey(e) ==> g[k] == acc[k]
  {
    var key := SectorKey(e);
    acc[key := (if key in acc then acc[key] else []) + [e]]
  }

  /** `groupedBySector`: the `reduce` over the displayed funds, left to right. */
  function GroupedBySector(displayed: seq<Etf>): Groups
  {
    if displayed == [] then map[]
    else AddToGroup(GroupedBySector(displayed[..|displayed| - 1]), displayed[|displayed| - 1])
  }

  predicate HasKey(k: string, e: Etf)
  {
    SectorKey(e) == k
  }

  /** The groups partition the displayed funds: the keys are exactly their
      sectors, and each group is exactly the funds of its sector in
      displayed order. */
  lemma GroupsAreSectorFilters(displayed: seq<Etf>)
    ensures GroupedBySector(displayed).Keys == set e | e in displayed :: SectorKey(e)
    ensures forall k :: k in GroupedBySector(displayed) ==>
      GroupedBySector(displayed)[k] == Filter(displayed, (e: Etf) => HasKey(k, e))
  {
    GroupsAreKept(displayed);
    forall k | k in GroupedBySector(displayed)
      ensures GroupedBySector(displayed)[k] == Filter(displayed, (e: Etf) => HasKey(k, e))
    {
      FilterIsKept(displayed, (e: Etf) => HasKey(k, e));
    }
  }

  lemma {:induction false} GroupsAreKept(displayed: seq<Etf>)
    ensures GroupedBySector(displayed).Keys == set e | e in displayed :: SectorKey(e)
    ensures forall k :: k in GroupedBySector(displayed) ==>
      GroupedBySector(displayed)[k] == Kept(displayed, (e: Etf) => HasKey(k, e))
  {
    if displayed != [] {
      var init := displayed[..|displayed| - 1];
      var last := displayed[|displayed| - 1];
      assert displayed == init + [last];
      GroupsAreKept(init);
      forall k | k in GroupedBySector(displayed)
        ensures GroupedBySector(displayed)[k] == Kept(displayed, (e: Etf) => HasKey(k, e))
      {
        GroupStep(init, last, k);
      }
    }
  }

  /** One step of the fold keeps each group equal to its sector's funds. */
  lemma GroupStep(init: seq<Etf>, last: Etf, k: string)
    requires forall e :: e in init ==> SectorKey(e) in GroupedBySector(init)
    requires forall k :: k in GroupedBySector(init) ==>
      GroupedBySector(init)[k] == Kept(init, (e: Etf) => HasKey(k, e))
    requires k in GroupedBySector(init + [last])
    ensures GroupedBySector(init + [last])[k] == Kept(init + [last], (e: Etf) => HasKey(k, e))
  {
    assert (init + [last])[..|init + [last]| - 1] == init;
    assert GroupedBySector(init + [last]) == AddToGroup(GroupedBySector(init), last);
    KeptConcat(init, [last], (e: Etf) => HasKey(k, e));
    if k == SectorKey(last) {
      GroupStepOwnSector(init, last);
    } else {
      GroupStepOtherSector(init, last, k);
    }
  }

  /** The appended fund joins the end of its own sector's group. */
  lemma GroupStepOwnSector(init: seq<Etf>, last: Etf)
    requires forall e :: e in init ==> SectorKey(e) in GroupedBySector(init)
    requires forall k :: k in GroupedBySector(init) ==>
      GroupedBySector(init)[k] == Kept(init, (e: Etf) => HasKey(k, e))
    ensures AddToGroup(GroupedBySector(init), last)[SectorKey(last)] ==
      Kept(init, (e: Etf) => HasKey(SectorKey(last), e)) + Kept([last], (e: Etf) => HasKey(SectorKey(last), e))
  {
    var k := SectorKey(last);
    assert Kept([last], (e: Etf) => HasKey(k, e)) == [last];
    if k !in GroupedBySector(init) {
      KeptNone(init, k);
    }
  }

  /** Every other sector's group is left as it was. */
  lemma GroupStepOtherSector(init: seq<Etf>, last: Etf, k: string)
    requires forall k :: k in GroupedBySector(init) ==>
      GroupedBySector(init)[k] == Kept(init, (e: Etf) => HasKey(k, e))
    requires k != SectorKey(last) && k in AddToGroup(GroupedBySector(init), last)
    ensures AddToGroup(GroupedBySector(init), last)[k] ==
      Kept(init, (e: Etf) => HasKey(k, e)) + Kept([last], (e: Etf) => HasKey(k, e))
  {
    assert Kept([last], (e: Etf) => HasKey(k, e)) == [];
  }

  lemma {:induction false} KeptNone(s: seq<Etf>, k: string)
    requires forall e :: e in s ==> SectorKey(e) != k
    ensures Kept(s, (e: Etf) => HasKey(k, e)) == []
  {
    if s != [] {
      KeptNone(s[1..], k);
    }
  }

  /** The sector key of each displayed fund, in order. */
  function SectorKeys(displayed: seq<Etf>): (r: seq<string>)
    ensures |r| == |displayed|
    ensures forall i :: 0 <= i < |r| ==> r[i] == SectorKey(displayed[i])
  {
    seq(|displayed|, i requires 0 <= i < |displayed| => SectorKey(displayed[i]))
  }

  /** `sectorOrder`: the group names, each once, in ascending order. */
  function SectorOrder(displayed: seq<Etf>): (r: seq<string>)
    ensures forall k :: k in r <==> k in GroupedBySector(displayed)
    ensures forall i, j :: 0 <= i < j < |r| ==> StrLt(r[i], r[j])
  {
    var keys := SectorKeys(displayed);
    GroupsAreSectorFilters(displayed);
    assert forall k :: k in keys <==> exists e :: e in displayed && SectorKey(e) == k by {
      forall k | k in keys ensures exists e :: e in displayed && SectorKey(e) == k {
        var i :| 0 <= i < |keys| && keys[i] == k;
        assert displayed[i] in displayed;
      }
      forall k | exists e :: e in displayed && SectorKey(e) == k ensures k in keys {
        var e :| e in displayed && SectorKey(e) == k;
        var i :| 0 <= i < |displayed| && displayed[i] == e;
        assert keys[i] == k;
      }
    }
    SortedNames(Distinct(keys))
  }

  // ---------------------------------------------------------------------
  // Selection repair
  // ---------------------------------------------------------------------

  predicate Shows(displayed: seq<Etf>, ticker: string)
  {
    exists i :: 0 <= i < |displayed| && displayed[i].ticker == ticker
  }

  /** The selection effect: with funds on display, an empty selection or one
      not displayed becomes the first displayed fund; otherwise nothing
      changes. */
  function RepairSelection(displayed: seq<Etf>, selected: string): (r: string)
    ensures displayed != [] ==> Shows(displayed, r)
    ensures displayed == [] ==> r == selected
    ensures selected != "" && Shows(displayed, selected) ==> r == selected
    ensures (selected == "" || !Shows(displayed, selected)) && displayed != [] ==> r == displayed[0].ticker
  {
    if displayed == [] then selected
    else if selected == "" || !Shows(displayed, selected) then displayed[0].ticker
    else selected
  }

  /** Repair is idempotent: the effect settles after one run. */
  lemma RepairSettles(displayed: seq<Etf>, selected: string)
    requires displayed != [] ==> displayed[0].ticker != ""
    ensures RepairSelection(displayed, RepairSelection(displayed, selected)) == RepairSelection(displayed, selected)
  {
  }
}
