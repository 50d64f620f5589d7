/** The economic calendar's table rules (src/components/EconomicCalendar.js):
    the impact filter, the sort by impact rank, date and time, and the choice
    of the explanatory guide from the event's name. */
module EconomicCalendar {
  import opened Common
  import opened Sorting

  /** One calendar row; an empty `time`, `name` or `impact` stands for a
      missing field (the source reads each through `|| ''` or `|| 'Low'`). */
  datatype Event = Event(date: string, time: string, name: string, impact: string)

  const AllImpacts: string := "All"

  /** `e.impact || 'Low'`: the impact the filter sees. */
  function FilterImpact(e: Event): (i: string)
    ensures i != ""
    ensures e.impact != "" ==> i == e.impact
  {
    if e.impact == "" then "Low" else e.impact
  }

  /** The impact filter: "All" keeps every event, any other value exactly the
      events whose impact, defaulted to "Low", equals it. */
  predicate PassesImpact(filter: string, e: Event)
  {
    filter == AllImpacts || FilterImpact(e) == filter
  }

  /** `impactRank[impact] || 0`: High outranks Medium, which outranks Low,
      which outranks every other value, a missing impact included. */
  function ImpactRank(impact: string): (r: nat)
    ensures r <= 3
    ensures r == 0 <==> impact != "High" && impact != "Medium" && impact != "Low"
    ensures impact == "High" ==> r == 3
    ensures impact == "Medium" ==> r == 2
    ensures impact == "Low" ==> r == 1
  {
    if impact == "High" then 3
    else if impact == "Medium" then 2
    else if impact == "Low" then 1
    else 0
  }

  /** The comparator as a "comes no later than" relation: a higher rank
      first; within a rank the earlier date; within a date the earlier time. */
  predicate EventLe(a: Event, b: Event)
  {
    || ImpactRank(a.impact) > ImpactRank(b.impact)
    || (ImpactRank(a.impact) == ImpactRank(b.impact) &&
        (StrLt(a.date, b.date) || (a.date == b.date && StrLe(a.time, b.time))))
  }

  lemma StrLtLe(a: string, b: string, c: string)
    requires StrLt(a, b) && StrLe(b, c)
    ensures StrLt(a, c)
  {
    StrLeTransitive(a, b, c);
    if a == c {
      StrLeAntisymmetric(a, b);
    }
  }

  lemma EventLeTotal(a: Event, b: Event)
    ensures EventLe(a, b) || EventLe(b, a)
  {
    StrLeTotal(a.date, b.date);
    StrLeTotal(a.time, b.time);
  }

  lemma EventLeTransitive(a: Event, b: Event, c: Event)
    requires EventLe(a, b) && EventLe(b, c)
    ensures EventLe(a, c)
  {
    if ImpactRank(a.impact) == ImpactRank(b.impact) == ImpactRank(c.impact) {
      if StrLt(a.date, b.date) {
        if StrLt(b.date, c.date) {
          StrLtLe(a.date, b.date, c.date);
        } else {
          assert b.date == c.date;
        }
      } else if StrLt(b.date, c.date) {
        assert a.date == b.date;
      } else {
        StrLeTransitive(a.time, b.time, c.time);
      }
    }
  }

  /** The comparator orders events consistently, so the sort is well
      defined. */
  lemma EventLeIsTotalPreorder()
    ensures TotalPreorder(EventLe)
  {
    forall a, b ensures EventLe(a, b) || EventLe(b, a) {
      EventLeTotal(a, b);
    }
    forall a, b, c | EventLe(a, b) && EventLe(b, c) ensures EventLe(a, c) {
      EventLeTransitive(a, b, c);
    }
  }

  /** `rows`: a copy of the events, filtered by impact and sorted. The result
      is a permutation of the events passing the filter, in descending rank,
      ties broken by ascending date and then by ascending time. */
  function Rows(events: seq<Event>, filter: string): (r: seq<Event>)
    ensures multiset(r) == multiset(Filter(events, (e: Event) => PassesImpact(filter, e)))
    ensures filter == AllImpacts ==> multiset(r) == multiset(events)
    ensures forall e :: e in r <==> e in events && PassesImpact(filter, e)
    ensures forall i, j :: 0 <= i < j < |r| ==> ImpactRank(r[i].impact) >= ImpactRank(r[j].impact)
    ensures forall i, j :: 0 <= i < j < |r| && ImpactRank(r[i].impact) == ImpactRank(r[j].impact) ==>
      StrLe(r[i].date, r[j].date)
    ensures forall i, j :: 0 <= i < j < |r| && ImpactRank(r[i].impact) == ImpactRank(r[j].impact) && r[i].date == r[j].date ==>
      StrLe(r[i].time, r[j].time)
    ensures KeepsTiesInOrder(r, Filter(events, (e: Event) => PassesImpact(filter, e)), EventLe)
  {
    var keep := (e: Event) => PassesImpact(filter, e);
    var kept := Filter(events, keep);
    FilterMember(events, keep);
    AllKeepsEvery(events, filter);
    EventLeIsTotalPreorder();
    SortSorted(kept, EventLe);
    var r := Sort(kept, EventLe);
    SortedEvents(r);
    SameElements(r, kept);
    SortStable(kept, EventLe);
    r
  }

  lemma AllKeepsEvery(events: seq<Event>, filter: string)
    ensures filter == AllImpacts ==> Filter(events, (e: Event) => PassesImpact(filter, e)) == events
  {
    if filter == AllImpacts {
      FilterKeepsAll(events, (e: Event) => PassesImpact(filter, e));
    }
  }

  /** What `SortedBy(r, EventLe)` says about the three keys. */
  lemma SortedEvents(r: seq<Event>)
    requires SortedBy(r, EventLe)
    ensures forall i, j :: 0 <= i < j < |r| ==> ImpactRank(r[i].impact) >= ImpactRank(r[j].impact)
    ensures forall i, j :: 0 <= i < j < |r| && ImpactRank(r[i].impact) == ImpactRank(r[j].impact) ==>
      StrLe(r[i].date, r[j].date)
    ensures forall i, j :: 0 <= i < j < |r| && ImpactRank(r[i].impact) == ImpactRank(r[j].impact) && r[i].date == r[j].date ==>
      StrLe(r[i].time, r[j].time)
  {
    forall i, j | 0 <= i < j < |r|
      ensures ImpactRank(r[i].impact) >= ImpactRank(r[j].impact)
      ensures ImpactRank(r[i].impact) == ImpactRank(r[j].impact) ==> StrLe(r[i].date, r[j].date)
      ensures ImpactRank(r[i].impact) == ImpactRank(r[j].impact) && r[i].date == r[j].date ==> StrLe(r[i].time, r[j].time)
    {
      assert EventLe(r[i], r[j]);
      StrLeReflexive(r[i].date);
    }
  }

  /** Events the comparator cannot separate: same rank, date and time. */
  predicate SameSlot(a: Event, b: Event)
  {
    ImpactRank(a.impact) == ImpactRank(b.impact) && a.date == b.date && a.time == b.time
  }

  lemma TiedIsSameSlot(a: Event, b: Event)
    ensures EventLe(a, b) && EventLe(b, a) <==> SameSlot(a, b)
  {
    if EventLe(a, b) && EventLe(b, a) {
      StrLeReflexive(a.date);
      assert StrLe(a.date, b.date) && StrLe(b.date, a.date);
      StrLeAntisymmetric(a.date, b.date);
      StrLeAntisymmetric(a.time, b.time);
    }
    if SameSlot(a, b) {
      StrLeReflexive(a.time);
    }
  }

  /** Events in the same slot keep the order the filter gives them, as the
      two CPI releases at 08:30 on 2025-08-18 do. */
  lemma SameSlotKeepsFilterOrder(events: seq<Event>, filter: string, x: Event)
    ensures Filter(Rows(events, filter), (e: Event) => SameSlot(x, e)) ==
      Filter(Filter(events, (e: Event) => PassesImpact(filter, e)), (e: Event) => SameSlot(x, e))
  {
    var kept := Filter(events, (e: Event) => PassesImpact(filter, e));
    var r := Rows(events, filter);
    var tied := TiedWith(EventLe, x);
    assert Filter(r, tied) == Filter(kept, tied);
    forall e ensures tied(e) == SameSlot(x, e) {
      TiedIsSameSlot(x, e);
    }
    FilterAgree(r, tied, (e: Event) => SameSlot(x, e));
    FilterAgree(kept, tied, (e: Event) => SameSlot(x, e));
  }

  /** The filter and the sort read a missing impact differently: under the
      "Low" filter such an event is kept, yet it ranks below every event
      rated "Low" whatever the dates. */
  lemma UnratedSortsAfterLow(unrated: Event, low: Event)
    requires unrated.impact == "" && low.impact == "Low"
    ensures Rows([unrated, low], "Low") == [low, unrated]
  {
    var keep := (e: Event) => PassesImpact("Low", e);
    assert Filter([unrated, low], keep) == [unrated, low] by {
      FilterKeepsAll([unrated, low], keep);
    }
    assert !EventLe(unrated, low);
    assert Sort([low], EventLe) == [low];
    assert Sort([unrated, low], EventLe) == Insert(unrated, [low], EventLe);
  }

  // ---------------------------------------------------------------------
  // The guide shown for an event
  // ---------------------------------------------------------------------

  datatype Guide = CpiGuide | JoblessGuide | HomeSalesGuide | FedSpeechGuide | GeneralGuide

  /** `guideText(e)`'s branch, on the lower-cased name: the first test that
      matches wins, in the order CPI, jobless claims, home sales, Fed chair
      or speech, and a general guide otherwise. */
  function GuideFor(e: Event): (g: Guide)
    ensures g == CpiGuide <==> Contains(Lower(e.name), "cpi")
    ensures g == JoblessGuide <==> !Contains(Lower(e.name), "cpi") && Contains(Lower(e.name), "jobless")
    ensures g == HomeSalesGuide <==>
      !Contains(Lower(e.name), "cpi") && !Contains(Lower(e.name), "jobless") && Contains(Lower(e.name), "home sales")
    ensures g == FedSpeechGuide <==>
      && !Contains(Lower(e.name), "cpi") && !Contains(Lower(e.name), "jobless") && !Contains(Lower(e.name), "home sales")
      && (Contains(Lower(e.name), "fed chair") || Contains(Lower(e.name), "speech"))
  {
    var name := Lower(e.name);
    CoreCpiIsCpi(name);
    if Contains(name, "core cpi") || Contains(name, "cpi") then CpiGuide
    else if Contains(name, "jobless") then JoblessGuide
    else if Contains(name, "home sales") then HomeSalesGuide
    else if Contains(name, "fed chair") || Contains(name, "speech") then FedSpeechGuide
    else GeneralGuide
  }

  /** The "core cpi" test adds nothing to the "cpi" test. */
  lemma CoreCpiIsCpi(name: string)
    ensures Contains(name, "core cpi") ==> Contains(name, "cpi")
  {
    if Contains(name, "core cpi") {
      assert "core cpi"[5..8] == "cpi";
      ContainsSub(name, "core cpi", "cpi", 5);
    }
  }

  /** A string lacking one of a pattern's characters does not contain it. */
  lemma {:induction false} MissingCharNotContained(s: string, sub: string, k: nat)
    requires k < |sub| && sub[k] !in s
    ensures !Contains(s, sub)
  {
  }

  /** Both inflation releases get the CPI guide, whatever their case. */
  lemma CpiReleasesGetCpiGuide(e: Event)
    requires e.name == "CPI (YoY)" || e.name == "Core CPI (YoY)"
    ensures GuideFor(e) == CpiGuide
  {
    if e.name == "CPI (YoY)" {
      assert Lower(e.name)[0..3] == "cpi";
      assert OccursAt(Lower(e.name), "cpi", 0);
    } else {
      assert Lower(e.name)[5..8] == "cpi";
      assert OccursAt(Lower(e.name), "cpi", 5);
    }
  }

  /** The labour-market release gets its own guide: its name holds no "p",
      so the CPI test cannot fire first. */
  lemma JoblessClaimsGuide(e: Event)
    requires e.name == "Initial Jobless Claims"
    ensures GuideFor(e) == JoblessGuide
  {
    var name := "initial jobless claims";
    LowerJoblessClaims();
    assert !Contains(name, "cpi") by {
      MissingCharNotContained(name, "cpi", 1);
    }
    assert Contains(name, "jobless") by {
      assert name[8..15] == "jobless";
      assert OccursAt(name, "jobless", 8);
    }
  }

  lemma LowerJoblessClaims()
    ensures Lower("Initial Jobless Claims") == "initial jobless claims"
  {
  }

  /** The housing release gets its own guide: its name holds neither "p" nor
      "j", so neither earlier test fires. */
  lemma HomeSalesGuideFor(e: Event)
    requires e.name == "Existing Home Sales"
    ensures GuideFor(e) == HomeSalesGuide
  {
    var name := "existing home sales";
    LowerExistingHomeSales();
    assert !Contains(name, "cpi") by {
      MissingCharNotContained(name, "cpi", 1);
    }
    assert !Contains(name, "jobless") by {
      MissingCharNotContained(name, "jobless", 0);
    }
    assert Contains(name, "home sales") by {
      assert name[9..19] == "home sales";
      assert OccursAt(name, "home sales", 9);
    }
  }

  lemma LowerExistingHomeSales()
    ensures Lower("Existing Home Sales") == "existing home sales"
  {
  }
}
