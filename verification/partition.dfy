/** The three-way split the ratings and news panels share
    (src/components/AnalystRatings.js:19-21, src/components/News.js:47-49):
    items for the user's holdings first, then items for popular names that
    are not holdings items, then everything else. */
module Partition {
  import opened Common

  datatype Sections<T> = Sections(holdings: seq<T>, popular: seq<T>, rest: seq<T>)

  predicate PopularOnly<T>(held: T -> bool, popular: T -> bool, x: T)
  {
    !held(x) && popular(x)
  }

  predicate Neither<T>(held: T -> bool, popular: T -> bool, x: T)
  {
    !held(x) && !popular(x)
  }

  /** The three `filter`s over the same list. Each section keeps the list's
      order; an item is a holdings item when `held` says so, a popular item
      when it is not held and `popular` says so, and a rest item otherwise;
      so the three together hold every item exactly once. */
  function Split3<T(!new)>(s: seq<T>, held: T -> bool, popular: T -> bool): (r: Sections<T>)
    ensures forall x :: x in r.holdings <==> x in s && held(x)
    ensures forall x :: x in r.popular <==> x in s && !held(x) && popular(x)
    ensures forall x :: x in r.rest <==> x in s && !held(x) && !popular(x)
    ensures Subsequence(r.holdings, s) && Subsequence(r.popular, s) && Subsequence(r.rest, s)
    ensures multiset(r.holdings) + multiset(r.popular) + multiset(r.rest) == multiset(s)
  {
    var p := (x: T) => PopularOnly(held, popular, x);
    var q := (x: T) => Neither(held, popular, x);
    FilterMember(s, held);
    FilterMember(s, p);
    FilterMember(s, q);
    FilterIsSubsequence(s, held);
    FilterIsSubsequence(s, p);
    FilterIsSubsequence(s, q);
    ThreeFiltersCover(s, held, popular);
    Sections(Filter(s, held), Filter(s, p), Filter(s, q))
  }

  /** The three filters count every item of the list once. */
  lemma ThreeFiltersCover<T>(s: seq<T>, held: T -> bool, popular: T -> bool)
    ensures multiset(Filter(s, held)) + multiset(Filter(s, (x: T) => PopularOnly(held, popular, x)))
      + multiset(Filter(s, (x: T) => Neither(held, popular, x))) == multiset(s)
  {
    FilterIsKept(s, held);
    FilterIsKept(s, (x: T) => PopularOnly(held, popular, x));
    FilterIsKept(s, (x: T) => Neither(held, popular, x));
    KeptThree(s, held, popular);
  }

  lemma {:induction false} KeptThree<T>(s: seq<T>, held: T -> bool, popular: T -> bool)
    ensures multiset(Kept(s, held)) + multiset(Kept(s, (x: T) => PopularOnly(held, popular, x)))
      + multiset(Kept(s, (x: T) => Neither(held, popular, x))) == multiset(s)
  {
    if s != [] {
      KeptThree(s[1..], held, popular);
      assert s == [s[0]] + s[1..];
    }
  }

  /** No item appears in two sections. */
  lemma SectionsDisjoint<T(!new)>(s: seq<T>, held: T -> bool, popular: T -> bool, x: T)
    ensures var r := Split3(s, held, popular);
      && !(x in r.holdings && x in r.popular)
      && !(x in r.holdings && x in r.rest)
      && !(x in r.popular && x in r.rest)
  {
  }
}
