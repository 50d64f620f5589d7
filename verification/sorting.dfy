/** The stable sort every component relies on (`Array.prototype.sort` is
    stable since ECMAScript 2019), written as an insertion sort over a
    comparator given as a "comes no later than" relation `le`: the source's
    comparator `c` corresponds to `le(a, b) == (c(a, b) <= 0)`. */
module Sorting {
  import opened Common


  /** `le` is a total preorder: any two elements are comparable and the
      relation chains. */
  ghost predicate TotalPreorder<T(!new)>(le: (T, T) -> bool)
  {
    && (forall a, b :: le(a, b) || le(b, a))
    && (forall a, b, c :: le(a, b) && le(b, c) ==> le(a, c))
  }

  predicate SortedBy<T>(s: seq<T>, le: (T, T) -> bool)
  {
    forall i, j :: 0 <= i < j < |s| ==> le(s[i], s[j])
  }

  /** Every slice of a sorted sequence is sorted. */
  lemma SortedSlice<T>(s: seq<T>, lo: nat, hi: nat, le: (T, T) -> bool)
    requires lo <= hi <= |s| && SortedBy(s, le)
    ensures SortedBy(s[lo..hi], le)
  {
    var r := s[lo..hi];
    forall i, j | 0 <= i < j < |r|
      ensures le(r[i], r[j])
    {
      assert r[i] == s[lo + i] && r[j] == s[lo + j];
    }
  }

  /** The last `n` elements of a sorted sequence are sorted, and each is
      an element of it. */
  lemma TakeLastSorted<T>(s: seq<T>, n: nat, le: (T, T) -> bool)
    requires n > 0 && SortedBy(s, le)
    ensures SortedBy(TakeLast(s, n), le)
    ensures forall i :: 0 <= i < |TakeLast(s, n)| ==> TakeLast(s, n)[i] in multiset(s)
  {
    var c := |s| - |TakeLast(s, n)|;
    TakeLastIsSuffix(s, n);
    assert s[c..] == s[c..|s|];
    SortedSlice(s, c, |s|, le);
  }

  /** Cutting a sorted sequence to its last `n` elements drops only
      elements that come no later than every kept one. */
  lemma DroppedBeforeKept<T>(s: seq<T>, n: nat, le: (T, T) -> bool)
    requires n > 0 && SortedBy(s, le)
    ensures multiset(TakeLast(s, n)) <= multiset(s)
    ensures forall e, k :: e in multiset(s) - multiset(TakeLast(s, n)) && k in TakeLast(s, n) ==> le(e, k)
  {
    var r := TakeLast(s, n);
    var c := |s| - |r|;
    TakeLastIsSuffix(s, n);
    assert r == s[c..];
    SplitAt(s, c);
    PrefixBeforeSuffix(s, c, le);
    forall e, k | e in multiset(s) - multiset(r) && k in r
      ensures le(e, k)
    {
      assert e in multiset(s[..c]);
      assert k in s[c..];
    }
  }

  /** Cutting at `c` splits the elements between prefix and suffix. */
  lemma SplitAt<T>(s: seq<T>, c: nat)
    requires c <= |s|
    ensures multiset(s[c..]) <= multiset(s)
    ensures multiset(s) - multiset(s[c..]) == multiset(s[..c])
  {
    assert s == s[..c] + s[c..];
  }

  /** In a sorted sequence every element before `c` comes no later than
      every element from `c` on. */
  lemma PrefixBeforeSuffix<T>(s: seq<T>, c: nat, le: (T, T) -> bool)
    requires c <= |s| && SortedBy(s, le)
    ensures forall e, k :: e in multiset(s[..c]) && k in s[c..] ==> le(e, k)
  {
    forall e, k | e in multiset(s[..c]) && k in s[c..]
      ensures le(e, k)
    {
      var i :| 0 <= i < c && s[..c][i] == e;
      var j :| 0 <= j < |s| - c && s[c..][j] == k;
      assert s[i] == e && s[c + j] == k;
    }
  }

  /** An element that comes no later than every element of a sorted
      sequence can be put in front of it. */
  lemma SortedCons<T>(x: T, s: seq<T>, le: (T, T) -> bool)
    requires SortedBy(s, le) && forall j :: 0 <= j < |s| ==> le(x, s[j])
    ensures SortedBy([x] + s, le)
  {
    var r := [x] + s;
    forall i, j | 0 <= i < j < |r|
      ensures le(r[i], r[j])
    {
      assert r[j] == s[j - 1];
      if i > 0 {
        assert r[i] == s[i - 1];
      }
    }
  }

  /** Filtering a sorted sequence leaves it sorted. */
  lemma {:induction false} SortedFilter<T>(s: seq<T>, p: T -> bool, le: (T, T) -> bool)
    requires SortedBy(s, le)
    ensures SortedBy(Filter(s, p), le)
  {
    if s != [] {
      SortedSlice(s, 1, |s|, le);
      assert s[1..|s|] == s[1..];
      SortedFilter(s[1..], p, le);
      var rest := Filter(s[1..], p);
      if p(s[0]) {
        forall j | 0 <= j < |rest|
          ensures le(s[0], rest[j])
        {
          var k :| 0 <= k < |s| - 1 && s[1..][k] == rest[j];
          assert s[k + 1] == rest[j];
        }
        SortedCons(s[0], rest, le);
        assert Filter(s, p) == [s[0]] + rest;
      } else {
        assert Filter(s, p) == rest;
      }
    }
  }

  /** Places `x` in front of the first element it may precede. */
  function Insert<T>(x: T, s: seq<T>, le: (T, T) -> bool): (r: seq<T>)
    ensures |r| == |s| + 1
    ensures multiset(r) == multiset(s) + multiset{x}
  {
    if s == [] then [x]
    else if le(x, s[0]) then [x] + s
    else
      assert s == [s[0]] + s[1..];
      [s[0]] + Insert(x, s[1..], le)
  }

  function Sort<T>(s: seq<T>, le: (T, T) -> bool): (r: seq<T>)
    ensures |r| == |s|
    ensures multiset(r) == multiset(s)
  {
    if s == [] then []
    else
      assert s == [s[0]] + s[1..];
      Insert(s[0], Sort(s[1..], le), le)
  }

  lemma {:induction false} InsertSorted<T(!new)>(x: T, s: seq<T>, le: (T, T) -> bool)
    requires TotalPreorder(le)
    requires SortedBy(s, le)
    ensures SortedBy(Insert(x, s, le), le)
  {
    if s != [] && !le(x, s[0]) {
      InsertSorted(x, s[1..], le);
      var r := Insert(x, s, le);
      assert r == [s[0]] + Insert(x, s[1..], le);
      forall j | 0 < j < |r|
        ensures le(r[0], r[j])
      {
        var y := r[j];
        assert y in multiset(Insert(x, s[1..], le));
        assert y == x || y in multiset(s[1..]);
        if y != x {
          var k :| 0 <= k < |s[1..]| && s[1..][k] == y;
          assert s[1 + k] == y;
        }
      }
    }
  }

  /** The result is ordered by `le` and is a permutation of the input. */
  lemma {:induction false} SortSorted<T(!new)>(s: seq<T>, le: (T, T) -> bool)
    requires TotalPreorder(le)
    ensures SortedBy(Sort(s, le), le)
  {
    if s != [] {
      SortSorted(s[1..], le);
      InsertSorted(s[0], Sort(s[1..], le), le);
    }
  }

  /** With a comparator that never separates two elements (one that always
      returns 0) the stable sort keeps the input order. */
  lemma {:induction false} SortIdentityWhenAllTied<T>(s: seq<T>, le: (T, T) -> bool)
    requires forall i, j :: 0 <= i < |s| && 0 <= j < |s| ==> le(s[i], s[j])
    ensures Sort(s, le) == s
  {
    if s != [] {
      SortIdentityWhenAllTied(s[1..], le);
      assert Sort(s[1..], le) == s[1..];
      if s[1..] != [] {
        assert le(s[0], s[1..][0]);
      }
    }
  }

  /** The elements `le` cannot separate from `x`: the comparator returns 0
      between them and `x`. */
  function TiedWith<T>(le: (T, T) -> bool, x: T): T -> bool
  {
    (y: T) => le(x, y) && le(y, x)
  }

  /** `r` lists every group of mutually tied elements of `s` in the order
      they have in `s`: what a stable sort promises. */
  ghost predicate KeepsTiesInOrder<T(!new)>(r: seq<T>, s: seq<T>, le: (T, T) -> bool)
  {
    forall x :: Filter(r, TiedWith(le, x)) == Filter(s, TiedWith(le, x))
  }

  /** Inserting `y` puts it behind nothing it is tied with. */
  lemma {:induction false} InsertKeepsTies<T(!new)>(y: T, s: seq<T>, le: (T, T) -> bool, x: T)
    requires TotalPreorder(le)
    ensures Kept(Insert(y, s, le), TiedWith(le, x)) ==
      (if TiedWith(le, x)(y) then [y] else []) + Kept(s, TiedWith(le, x))
  {
    var p := TiedWith(le, x);
    if s == [] {
      assert Insert(y, s, le) == [y];
      assert Kept([y], p) == (if p(y) then [y] else []) + Kept([y][1..], p);
    } else if le(y, s[0]) {
      assert Insert(y, s, le) == [y] + s;
      assert ([y] + s)[1..] == s;
      assert Kept([y] + s, p) == (if p(y) then [y] else []) + Kept(s, p);
    } else {
      var rest := Insert(y, s[1..], le);
      assert Insert(y, s, le) == [s[0]] + rest;
      InsertKeepsTies(y, s[1..], le, x);
      assert ([s[0]] + rest)[1..] == rest;
      assert Kept([s[0]] + rest, p) == (if p(s[0]) then [s[0]] else []) + Kept(rest, p);
      assert Kept(s, p) == (if p(s[0]) then [s[0]] else []) + Kept(s[1..], p);
      var ks := Kept(s[1..], p);
      if p(y) {
        TiedTogether(le, x, y, s[0]);
        assert Kept(rest, p) == [y] + ks;
        assert Kept(s, p) == ks;
        assert Kept([s[0]] + rest, p) == [y] + ks;
      } else {
        assert Kept(rest, p) == ks;
      }
    }
  }

  /** Two elements tied with `x` are tied with each other. */
  lemma TiedTogether<T(!new)>(le: (T, T) -> bool, x: T, y: T, z: T)
    requires TotalPreorder(le)
    ensures TiedWith(le, x)(y) && TiedWith(le, x)(z) ==> le(y, z)
  {
  }

  /** The sort is stable: tied elements keep their input order. */
  lemma {:induction false} SortStable<T(!new)>(s: seq<T>, le: (T, T) -> bool)
    requires TotalPreorder(le)
    ensures KeepsTiesInOrder(Sort(s, le), s, le)
  {
    forall x
      ensures Filter(Sort(s, le), TiedWith(le, x)) == Filter(s, TiedWith(le, x))
    {
      SortKeepsTies(s, le, x);
      FilterIsKept(Sort(s, le), TiedWith(le, x));
      FilterIsKept(s, TiedWith(le, x));
    }
  }

  lemma {:induction false} SortKeepsTies<T(!new)>(s: seq<T>, le: (T, T) -> bool, x: T)
    requires TotalPreorder(le)
    ensures Kept(Sort(s, le), TiedWith(le, x)) == Kept(s, TiedWith(le, x))
  {
    if s != [] {
      SortKeepsTies(s[1..], le, x);
      InsertKeepsTies(s[0], Sort(s[1..], le), le, x);
    }
  }

  /** Sequences with the same multiset have the same elements. */
  lemma SameElements<T>(a: seq<T>, b: seq<T>)
    requires multiset(a) == multiset(b)
    ensures forall x :: x in a <==> x in b
  {
    assert forall x :: x in a <==> x in multiset(a);
    assert forall x :: x in b <==> x in multiset(b);
  }

  lemma StrLeIsTotalPreorder()
    ensures TotalPreorder(StrLe)
  {
    forall a, b ensures StrLe(a, b) || StrLe(b, a) {
      StrLeTotal(a, b);
    }
    forall a, b, c | StrLe(a, b) && StrLe(b, c) ensures StrLe(a, c) {
      StrLeTransitive(a, b, c);
    }
  }

  /** The default `sort()` of pairwise distinct strings: the same strings in
      strictly ascending order. */
  function SortedNames(keys: seq<string>): (r: seq<string>)
    requires forall i, j :: 0 <= i < j < |keys| ==> keys[i] != keys[j]
    ensures forall k :: k in r <==> k in keys
    ensures forall i, j :: 0 <= i < j < |r| ==> StrLt(r[i], r[j])
  {
    var r := Sort(keys, StrLe);
    StrLeIsTotalPreorder();
    SortSorted(keys, StrLe);
    SameElements(r, keys);
    DistinctSortedIsStrict(keys, r);
    r
  }

  /** Sorting distinct names gives a strictly ascending sequence. */
  lemma DistinctSortedIsStrict(keys: seq<string>, r: seq<string>)
    requires forall i, j :: 0 <= i < j < |keys| ==> keys[i] != keys[j]
    requires multiset(r) == multiset(keys)
    requires SortedBy(r, StrLe)
    ensures forall i, j :: 0 <= i < j < |r| ==> StrLt(r[i], r[j])
  {
    forall i, j | 0 <= i < j < |r|
      ensures r[i] != r[j]
    {
      if r[i] == r[j] {
        CountAtLeastTwo(r, i, j);
        DistinctCount(keys, r[i]);
      }
    }
  }

  lemma CountAtLeastTwo<T>(r: seq<T>, i: nat, j: nat)
    requires i < j < |r| && r[i] == r[j]
    ensures multiset(r)[r[i]] >= 2
  {
    assert r == r[..i] + [r[i]] + r[i + 1..j] + [r[j]] + r[j + 1..];
  }

  lemma {:induction false} DistinctCount<T>(s: seq<T>, x: T)
    requires forall i, j :: 0 <= i < j < |s| ==> s[i] != s[j]
    ensures multiset(s)[x] <= 1
  {
    if s != [] {
      DistinctCount(s[1..], x);
      assert s == [s[0]] + s[1..];
      if s[0] == x {
        assert x !in s[1..];
      }
    }
  }
}
