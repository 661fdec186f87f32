/**
 * Sequence helpers shared by the feature extractor, the aggregator and the
 * report: occurrence counts, first-appearance de-duplication (pandas
 * `unique()` / `nunique()`), sums, extrema and an ascending sort
 * (pandas `sort_values`).
 */
module Seqs {

  /** Number of occurrences of `x` in `s`. */
  function Count<T(==)>(s: seq<T>, x: T): (r: nat)
    ensures r <= |s|
    ensures r > 0 <==> x in s
  {
    if |s| == 0 then 0
    else
      assert s == s[..|s| - 1] + [s[|s| - 1]];
      Count(s[..|s| - 1], x) + (if s[|s| - 1] == x then 1 else 0)
  }

  lemma CountAppend<T>(s: seq<T>, y: T, x: T)
    ensures Count(s + [y], x) == Count(s, x) + (if y == x then 1 else 0)
  {
    assert (s + [y])[..|s|] == s;
  }

  ghost predicate NoDups<T>(s: seq<T>) {
    forall i, j :: 0 <= i < j < |s| ==> s[i] != s[j]
  }

  /** Position of the first occurrence of `x` in `s`. */
  function FirstIndex<T(==)>(s: seq<T>, x: T): (i: nat)
    requires x in s
    ensures i < |s| && s[i] == x
    ensures forall j :: 0 <= j < i ==> s[j] != x
  {
    if s[0] == x then 0 else 1 + FirstIndex(s[1..], x)
  }

  /** Appending an element does not move any earlier first occurrence. */
  lemma {:induction false} FirstIndexAppend<T>(s: seq<T>, y: T)
    ensures forall x :: x in s ==> FirstIndex(s + [y], x) == FirstIndex(s, x)
    ensures y !in s ==> FirstIndex(s + [y], y) == |s|
  {
    forall x | x in s
      ensures FirstIndex(s + [y], x) == FirstIndex(s, x)
    {
      var i := FirstIndex(s, x);
      var k := FirstIndex(s + [y], x);
      assert (s + [y])[i] == x;
      assert k <= i;
      assert s[k] == (s + [y])[k];
    }
    if y !in s {
      var k := FirstIndex(s + [y], y);
      assert (s + [y])[|s|] == y;
      assert forall j :: 0 <= j < |s| ==> (s + [y])[j] == s[j];
    }
  }

  /**
   * The distinct elements of `s`, each once, in the order of their first
   * appearance in `s`.
   */
  function Distinct<T(==)>(s: seq<T>): (r: seq<T>)
    ensures NoDups(r)
    ensures forall i :: 0 <= i < |s| ==> s[i] in r
    ensures forall i :: 0 <= i < |r| ==> r[i] in s
    ensures |r| <= |s|
  {
    if |s| == 0 then []
    else
      var init := Distinct(s[..|s| - 1]);
      var last := s[|s| - 1];
      assert s == s[..|s| - 1] + [last];
      if last in init then init else init + [last]
  }

  lemma {:induction false} DistinctFirstAppearance<T>(s: seq<T>)
    ensures forall i, j :: 0 <= i < j < |Distinct(s)| ==>
              FirstIndex(s, Distinct(s)[i]) < FirstIndex(s, Distinct(s)[j])
  {
    if |s| > 0 {
      var p := s[..|s| - 1];
      var last := s[|s| - 1];
      assert s == p + [last];
      DistinctFirstAppearance(p);
      FirstIndexAppend(p, last);
      var d := Distinct(p);
      forall i, j | 0 <= i < j < |Distinct(s)|
        ensures FirstIndex(s, Distinct(s)[i]) < FirstIndex(s, Distinct(s)[j])
      {
        assert Distinct(s)[i] == d[i];
        if j < |d| {
          assert Distinct(s)[j] == d[j];
        } else {
          assert Distinct(s)[j] == last && last !in p;
        }
      }
    }
  }

  lemma DistinctNonEmpty<T>(s: seq<T>)
    requires |s| > 0
    ensures |Distinct(s)| >= 1
  {
    assert s[0] in Distinct(s);
  }

  /** Sum of `Count(s, k)` over the keys `ks`. */
  function SumCounts<T(==)>(ks: seq<T>, s: seq<T>): nat {
    if |ks| == 0 then 0 else SumCounts(ks[..|ks| - 1], s) + Count(s, ks[|ks| - 1])
  }

  lemma {:induction false} SumCountsAppendRow<T>(ks: seq<T>, s: seq<T>, y: T)
    requires NoDups(ks)
    ensures SumCounts(ks, s + [y]) == SumCounts(ks, s) + (if y in ks then 1 else 0)
  {
    if |ks| > 0 {
      var init := ks[..|ks| - 1];
      var k := ks[|ks| - 1];
      assert ks == init + [k];
      assert NoDups(init);
      SumCountsAppendRow(init, s, y);
      CountAppend(s, y, k);
      assert y in ks <==> y in init || y == k;
      assert y == k ==> y !in init;
    }
  }

  /** Every element of `s` is counted exactly once across its distinct values. */
  lemma {:induction false} SumCountsDistinct<T>(s: seq<T>)
    ensures SumCounts(Distinct(s), s) == |s|
  {
    if |s| > 0 {
      var p := s[..|s| - 1];
      var y := s[|s| - 1];
      assert s == p + [y];
      SumCountsDistinct(p);
      var d := Distinct(p);
      SumCountsAppendRow(d, p, y);
      if y !in d {
        assert Distinct(s) == d + [y];
        assert (d + [y])[..|d|] == d;
        CountAppend(p, y, y);
      }
    }
  }

  /** A duplicate-free sequence has as many elements as its set. */
  lemma {:induction false} NoDupsCardinality<T>(s: seq<T>)
    requires NoDups(s)
    ensures |set x | x in s| == |s|
  {
    if |s| > 0 {
      var p := s[..|s| - 1];
      var y := s[|s| - 1];
      assert s == p + [y];
      assert NoDups(p);
      NoDupsCardinality(p);
      assert y !in p;
      assert (set x | x in s) == (set x | x in p) + {y};
    }
  }

  function SumInts(s: seq<int>): int {
    if |s| == 0 then 0 else SumInts(s[..|s| - 1]) + s[|s| - 1]
  }

  function SumReals(s: seq<real>): real {
    if |s| == 0 then 0.0 else SumReals(s[..|s| - 1]) + s[|s| - 1]
  }

  /** Successive differences, as pandas `diff().dropna()`. */
  function Gaps(s: seq<int>): (g: seq<int>)
    ensures |s| >= 1 ==> |g| == |s| - 1
    ensures |s| == 0 ==> g == []
  {
    if |s| <= 1 then [] else Gaps(s[..|s| - 1]) + [s[|s| - 1] - s[|s| - 2]]
  }

  /** The successive gaps of a sequence telescope to last minus first. */
  lemma {:induction false} GapsTelescope(s: seq<int>)
    requires |s| >= 1
    ensures SumInts(Gaps(s)) == s[|s| - 1] - s[0]
  {
    if |s| > 1 {
      var p := s[..|s| - 1];
      GapsTelescope(p);
      var g := Gaps(s);
      assert g == Gaps(p) + [s[|s| - 1] - s[|s| - 2]];
      assert g[..|g| - 1] == Gaps(p);
    }
  }

  function MinInt(s: seq<int>): (m: int)
    requires |s| >= 1
    ensures m in s
    ensures forall x :: x in s ==> m <= x
  {
    if |s| == 1 then s[0]
    else
      var rest := MinInt(s[1..]);
      assert s == [s[0]] + s[1..];
      if s[0] <= rest then s[0] else rest
  }

  function MaxInt(s: seq<int>): (m: int)
    requires |s| >= 1
    ensures m in s
    ensures forall x :: x in s ==> x <= m
  {
    if |s| == 1 then s[0]
    else
      var rest := MaxInt(s[1..]);
      assert s == [s[0]] + s[1..];
      if rest <= s[0] then s[0] else rest
  }

  function MaxReal(s: seq<real>): (m: real)
    requires |s| >= 1
    ensures m in s
    ensures forall x :: x in s ==> x <= m
  {
    if |s| == 1 then s[0]
    else
      var rest := MaxReal(s[1..]);
      assert s == [s[0]] + s[1..];
      if rest <= s[0] then s[0] else rest
  }

  /** A sum is at most the length times the maximum. */
  lemma {:induction false} SumAtMostCountTimesMax(s: seq<real>, m: real)
    requires forall x :: x in s ==> x <= m
    ensures SumReals(s) <= |s| as real * m
  {
    if |s| > 0 {
      var p := s[..|s| - 1];
      assert forall x :: x in p ==> x in s;
      SumAtMostCountTimesMax(p, m);
      assert s[|s| - 1] in s;
    }
  }

  ghost predicate Sorted(s: seq<int>) {
    forall i, j :: 0 <= i < j < |s| ==> s[i] <= s[j]
  }

  /** Putting an element no larger than the head in front keeps a sequence sorted. */
  lemma ConsSorted(h: int, s: seq<int>)
    requires Sorted(s)
    requires s == [] || h <= s[0]
    ensures Sorted([h] + s)
  {
    forall i, j | 0 <= i < j < |s| + 1
      ensures ([h] + s)[i] <= ([h] + s)[j]
    {
      if i == 0 && j > 1 {
        assert s[0] <= s[j - 1];
      }
    }
  }

  /** Inserts `x` into a sorted sequence, before the first element not below it. */
  function Insert(x: int, s: seq<int>): (r: seq<int>)
    requires Sorted(s)
    ensures |r| == |s| + 1
    ensures r[0] == if s == [] || x <= s[0] then x else s[0]
    ensures Sorted(r)
    ensures multiset(r) == multiset(s) + multiset{x}
  {
    if s == [] || x <= s[0] then
      ConsSorted(x, s);
      [x] + s
    else
      var tail := Insert(x, s[1..]);
      ConsSorted(s[0], tail);
      assert s == [s[0]] + s[1..];
      [s[0]] + tail
  }

  /** Ascending sort: a sorted permutation of its input. */
  function SortAscending(s: seq<int>): (r: seq<int>)
    ensures Sorted(r)
    ensures multiset(r) == multiset(s)
  {
    if s == [] then []
    else
      assert s == [s[0]] + s[1..];
      Insert(s[0], SortAscending(s[1..]))
  }

  /** A sorted permutation starts with the minimum and ends with the maximum. */
  lemma SortedEnds(s: seq<int>, r: seq<int>)
    requires |s| >= 1
    requires Sorted(r) && multiset(r) == multiset(s)
    ensures |r| == |s|
    ensures r[0] == MinInt(s) && r[|r| - 1] == MaxInt(s)
  {
    assert |r| == |multiset(r)| == |multiset(s)| == |s|;
    assert forall x :: x in r <==> x in s by {
      forall x ensures x in r <==> x in s {
        assert x in r <==> x in multiset(r);
        assert x in s <==> x in multiset(s);
      }
    }
    assert r[0] in r && r[|r| - 1] in r;
    assert MinInt(s) in r && MaxInt(s) in r;
  }
}
