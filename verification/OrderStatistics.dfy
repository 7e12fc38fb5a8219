/** Percentiles by nearest rank, characterised by counting. */
module OrderStatistics {
  import opened Sorting
  import opened Wrappers

  function CountAtMost(s: seq<int>, x: int): (n: nat)
    ensures n <= |s|
  {
    if s == [] then 0
    else CountAtMost(s[..|s| - 1], x) + if s[|s| - 1] <= x then 1 else 0
  }

  /** Number of elements strictly greater than `x`. */
  function CountAbove(s: seq<int>, x: int): nat {
    |s| - CountAtMost(s, x)
  }

  /** The positions of the values at or below a bound. */
  ghost function AtMost(s: seq<int>, x: int): set<nat> { set i: nat | i < |s| && s[i] <= x }

  ghost function Below(s: seq<int>, x: int): set<nat> { set i: nat | i < |s| && s[i] < x }

  ghost function Above(s: seq<int>, x: int): set<nat> { set i: nat | i < |s| && x < s[i] }

  lemma {:induction false} CountsAreSizes(s: seq<int>, x: int)
    ensures CountAtMost(s, x) == |AtMost(s, x)|
    ensures CountAtMost(s, x - 1) == |Below(s, x)|
    ensures CountAbove(s, x) == |Above(s, x)|
  {
    SizeAtMost(s, x);
    var y := x - 1;
    SizeAtMost(s, y);
    assert AtMost(s, y) == Below(s, x);
    assert AtMost(s, x) + Above(s, x) == Positions(|s|) && AtMost(s, x) !! Above(s, x);
    assert |AtMost(s, x) + Above(s, x)| == |AtMost(s, x)| + |Above(s, x)|;
  }

  lemma {:induction false} SizeAtMost(s: seq<int>, x: int)
    ensures CountAtMost(s, x) == |AtMost(s, x)|
  {
    if s == [] {
    } else {
      var init := s[..|s| - 1];
      SizeAtMost(init, x);
      var last: nat := |s| - 1;
      assert AtMost(s, x) == AtMost(init, x) + if s[last] <= x then {last} else {};
    }
  }

  ghost function Positions(n: nat): (r: set<nat>)
    ensures |r| == n && forall i: nat :: i in r <==> i < n
  {
    if n == 0 then {} else Positions(n - 1) + {n - 1}
  }

  /** Position of a percentile in the sorted values. */
  function Rank(count: nat, percent: nat): nat {
    var ceiling := (count * percent + 99) / 100;
    if ceiling == 0 then 0 else ceiling - 1
  }

  lemma {:induction false} RankInRange(count: nat, percent: nat)
    requires 0 < count && percent <= 100
    ensures Rank(count, percent) < count
  {
    assert count * percent <= count * 100;
  }

  /** `v` is the value at position `rank` of the sorted values, said without sorting. */
  ghost predicate IsOrderStatistic(s: seq<int>, rank: nat, v: int) {
    && v in s
    && CountAtMost(s, v - 1) <= rank < CountAtMost(s, v)
  }

  /** Counting past the rank is counting at least the percentage. */
  lemma {:induction false} RankIsShare(count: nat, percent: nat, k: nat)
    requires 0 < count && 0 < percent
    ensures Rank(count, percent) < k <==> count * percent <= 100 * k
  {
    var product := count * percent;
    assert 0 < product;
    assert Rank(count, percent) + 1 == (product + 99) / 100;
  }

  /**
    A percentile is a value such that at least that percentage of the values are at or below it,
    and less than that percentage are below it.
  */
  lemma {:induction false} PercentileIsShare(s: seq<int>, percent: nat, v: int)
    requires s != [] && 0 < percent
    ensures IsOrderStatistic(s, Rank(|s|, percent), v) <==>
      v in s && |s| * percent <= 100 * |AtMost(s, v)| && 100 * |Below(s, v)| < |s| * percent
  {
    CountsAreSizes(s, v);
    RankIsShare(|s|, percent, |AtMost(s, v)|);
    RankIsShare(|s|, percent, |Below(s, v)|);
  }

  lemma {:induction false} CountAtMostMonotone(s: seq<int>, x: int, y: int)
    requires x <= y
    ensures CountAtMost(s, x) <= CountAtMost(s, y)
  {
    if s == [] {
    } else {
      CountAtMostMonotone(s[..|s| - 1], x, y);
    }
  }

  lemma {:induction false} OrderStatisticAtMost(s: seq<int>, rank: nat, v: int, x: int)
    requires IsOrderStatistic(s, rank, v)
    ensures v <= x <==> rank < CountAtMost(s, x)
  {
    if v <= x { CountAtMostMonotone(s, v, x); } else { CountAtMostMonotone(s, x, v - 1); }
  }

  lemma {:induction false} OrderStatisticUnique(s: seq<int>, rank: nat, v: int, w: int)
    requires IsOrderStatistic(s, rank, v) && IsOrderStatistic(s, rank, w)
    ensures v == w
  {
    OrderStatisticAtMost(s, rank, v, w);
    OrderStatisticAtMost(s, rank, w, v);
  }

  /** Pointwise smaller values have at least as many elements at or below every bound. */
  lemma {:induction false} PointwiseCount(s: seq<int>, t: seq<int>, x: int)
    requires |s| == |t| && forall i :: 0 <= i < |s| ==> s[i] <= t[i]
    ensures CountAtMost(t, x) <= CountAtMost(s, x)
  {
    if s == [] {
    } else {
      PointwiseCount(s[..|s| - 1], t[..|t| - 1], x);
    }
  }

  /** Pointwise smaller values have smaller order statistics. */
  lemma {:induction false} PointwiseOrderStatistic(s: seq<int>, t: seq<int>, rank: nat, v: int, w: int)
    requires |s| == |t| && forall i :: 0 <= i < |s| ==> s[i] <= t[i]
    requires IsOrderStatistic(s, rank, v) && IsOrderStatistic(t, rank, w)
    ensures v <= w
  {
    PointwiseCount(s, t, w);
    OrderStatisticAtMost(s, rank, v, w);
  }

  lemma {:induction false} CountRemove(s: seq<int>, i: nat, x: int)
    requires i < |s|
    ensures CountAtMost(s, x) == CountAtMost(s[..i] + s[i + 1..], x) + if s[i] <= x then 1 else 0
  {
    assert s == s[..i + 1] + s[i + 1..] && s[..i + 1][..i] == s[..i];
    CountConcat(s[..i + 1], s[i + 1..], x);
    CountConcat(s[..i], s[i + 1..], x);
  }

  lemma {:induction false} CountPermutation(s: seq<int>, t: seq<int>, x: int)
    requires multiset(s) == multiset(t)
    ensures CountAtMost(s, x) == CountAtMost(t, x)
  {
    if s == [] {
      assert |t| == |multiset(t)| == 0;
    } else {
      var i := IndexOfLast(s, t);
      var rest := t[..i] + t[i + 1..];
      CountRemove(t, i, x);
      RemoveSame(s, t, i);
      CountPermutation(s[..|s| - 1], rest, x);
    }
  }

  lemma {:induction false} RemoveSame(s: seq<int>, t: seq<int>, i: nat)
    requires multiset(s) == multiset(t) && s != [] && i < |t| && t[i] == s[|s| - 1]
    ensures multiset(s[..|s| - 1]) == multiset(t[..i] + t[i + 1..])
  {
    WithoutOne(s, |s| - 1);
    assert s[..|s| - 1] + s[|s|..] == s[..|s| - 1];
    WithoutOne(t, i);
  }

  lemma {:induction false} WithoutOne(s: seq<int>, i: nat)
    requires i < |s|
    ensures multiset(s[..i] + s[i + 1..]) == multiset(s) - multiset{s[i]}
  {
    assert s == s[..i] + [s[i]] + s[i + 1..];
    assert multiset(s) == multiset(s[..i]) + multiset{s[i]} + multiset(s[i + 1..]);
  }

  lemma {:induction false} IndexOfLast(s: seq<int>, t: seq<int>) returns (i: nat)
    requires multiset(s) == multiset(t) && s != []
    ensures i < |t| && t[i] == s[|s| - 1]
  {
    assert s[|s| - 1] in multiset(s);
    assert s[|s| - 1] in t;
    i :| 0 <= i < |t| && t[i] == s[|s| - 1];
  }

  lemma {:induction false} CountConcat(s: seq<int>, t: seq<int>, x: int)
    ensures CountAtMost(s + t, x) == CountAtMost(s, x) + CountAtMost(t, x)
  {
    if t == [] {
      assert s + t == s;
    } else {
      assert (s + t)[..|s + t| - 1] == s + t[..|t| - 1];
      CountConcat(s, t[..|t| - 1], x);
    }
  }

  /** If exactly a prefix is at or below a bound, its length is the count. */
  lemma {:induction false} CountPrefix(s: seq<int>, n: nat, x: int)
    requires n <= |s|
    requires forall i :: 0 <= i < n ==> s[i] <= x
    requires forall i :: n <= i < |s| ==> x < s[i]
    ensures CountAtMost(s, x) == n
  {
    if s == [] {
    } else {
      CountPrefix(s[..|s| - 1], Min(n, |s| - 1), x);
    }
  }

  lemma {:induction false} SortedIndexIsOrderStatistic(s: seq<int>, rank: nat)
    requires SortedBy(s, IntLeq) && rank < |s|
    ensures IsOrderStatistic(s, rank, s[rank])
  {
    var v := s[rank];
    var below := rank;
    while 0 < below && s[below - 1] == v
      invariant below <= rank && forall i :: below <= i <= rank ==> s[i] == v
    { below := below - 1; }
    CountPrefix(s, below, v - 1);
    var upto := rank + 1;
    while upto < |s| && s[upto] == v
      invariant rank < upto <= |s| && forall i :: rank <= i < upto ==> s[i] == v
    { upto := upto + 1; }
    CountPrefix(s, upto, v);
  }

  /** `_percentile`: sorts the list it was given, which `values'` returns, and picks by rank. */
  method Percentile(values: seq<int>, percent: nat) returns (values': seq<int>, value: Option<int>)
    requires percent <= 100
    ensures multiset(values') == multiset(values)
    ensures value == None <==> values == []
    ensures value.Some? ==> IsOrderStatistic(values, Rank(|values|, percent), value.value)
  {
    values' := values;
    if |values| == 0 { return values', None; }
    values' := Sort(values, IntLeq);
    SortMembers(values, IntLeq);
    SortSorted(values, IntLeq);
    RankInRange(|values|, percent);
    var rank := Rank(|values|, percent);
    SortedIndexIsOrderStatistic(values', rank);
    CountPermutation(values', values, values'[rank]);
    CountPermutation(values', values, values'[rank] - 1);
    value := Some(values'[rank]);
  }
}
