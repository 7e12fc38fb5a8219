/** Half-open intervals: merging, intersecting and clipping them, as sets of instants. */
module Intervals {
  import opened Sorting
  import opened Wrappers

  datatype Interval = Interval(start: int, end: int) {
    predicate Has(x: int) { start <= x < end }
  }

  ghost predicate Covers(s: seq<Interval>, x: int) {
    exists i :: 0 <= i < |s| && s[i].Has(x)
  }

  /** In order, none empty, and no two touching. */
  ghost predicate Separated(s: seq<Interval>) {
    && (forall i :: 0 <= i < |s| ==> s[i].start < s[i].end)
    && (forall i, j :: 0 <= i < j < |s| ==> s[i].end < s[j].start)
  }

  ghost predicate SameInstants(s: seq<Interval>, t: seq<Interval>) {
    forall x :: Covers(s, x) <==> Covers(t, x)
  }

  predicate IntervalLeq(a: Interval, b: Interval) {
    a.start < b.start || (a.start == b.start && a.end <= b.end)
  }

  /** One step of merging: intervals come in order of their starts. */
  method Absorb(merged: seq<Interval>, interval: Interval) returns (merged': seq<Interval>)
    requires Separated(merged)
    requires StartsBy(merged, interval)
    ensures Separated(merged') && StartsBy(merged', interval)
    ensures forall x :: Covers(merged', x) <==> Covers(merged, x) || interval.Has(x)
  {
    merged' := merged;
    if interval.end <= interval.start {
    } else if merged != [] && interval.start <= merged[|merged| - 1].end {
      var last := merged[|merged| - 1];
      WidenLast(merged, interval);
      merged' := merged[..|merged| - 1] + [Interval(last.start, Max(last.end, interval.end))];
    } else {
      CoversAppend(merged, interval);
      merged' := merged + [interval];
    }
  }

  /** `_merge`. */
  method Merge(intervals: seq<Interval>) returns (merged: seq<Interval>)
    ensures Separated(merged) && SameInstants(merged, intervals)
  {
    var sorted := Sort(intervals, IntervalLeq);
    SortedByStart(intervals, sorted);
    merged := MergeSorted(sorted);
    SameInstantsThrough(merged, sorted, intervals);
  }

  /** The loop of `_merge`. */
  method MergeSorted(sorted: seq<Interval>) returns (merged: seq<Interval>)
    requires ByStart(sorted)
    ensures Separated(merged) && SameInstants(merged, sorted)
  {
    merged := [];
    assert Separated(merged) && SameInstants(merged, sorted[..0]);
    for k := 0 to |sorted|
      invariant Separated(merged) && SameInstants(merged, sorted[..k])
      invariant k < |sorted| ==> StartsBy(merged, sorted[k])
    {
      ghost var before := merged;
      merged := Absorb(merged, sorted[k]);
      BothGrow(before, merged, sorted[..k], sorted[k]);
      assert sorted[..k] + [sorted[k]] == sorted[..k + 1];
      if k + 1 < |sorted| { StartsByNext(merged, sorted, k); }
    }
    assert sorted[..|sorted|] == sorted;
  }

  ghost predicate ByStart(s: seq<Interval>) {
    forall i, j :: 0 <= i < j < |s| ==> s[i].start <= s[j].start
  }

  ghost predicate StartsBy(merged: seq<Interval>, interval: Interval) {
    merged != [] ==> merged[|merged| - 1].start <= interval.start
  }

  lemma {:induction false} StartsByNext(merged: seq<Interval>, sorted: seq<Interval>, k: nat)
    requires ByStart(sorted) && k + 1 < |sorted| && StartsBy(merged, sorted[k])
    ensures StartsBy(merged, sorted[k + 1])
  {}

  lemma {:induction false} SameInstantsThrough(s: seq<Interval>, t: seq<Interval>, u: seq<Interval>)
    requires SameInstants(s, t) && SameInstants(t, u)
    ensures SameInstants(s, u)
  {}

  /** Adding the same interval to two families with the same instants keeps them the same. */
  lemma {:induction false} BothGrow(s: seq<Interval>, s': seq<Interval>, t: seq<Interval>, interval: Interval)
    requires SameInstants(s, t) && forall x :: Covers(s', x) <==> Covers(s, x) || interval.Has(x)
    ensures SameInstants(s', t + [interval])
  {
    CoversAppend(t, interval);
  }

  lemma {:induction false} SortedByStart(intervals: seq<Interval>, sorted: seq<Interval>)
    requires sorted == Sort(intervals, IntervalLeq)
    ensures SameInstants(sorted, intervals) && ByStart(sorted)
  {
    SortMembers(intervals, IntervalLeq);
    SortSorted(intervals, IntervalLeq);
    SameMembersCover(sorted, intervals);
  }

  lemma {:induction false} WidenLast(merged: seq<Interval>, interval: Interval)
    requires Separated(merged) && merged != [] && interval.start < interval.end
    requires merged[|merged| - 1].start <= interval.start <= merged[|merged| - 1].end
    ensures var last := merged[|merged| - 1];
      var widened := merged[..|merged| - 1] + [Interval(last.start, Max(last.end, interval.end))];
      Separated(widened) && forall x :: Covers(widened, x) <==> Covers(merged, x) || interval.Has(x)
  {
    var last := merged[|merged| - 1];
    assert merged == merged[..|merged| - 1] + [last];
    CoversAppend(merged[..|merged| - 1], last);
    CoversAppend(merged[..|merged| - 1], Interval(last.start, Max(last.end, interval.end)));
  }

  lemma {:induction false} CoversAppend(s: seq<Interval>, last: Interval)
    ensures forall x :: Covers(s + [last], x) <==> Covers(s, x) || last.Has(x)
  {
    forall x ensures Covers(s + [last], x) <==> Covers(s, x) || last.Has(x) {
      var t := s + [last];
      if Covers(s, x) {
        var i :| 0 <= i < |s| && s[i].Has(x);
        assert t[i].Has(x);
      } else if last.Has(x) {
        assert t[|s|].Has(x);
      }
    }
  }

  lemma {:induction false} SameMembersCover(s: seq<Interval>, t: seq<Interval>)
    requires forall e :: e in s <==> e in t
    ensures SameInstants(s, t)
  {
    forall x ensures Covers(s, x) <==> Covers(t, x) {
      if Covers(s, x) { MembersCover(s, t, x); }
      if Covers(t, x) { MembersCover(t, s, x); }
    }
  }

  lemma {:induction false} MembersCover(s: seq<Interval>, t: seq<Interval>, x: int)
    requires Covers(s, x) && forall e :: e in s ==> e in t
    ensures Covers(t, x)
  {
    var i :| 0 <= i < |s| && s[i].Has(x);
    assert s[i] in t;
  }

  /** `_intersection`: the two-index sweep. */
  method Intersection(left: seq<Interval>, right: seq<Interval>) returns (result: seq<Interval>)
    ensures Separated(result)
    ensures forall x :: Covers(result, x) <==> Covers(left, x) && Covers(right, x)
  {
    var l := Merge(left);
    var r := Merge(right);
    result := [];
    var i, j := 0, 0;
    while i < |l| && j < |r|
      invariant 0 <= i <= |l| && 0 <= j <= |r|
      invariant Separated(result)
      invariant forall x :: Covers(result, x) ==> Covers(l, x) && Covers(r, x)
      invariant forall x, a, b :: 0 <= a < |l| && 0 <= b < |r| && (a < i || b < j) && l[a].Has(x) && r[b].Has(x)
                  ==> Covers(result, x)
      invariant result != [] && i < |l| && j < |r| ==> result[|result| - 1].end < Max(l[i].start, r[j].start)
      decreases |l| + |r| - i - j
    {
      var start, end := Max(l[i].start, r[j].start), Min(l[i].end, r[j].end);
      ghost var before := result;
      CoversAppend(result, Interval(start, end));
      if end > start { result := result + [Interval(start, end)]; }
      assert forall x :: Covers(result, x) <==> Covers(before, x) || (l[i].Has(x) && r[j].Has(x));
      if l[i].end <= r[j].end { i := i + 1; } else { j := j + 1; }
    }
  }

  /** Separated intervals are determined by the instants they cover. */
  lemma {:induction false} SeparatedUnique(s: seq<Interval>, t: seq<Interval>)
    requires Separated(s) && Separated(t) && SameInstants(s, t)
    ensures s == t
  {
    if s == [] {
      if t != [] { assert t[0].Has(t[0].start) && Covers(t, t[0].start); assert false; }
    } else {
      assert s[0].Has(s[0].start) && Covers(s, s[0].start);
      SameFirst(s, t);
      TailInstants(s);
      TailInstants(t);
      SeparatedUnique(s[1..], t[1..]);
    }
  }

  lemma {:induction false} SameFirst(s: seq<Interval>, t: seq<Interval>)
    requires Separated(s) && Separated(t) && SameInstants(s, t) && s != []
    ensures t != [] && s[0] == t[0]
  {
    assert s[0].Has(s[0].start) && Covers(s, s[0].start);
    FirstStartsFirst(s, t);
    assert t[0].Has(t[0].start) && Covers(t, t[0].start);
    FirstStartsFirst(t, s);
    FirstEndsFirst(s, t);
    FirstEndsFirst(t, s);
  }

  lemma {:induction false} FirstStartsFirst(s: seq<Interval>, t: seq<Interval>)
    requires Separated(s) && Separated(t) && s != [] && Covers(t, s[0].start)
    ensures t != [] && t[0].start <= s[0].start
  {
    var i :| 0 <= i < |t| && t[i].Has(s[0].start);
    assert i > 0 ==> t[0].end < t[i].start;
  }

  lemma {:induction false} FirstEndsFirst(s: seq<Interval>, t: seq<Interval>)
    requires Separated(s) && Separated(t) && SameInstants(s, t) && s != [] && t != [] && s[0].start == t[0].start
    ensures t[0].end <= s[0].end
  {
    forall i | 0 <= i < |s| ensures !s[i].Has(s[0].end) {
      assert i > 0 ==> s[0].end < s[i].start;
    }
    assert !Covers(t, s[0].end);
    assert !t[0].Has(s[0].end);
  }

  lemma {:induction false} TailInstants(s: seq<Interval>)
    requires Separated(s) && s != []
    ensures Separated(s[1..])
    ensures forall x :: Covers(s[1..], x) <==> Covers(s, x) && s[0].end <= x
  {
    forall x ensures Covers(s[1..], x) <==> Covers(s, x) && s[0].end <= x {
      if Covers(s[1..], x) {
        var i :| 0 <= i < |s[1..]| && s[1..][i].Has(x);
        assert s[i + 1].Has(x);
      }
      if Covers(s, x) && s[0].end <= x {
        var i :| 0 <= i < |s| && s[i].Has(x);
        assert s[1..][i - 1].Has(x);
      }
    }
  }
}
