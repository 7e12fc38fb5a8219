/** Clipped and covered durations, and what they count. */
module Durations {
  import opened Wrappers
  import opened PointSums
  import opened Intervals

  /** How many of the intervals an instant is in. */
  ghost function Multiplicity(s: seq<Interval>, x: int): nat {
    if s == [] then 0
    else Multiplicity(s[..|s| - 1], x) + if s[|s| - 1].Has(x) then 1 else 0
  }

  /** The intervals an instant is in. */
  ghost function Holders(s: seq<Interval>, x: int): set<nat> { set i: nat | i < |s| && s[i].start <= x < s[i].end }

  lemma {:induction false} MultiplicityIsSize(s: seq<Interval>, x: int)
    ensures Multiplicity(s, x) == |Holders(s, x)|
  {
    if s == [] {
    } else {
      var init := s[..|s| - 1];
      MultiplicityIsSize(init, x);
      var last: nat := |s| - 1;
      assert Holders(s, x) == Holders(init, x) + if s[last].Has(x) then {last} else {};
    }
  }

  ghost function CountOf(s: seq<Interval>): int -> int { x => Multiplicity(s, x) }

  ghost function CoverageOf(s: seq<Interval>): int -> int { x => if Covers(s, x) then 1 else 0 }

  /** How many of the intervals an instant is in, counting only covered instants. */
  ghost function CountWithin(s: seq<Interval>, coverage: seq<Interval>): int -> int {
    x => if Covers(coverage, x) then Multiplicity(s, x) else 0
  }

  function OverlapLength(i: Interval, lo: int, hi: int): int {
    Max(0, Min(hi, i.end) - Max(lo, i.start))
  }

  function ClippedLength(s: seq<Interval>, lo: int, hi: int): int {
    if s == [] then 0 else ClippedLength(s[..|s| - 1], lo, hi) + OverlapLength(s[|s| - 1], lo, hi)
  }

  /** `_covered_seconds`: overlapping intervals are additive. */
  function CoveredLength(s: seq<Interval>, coverage: seq<Interval>, lo: int, hi: int): int {
    if s == [] then 0
    else
      var last := s[|s| - 1];
      CoveredLength(s[..|s| - 1], coverage, lo, hi)
        + if last.end > lo && last.start < hi
          then ClippedLength(coverage, Max(lo, last.start), Min(hi, last.end)) else 0
  }

  /** `_clip_seconds`. */
  method ClipSeconds(s: seq<Interval>, lo: int, hi: int) returns (seconds: int)
    ensures seconds == ClippedLength(s, lo, hi) == PointSum(lo, hi, CountOf(s))
  {
    seconds := 0;
    for k := 0 to |s|
      invariant seconds == ClippedLength(s[..k], lo, hi)
    {
      assert s[..k + 1][..k] == s[..k];
      var start, end := Max(lo, s[k].start), Min(hi, s[k].end);
      if end > start { seconds := seconds + (end - start); }
    }
    assert s[..|s|] == s;
    ClippedIsCount(s, lo, hi);
  }

  lemma {:induction false} OverlapIsCount(i: Interval, lo: int, hi: int)
    ensures OverlapLength(i, lo, hi) == PointSum(lo, hi, x => if i.Has(x) then 1 else 0)
  {
    var f: int -> int := x => if i.Has(x) then 1 else 0;
    var one: int -> int := x => 1;
    PointSumRestrict(lo, hi, i.start, i.end, f, one);
    if Max(lo, i.start) <= Min(hi, i.end) { PointSumConstant(Max(lo, i.start), Min(hi, i.end), one, 1); }
  }

  /** The clipped length counts every instant of the range once for each interval it is in. */
  lemma {:induction false} ClippedIsCount(s: seq<Interval>, lo: int, hi: int)
    ensures ClippedLength(s, lo, hi) == PointSum(lo, hi, CountOf(s))
  {
    if s == [] {
      if lo < hi { PointSumConstant(lo, hi, CountOf(s), 0); }
    } else {
      var init, last := s[..|s| - 1], s[|s| - 1];
      ClippedIsCount(init, lo, hi);
      OverlapIsCount(last, lo, hi);
      PointSumAdd(lo, hi, CountOf(init), x => if last.Has(x) then 1 else 0, CountOf(s));
    }
  }

  lemma {:induction false} SeparatedMultiplicity(s: seq<Interval>, x: int)
    requires Separated(s)
    ensures Multiplicity(s, x) == if Covers(s, x) then 1 else 0
  {
    if s == [] {
    } else {
      var init, last := s[..|s| - 1], s[|s| - 1];
      assert s == init + [last];
      SeparatedMultiplicity(init, x);
      CoversAppend(init, last);
      forall i | 0 <= i < |init| ensures init[i].end < last.start { assert init[i] == s[i]; }
    }
  }

  /** Of separated intervals, the clipped length counts the covered instants. */
  lemma {:induction false} SeparatedClipped(s: seq<Interval>, lo: int, hi: int)
    requires Separated(s)
    ensures ClippedLength(s, lo, hi) == PointSum(lo, hi, CoverageOf(s))
  {
    ClippedIsCount(s, lo, hi);
    forall x ensures CountOf(s)(x) == CoverageOf(s)(x) { SeparatedMultiplicity(s, x); }
    PointSumEqual(lo, hi, CountOf(s), CoverageOf(s));
  }

  /** The covered length counts every covered instant once for each interval it is in. */
  lemma {:induction false} CoveredIsCount(s: seq<Interval>, coverage: seq<Interval>, lo: int, hi: int)
    requires Separated(coverage)
    ensures CoveredLength(s, coverage, lo, hi) == PointSum(lo, hi, CountWithin(s, coverage))
  {
    if s == [] {
      if lo < hi { PointSumConstant(lo, hi, CountWithin(s, coverage), 0); }
    } else {
      var init, last := s[..|s| - 1], s[|s| - 1];
      var mine: int -> int := x => if Covers(coverage, x) && last.Has(x) then 1 else 0;
      CoveredIsCount(init, coverage, lo, hi);
      PointSumRestrict(lo, hi, last.start, last.end, mine, CoverageOf(coverage));
      SeparatedClipped(coverage, Max(lo, last.start), Min(hi, last.end));
      PointSumAdd(lo, hi, CountWithin(init, coverage), mine, CountWithin(s, coverage));
    }
  }

  /** `_is_complete`. */
  method IsComplete(s: seq<Interval>, lo: int, hi: int) returns (complete: bool)
    ensures complete <==> lo < hi && forall x :: lo <= x < hi ==> Covers(s, x)
  {
    var clipped: seq<Interval> := [];
    for k := 0 to |s|
      invariant forall x :: Covers(clipped, x) <==> lo <= x < hi && Covers(s[..k], x)
    {
      assert s[..k + 1] == s[..k] + [s[k]];
      CoversAppend(s[..k], s[k]);
      var piece := Interval(Max(lo, s[k].start), Min(hi, s[k].end));
      CoversAppend(clipped, piece);
      if piece.end > piece.start { clipped := clipped + [piece]; }
    }
    assert s[..|s|] == s;
    var merged := Merge(clipped);
    complete := |merged| == 1 && merged[0] == Interval(lo, hi);
    WholeRange(merged, lo, hi);
  }

  lemma {:induction false} WholeRange(merged: seq<Interval>, lo: int, hi: int)
    requires Separated(merged) && forall x :: Covers(merged, x) ==> lo <= x < hi
    ensures |merged| == 1 && merged[0] == Interval(lo, hi) <==>
      lo < hi && forall x :: lo <= x < hi ==> Covers(merged, x)
  {
    if |merged| == 1 && merged[0] == Interval(lo, hi) {
      forall x | lo <= x < hi ensures Covers(merged, x) { assert merged[0].Has(x); }
    }
    if lo < hi && forall x :: lo <= x < hi ==> Covers(merged, x) {
      forall x ensures Covers([Interval(lo, hi)], x) <==> lo <= x < hi {
        assert [Interval(lo, hi)][0].Has(x) <==> lo <= x < hi;
      }
      SeparatedUnique(merged, [Interval(lo, hi)]);
    }
  }

  /** On separated intervals a range is complete exactly when its clipped length is its full length. */
  lemma {:induction false} CompleteIsFullLength(s: seq<Interval>, lo: int, hi: int)
    requires Separated(s) && lo < hi
    ensures 0 <= ClippedLength(s, lo, hi) <= hi - lo
    ensures ClippedLength(s, lo, hi) == hi - lo <==> forall x :: lo <= x < hi ==> Covers(s, x)
  {
    SeparatedClipped(s, lo, hi);
    PointSumFull(lo, hi, CoverageOf(s));
    assert forall x :: CoverageOf(s)(x) == 1 <==> Covers(s, x);
  }
}
