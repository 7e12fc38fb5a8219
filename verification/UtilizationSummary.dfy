/** Trailing windows that end at the newest shared observation, read from reduced records. */
module UtilizationSummary {
  import opened Wrappers
  import opened PointSums
  import opened Intervals
  import opened Durations
  import opened Availability
  import opened Utilization

  datatype Window = Window(name: string, seconds: int)

  datatype WindowResult = WindowResult(name: string, outcome: Result<Bucket, RangeError>)

  datatype Summary = Summary(dataThrough: Option<int>, windows: seq<WindowResult>)

  /** `x` is the end of the newest shared observation. */
  ghost predicate DataThrough(records: Records, x: int) {
    Observed(records, x - 1) && forall y :: x <= y ==> !Observed(records, y)
  }

  /** The bucket of a trailing window, which always has coverage. */
  ghost predicate IsTrailing(records: Records, end: int, window: Window, r: WindowResult) {
    && r.name == window.name
    && (if window.seconds <= 0 then r.outcome == Err(RangeEndNotAfterStart)
        else
          && r.outcome.Ok?
          && r.outcome.value.start == end - window.seconds && r.outcome.value.end == end
          && Describes(records, r.outcome.value)
          && 0 < r.outcome.value.coverage && r.outcome.value.status != Incomplete)
  }

  /** A range that ends just after an observed instant has coverage. */
  lemma {:induction false} LastInstantCovered(records: Records, lo: int, hi: int)
    requires lo < hi && Observed(records, hi - 1)
    ensures 0 < CoveredTime(records, lo, hi)
  {
    PointSumFull(lo, hi - 1, ObservedAt(records));
  }

  /** One trailing window; a bad range is reported and hides no other. */
  method TrailingBucket(records: Records, end: int, window: Window) returns (r: WindowResult)
    requires DistinctIds(records.transitions) && DataThrough(records, end)
    ensures IsTrailing(records, end, window, r)
  {
    var start := end - window.seconds;
    var report := CalculateUtilization(records, start, end, window.seconds);
    match report {
      case Err(e) =>
        assert e == RangeEndNotAfterStart || e == BucketNotPositive;
        r := WindowResult(window.name, Err(e));
      case Ok(value) =>
        OneBucket(value.buckets, start, end, window.seconds);
        LastInstantCovered(records, start, end);
        r := WindowResult(window.name, Ok(value.buckets[0]));
    }
  }

  /** Data reach to the end of the newest shared observation, and every window trails from there. */
  ghost predicate IsSummary(records: Records, windows: seq<Window>, s: Summary) {
    && (s.dataThrough == None <==> forall x :: !Observed(records, x))
    && (s.dataThrough == None ==> s.windows == [])
    && (s.dataThrough.Some? ==>
          && DataThrough(records, s.dataThrough.value) && |s.windows| == |windows|
          && forall i :: 0 <= i < |windows| ==> IsTrailing(records, s.dataThrough.value, windows[i], s.windows[i]))
  }

  /** `calculate_utilization_summary`. */
  method CalculateSummary(records: Records, windows: seq<Window>) returns (s: Summary)
    requires DistinctIds(records.transitions)
    ensures IsSummary(records, windows, s)
  {
    var common := Intersection(records.taskCoverage, records.availabilityCoverage);
    if common == [] { return Summary(None, []); }
    var end := NewestEnd(common);
    NewestIsLast(records, common, end);
    var results: seq<WindowResult> := [];
    for k := 0 to |windows|
      invariant |results| == k && forall i :: 0 <= i < k ==> IsTrailing(records, end, windows[i], results[i])
    {
      var result := TrailingBucket(records, end, windows[k]);
      results := results + [result];
    }
    s := Summary(Some(end), results);
  }

  /** `max` over the ends of the common intervals. */
  method NewestEnd(common: seq<Interval>) returns (end: int)
    requires common != []
    ensures exists i :: 0 <= i < |common| && common[i].end == end
    ensures forall i :: 0 <= i < |common| ==> common[i].end <= end
  {
    end := common[0].end;
    ghost var at := 0;
    for k := 1 to |common|
      invariant 0 <= at < |common| && common[at].end == end
      invariant forall i :: 0 <= i < k ==> common[i].end <= end
    {
      if common[k].end > end { end, at := common[k].end, k; }
    }
  }

  lemma {:induction false} NewestIsLast(records: Records, common: seq<Interval>, end: int)
    requires SharedCoverage(records, common)
    requires exists i :: 0 <= i < |common| && common[i].end == end
    requires forall i :: 0 <= i < |common| ==> common[i].end <= end
    ensures DataThrough(records, end)
  {
    var i :| 0 <= i < |common| && common[i].end == end;
    assert common[i].Has(end - 1) && Covers(common, end - 1);
  }

  lemma {:induction false} OneBucket(buckets: seq<Bucket>, start: int, end: int, size: int)
    requires Tiles(buckets, start, end, size) && start < end == start + size
    ensures |buckets| == 1 && buckets[0].start == start && buckets[0].end == end
  {
    if |buckets| > 1 {
      assert buckets[0].end == end;
      assert buckets[1].start == end;
      LaterEnds(buckets, start, end, size);
    }
  }

  lemma {:induction false} LaterEnds(buckets: seq<Bucket>, start: int, end: int, size: int)
    requires Tiles(buckets, start, end, size) && |buckets| > 1
    ensures buckets[1].start < end
    decreases |buckets|
  {
    if |buckets| == 2 {
    } else {
      LaterEnds(buckets[..|buckets| - 1], start, buckets[|buckets| - 2].end, size);
    }
  }

  // ----- Reduced records -----

  /** What the windowed queries select: overlapping task runs and the windowed transitions. */
  function Overlapping(runs: seq<Interval>, lo: int, hi: int): (r: seq<Interval>)
    ensures forall i :: i in r <==> i in runs && i.start < hi && lo < i.end
  {
    if runs == [] then []
    else
      var last := runs[|runs| - 1];
      Overlapping(runs[..|runs| - 1], lo, hi) + if last.start < hi && last.end > lo then [last] else []
  }

  function Reduced(records: Records, lo: int, hi: int): Records {
    records.(taskRuns := Overlapping(records.taskRuns, lo, hi),
             transitions := WindowTransitions(records.transitions, lo, hi))
  }

  lemma {:induction false} MultiplicityAppend(s: seq<Interval>, last: Interval, x: int)
    ensures Multiplicity(s + [last], x) == Multiplicity(s, x) + if last.Has(x) then 1 else 0
  {
    assert (s + [last])[..|s|] == s;
  }

  lemma {:induction false} OverlappingKeepsInstants(runs: seq<Interval>, lo: int, hi: int, x: int)
    requires lo <= x < hi
    ensures Multiplicity(Overlapping(runs, lo, hi), x) == Multiplicity(runs, x)
  {
    if runs == [] {
    } else {
      var init, last := runs[..|runs| - 1], runs[|runs| - 1];
      OverlappingKeepsInstants(init, lo, hi, x);
      MultiplicityAppend(Overlapping(init, lo, hi), last, x);
      assert Overlapping(init, lo, hi) + [] == Overlapping(init, lo, hi);
    }
  }

  /** The reduced records describe every bucket inside the window exactly as the full history does. */
  lemma {:induction false} ReductionPreservesBuckets(records: Records, lo: int, hi: int, b: Bucket)
    requires DistinctIds(records.transitions) && lo <= b.start && b.end <= hi
    ensures Describes(Reduced(records, lo, hi), b) <==> Describes(records, b)
  {
    ReductionPreservesMeasures(records, lo, hi, b.start, b.end);
    assert forall x :: Observed(Reduced(records, lo, hi), x) <==> Observed(records, x);
  }

  lemma {:induction false} ReductionPreservesMeasures(records: Records, lo: int, hi: int, start: int, end: int)
    requires DistinctIds(records.transitions) && lo <= start && end <= hi
    ensures CoveredTime(Reduced(records, lo, hi), start, end) == CoveredTime(records, start, end)
    ensures BusyTime(Reduced(records, lo, hi), start, end) == BusyTime(records, start, end)
    ensures AvailableTime(Reduced(records, lo, hi), start, end) == AvailableTime(records, start, end)
  {
    var reduced := Reduced(records, lo, hi);
    forall x | start <= x < end
      ensures BusyAt(reduced)(x) == BusyAt(records)(x)
      ensures AvailableAtInstant(reduced)(x) == AvailableAtInstant(records)(x)
    {
      OverlappingKeepsInstants(records.taskRuns, lo, hi, x);
      ReductionPreservesHeadcount(records.transitions, lo, hi, x);
    }
    PointSumEqual(start, end, ObservedAt(reduced), ObservedAt(records));
    PointSumEqual(start, end, BusyAt(reduced), BusyAt(records));
    PointSumEqual(start, end, AvailableAtInstant(reduced), AvailableAtInstant(records));
  }

  lemma {:induction false} DescriptionUnique(records: Records, b: Bucket, b': Bucket)
    requires Describes(records, b) && Describes(records, b') && b.start == b'.start && b.end == b'.end
    ensures b == b'
  {
  }

  lemma {:induction false} TrailingUnique(records: Records, end: int, window: Window, r: WindowResult, r': WindowResult)
    requires IsTrailing(records, end, window, r) && IsTrailing(records, end, window, r')
    ensures r == r'
  {
    if 0 < window.seconds { DescriptionUnique(records, r.outcome.value, r'.outcome.value); }
  }

  lemma {:induction false} DataThroughUnique(records: Records, x: int, y: int)
    requires DataThrough(records, x) && DataThrough(records, y)
    ensures x == y
  {
    assert x < y ==> x <= y - 1;
    assert y < x ==> y <= x - 1;
  }

  /** The records determine the summary. */
  lemma {:induction false} SummaryUnique(records: Records, windows: seq<Window>, s: Summary, s': Summary)
    requires IsSummary(records, windows, s) && IsSummary(records, windows, s')
    ensures s == s'
  {
    if s.dataThrough.Some? && s'.dataThrough.Some? {
      DataThroughUnique(records, s.dataThrough.value, s'.dataThrough.value);
      forall i | 0 <= i < |windows| ensures s.windows[i] == s'.windows[i] {
        TrailingUnique(records, s.dataThrough.value, windows[i], s.windows[i], s'.windows[i]);
      }
    }
  }

  lemma {:induction false} ReducedTrailing(records: Records, start: int, end: int, window: Window, r: WindowResult)
    requires DistinctIds(records.transitions) && window.seconds <= end - start
    requires IsTrailing(Reduced(records, start, end), end, window, r)
    ensures IsTrailing(records, end, window, r)
  {
    if 0 < window.seconds { ReductionPreservesBuckets(records, start, end, r.outcome.value); }
  }

  /**
    The whole summary of the records reduced to the longest window, which ends at the newest shared observation,
    is the summary of the full history.
  */
  lemma {:induction false} ReducedSummaryIsUnchanged(
    records: Records, windows: seq<Window>, start: int, end: int, full: Summary, fast: Summary)
    requires DistinctIds(records.transitions) && DataThrough(records, end)
    requires forall i :: 0 <= i < |windows| ==> windows[i].seconds <= end - start
    requires IsSummary(records, windows, full) && IsSummary(Reduced(records, start, end), windows, fast)
    ensures fast == full
  {
    ReducedIsSummary(records, windows, start, end, fast);
    SummaryUnique(records, windows, full, fast);
  }

  lemma {:induction false} ReducedIsSummary(records: Records, windows: seq<Window>, start: int, end: int, fast: Summary)
    requires DistinctIds(records.transitions) && DataThrough(records, end)
    requires forall i :: 0 <= i < |windows| ==> windows[i].seconds <= end - start
    requires IsSummary(Reduced(records, start, end), windows, fast)
    ensures IsSummary(records, windows, fast)
  {
    var reduced := Reduced(records, start, end);
    assert forall x :: Observed(reduced, x) <==> Observed(records, x);
    DataThroughUnique(records, end, fast.dataThrough.value);
    forall i | 0 <= i < |windows| ensures IsTrailing(records, end, windows[i], fast.windows[i]) {
      ReducedTrailing(records, start, end, windows[i], fast.windows[i]);
    }
  }

  /** Without shared observation the records do not matter. */
  lemma {:induction false} NothingShared(records: Records, windows: seq<Window>, s: Summary)
    requires forall x :: !Observed(records, x)
    requires IsSummary(records.(taskRuns := [], transitions := []), windows, s)
    ensures IsSummary(records, windows, s)
  {
    var none := records.(taskRuns := [], transitions := []);
    forall x ensures !Observed(none, x) {
      assert !Observed(records, x);
    }
  }

  // ----- The stored summary -----

  datatype SummaryError = NoWindows

  method LongestWindow(windows: seq<Window>) returns (seconds: int)
    requires windows != []
    ensures forall i :: 0 <= i < |windows| ==> windows[i].seconds <= seconds
    ensures exists i :: 0 <= i < |windows| && windows[i].seconds == seconds
  {
    seconds := windows[0].seconds;
    ghost var at := 0;
    for k := 1 to |windows|
      invariant 0 <= at < |windows| && windows[at].seconds == seconds
      invariant forall i :: 0 <= i < k ==> windows[i].seconds <= seconds
    {
      if windows[k].seconds > seconds { seconds, at := windows[k].seconds, k; }
    }
  }

  /** `get_utilization_summary`: only the longest window is read, and the summary is that of the full history. */
  method GetUtilizationSummary(records: Records, windows: seq<Window>) returns (r: Result<Summary, SummaryError>)
    requires DistinctIds(records.transitions)
    ensures r == Err(NoWindows) <==> windows == [] && exists x :: Observed(records, x)
    ensures r.Ok? ==> IsSummary(records, windows, r.value)
  {
    var common := Intersection(records.taskCoverage, records.availabilityCoverage);
    if common == [] {
      var nothing := CalculateSummary(records.(taskRuns := [], transitions := []), windows);
      NothingShared(records, windows, nothing);
      return Ok(nothing);
    }
    var end := NewestEnd(common);
    NewestIsLast(records, common, end);
    assert Observed(records, end - 1);
    if windows == [] { return Err(NoWindows); }
    var longest := LongestWindow(windows);
    var start := end - longest;
    var fast := CalculateSummary(Reduced(records, start, end), windows);
    ReducedIsSummary(records, windows, start, end, fast);
    r := Ok(fast);
  }
}
