/** Utilization buckets: what they measure, that they conserve it, and that windowed queries do not change it. */
module Utilization {
  import opened Wrappers
  import opened Pool
  import opened PointSums
  import opened Intervals
  import opened Durations
  import opened Availability
  import opened Fifo
  import opened WorkerTime

  datatype Records = Records(
    taskRuns: seq<Interval>, transitions: seq<Transition>, taskCoverage: seq<Interval>,
    availabilityCoverage: seq<Interval>)

  datatype Status = Incomplete | Partial | Available | Unavailable

  /** Worker time observed in a bucket; percentages and hours are ratios of these and of `coverage`. */
  datatype Amounts = Amounts(busy: int, available: int)

  datatype Bucket = Bucket(start: int, end: int, coverage: int, complete: bool, status: Status,
      amounts: Option<Amounts>)

  // ----- What a bucket measures -----

  ghost predicate Observed(records: Records, x: int) {
    Covers(records.taskCoverage, x) && Covers(records.availabilityCoverage, x)
  }

  ghost function ObservedAt(records: Records): int -> int { x => if Observed(records, x) then 1 else 0 }

  ghost function BusyAt(records: Records): int -> int {
    x => if Observed(records, x) then Multiplicity(records.taskRuns, x) else 0
  }

  ghost function AvailableAtInstant(records: Records): int -> int {
    x => if Observed(records, x) then Headcount(records.transitions, x) else 0
  }

  ghost function CoveredTime(records: Records, lo: int, hi: int): int { PointSum(lo, hi, ObservedAt(records)) }

  /** Worker time spent on tasks while both sources were observing; overlapping runs add up. */
  ghost function BusyTime(records: Records, lo: int, hi: int): int { PointSum(lo, hi, BusyAt(records)) }

  /** Worker time available while both sources were observing. */
  ghost function AvailableTime(records: Records, lo: int, hi: int): int {
    PointSum(lo, hi, AvailableAtInstant(records))
  }

  ghost predicate Describes(records: Records, b: Bucket) {
    && b.start < b.end
    && b.coverage == CoveredTime(records, b.start, b.end)
    && (b.complete <==> forall x :: b.start <= x < b.end ==> Observed(records, x))
    && b.amounts == (if b.coverage == 0 then None
                     else Some(Amounts(BusyTime(records, b.start, b.end), AvailableTime(records, b.start, b.end))))
    && b.status == (if b.coverage == 0 then Incomplete
                    else if !b.complete then Partial
                    else if AvailableTime(records, b.start, b.end) > 0 then Available
                    else Unavailable)
  }

  // ----- Worker sums -----

  ghost function WorkersAt(rs: seq<WorkerAvailability>, x: int): nat {
    if rs == [] then 0
    else WorkersAt(rs[..|rs| - 1], x) + if Covers(rs[|rs| - 1].intervals, x) then 1 else 0
  }

  ghost function WorkersWithin(rs: seq<WorkerAvailability>, coverage: seq<Interval>): int -> int {
    x => if Covers(coverage, x) then WorkersAt(rs, x) else 0
  }

  function TotalCovered(rs: seq<WorkerAvailability>, coverage: seq<Interval>, lo: int, hi: int): int {
    if rs == [] then 0
    else TotalCovered(rs[..|rs| - 1], coverage, lo, hi) + CoveredLength(rs[|rs| - 1].intervals, coverage, lo, hi)
  }

  lemma {:induction false} TotalIsCount(rs: seq<WorkerAvailability>, coverage: seq<Interval>, lo: int, hi: int)
    requires Separated(coverage) && forall i :: 0 <= i < |rs| ==> Separated(rs[i].intervals)
    ensures TotalCovered(rs, coverage, lo, hi) == PointSum(lo, hi, WorkersWithin(rs, coverage))
  {
    if rs == [] {
      if lo < hi { PointSumConstant(lo, hi, WorkersWithin(rs, coverage), 0); }
    } else {
      var init, mine := rs[..|rs| - 1], rs[|rs| - 1].intervals;
      TotalIsCount(init, coverage, lo, hi);
      CoveredIsCount(mine, coverage, lo, hi);
      forall x
        ensures WorkersWithin(rs, coverage)(x) == WorkersWithin(init, coverage)(x) + CountWithin(mine, coverage)(x)
      {
        SeparatedMultiplicity(mine, x);
      }
      PointSumAdd(lo, hi, WorkersWithin(init, coverage), CountWithin(mine, coverage), WorkersWithin(rs, coverage));
    }
  }

  ghost function WorkerSet(rs: seq<WorkerAvailability>): set<Worker> { set i | 0 <= i < |rs| :: rs[i].worker }

  lemma {:induction false} WorkersAtIsCount(rs: seq<WorkerAvailability>, ts: seq<Transition>, x: int)
    requires forall i, j :: 0 <= i < j < |rs| ==> rs[i].worker != rs[j].worker
    requires forall i :: 0 <= i < |rs| ==> (Covers(rs[i].intervals, x) <==> AvailableAt(ts, rs[i].worker, x))
    ensures WorkersAt(rs, x) == |set w | w in WorkerSet(rs) && AvailableAt(ts, w, x)|
  {
    var all := set w | w in WorkerSet(rs) && AvailableAt(ts, w, x);
    if rs == [] {
      assert all == {};
    } else {
      var init, last := rs[..|rs| - 1], rs[|rs| - 1];
      WorkersAtIsCount(init, ts, x);
      var before := set w | w in WorkerSet(init) && AvailableAt(ts, w, x);
      assert WorkerSet(rs) == WorkerSet(init) + {last.worker};
      assert last.worker !in WorkerSet(init);
      assert all == if AvailableAt(ts, last.worker, x) then before + {last.worker} else before;
    }
  }

  /** At every instant of the range the intervals and the headcount agree. */
  lemma {:induction false} WorkersAtIsHeadcount(
    rs: seq<WorkerAvailability>, ts: seq<Transition>, lo: int, hi: int, x: int)
    requires ResolvesAll(rs, ts, lo, hi) && lo <= x < hi
    ensures WorkersAt(rs, x) == Headcount(ts, x)
  {
    WorkersAtIsCount(rs, ts, x);
    assert WorkerSet(rs) == Workers(ts) by {
      forall w ensures w in WorkerSet(rs) <==> w in Workers(ts) {}
    }
  }

  /** The capacity that the steps give without a delta. */
  ghost function StepAt(changes: seq<CapacityChange>): int -> int { x => EffectiveCapacity(changes, 0, x) }

  /** The compressed steps integrate to the summed lengths of the workers' intervals. */
  lemma {:induction false} TwoCapacityModelsAgree(
    rs: seq<WorkerAvailability>, changes: seq<CapacityChange>, ts: seq<Transition>, lo: int, hi: int)
    requires ResolvesAll(rs, ts, lo, hi) && lo < hi
    requires forall x :: lo <= x < hi ==> StepsMatch(changes, ts, x)
    ensures forall x :: lo <= x < hi ==> StepAt(changes)(x) == WorkersAt(rs, x)
    ensures TotalCovered(rs, [Interval(lo, hi)], lo, hi) == PointSum(lo, hi, StepAt(changes))
  {
    var whole := [Interval(lo, hi)];
    TotalIsCount(rs, whole, lo, hi);
    forall x | lo <= x < hi
      ensures WorkersWithin(rs, whole)(x) == StepAt(changes)(x) == WorkersAt(rs, x)
    {
      assert whole[0].Has(x);
      assert StepsMatch(changes, ts, x);
      WorkersAtIsHeadcount(rs, ts, lo, hi, x);
    }
    PointSumEqual(lo, hi, WorkersWithin(rs, whole), StepAt(changes));
  }

  // ----- The bucket loop -----

  datatype RangeError = RangeEndNotAfterStart | BucketNotPositive

  datatype Report = Report(
    start: int, end: int, coverage: int, complete: bool, collectionStarted: Option<int>, buckets: seq<Bucket>)

  /** `_task_intervals`: runs that take no time are dropped. */
  method TaskIntervals(taskRuns: seq<Interval>) returns (intervals: seq<Interval>)
    ensures forall x :: Multiplicity(intervals, x) == Multiplicity(taskRuns, x)
  {
    intervals := [];
    for k := 0 to |taskRuns|
      invariant forall x :: Multiplicity(intervals, x) == Multiplicity(taskRuns[..k], x)
    {
      assert taskRuns[..k + 1][..k] == taskRuns[..k];
      ghost var before := intervals;
      if taskRuns[k].end > taskRuns[k].start {
        intervals := intervals + [taskRuns[k]];
        assert intervals[..|intervals| - 1] == before;
      }
    }
    assert taskRuns[..|taskRuns|] == taskRuns;
  }

  ghost predicate SharedCoverage(records: Records, coverage: seq<Interval>) {
    Separated(coverage) && forall x :: Covers(coverage, x) <==> Observed(records, x)
  }

  lemma {:induction false} CoverageMeasure(records: Records, coverage: seq<Interval>, lo: int, hi: int)
    requires SharedCoverage(records, coverage)
    ensures ClippedLength(coverage, lo, hi) == CoveredTime(records, lo, hi)
  {
    SeparatedClipped(coverage, lo, hi);
    PointSumEqual(lo, hi, CoverageOf(coverage), ObservedAt(records));
  }

  lemma {:induction false} BusyMeasure(
    records: Records, coverage: seq<Interval>, tasks: seq<Interval>, lo: int, hi: int)
    requires SharedCoverage(records, coverage)
    requires forall x :: Multiplicity(tasks, x) == Multiplicity(records.taskRuns, x)
    ensures CoveredLength(tasks, coverage, lo, hi) == BusyTime(records, lo, hi)
  {
    CoveredIsCount(tasks, coverage, lo, hi);
    PointSumEqual(lo, hi, CountWithin(tasks, coverage), BusyAt(records));
  }

  lemma {:induction false} AvailableMeasure(
    records: Records, coverage: seq<Interval>, rs: seq<WorkerAvailability>, start: int, end: int, lo: int, hi: int)
    requires SharedCoverage(records, coverage) && ResolvesAll(rs, records.transitions, start, end)
    requires start <= lo <= hi <= end
    ensures TotalCovered(rs, coverage, lo, hi) == AvailableTime(records, lo, hi)
  {
    TotalIsCount(rs, coverage, lo, hi);
    forall x | lo <= x < hi ensures WorkersWithin(rs, coverage)(x) == AvailableAtInstant(records)(x) {
      WorkersAtIsHeadcount(rs, records.transitions, start, end, x);
    }
    PointSumEqual(lo, hi, WorkersWithin(rs, coverage), AvailableAtInstant(records));
  }

  /** One bucket of `calculate_utilization`. */
  method MakeBucket(
    ghost records: Records, coverage: seq<Interval>, tasks: seq<Interval>, rs: seq<WorkerAvailability>,
    ghost start: int, ghost end: int, lo: int, hi: int) returns (b: Bucket)
    requires SharedCoverage(records, coverage) && ResolvesAll(rs, records.transitions, start, end)
    requires forall x :: Multiplicity(tasks, x) == Multiplicity(records.taskRuns, x)
    requires start <= lo < hi <= end
    ensures b.start == lo && b.end == hi && Describes(records, b)
  {
    var seconds := ClipSeconds(coverage, lo, hi);
    CoverageMeasure(records, coverage, lo, hi);
    CompleteIsFullLength(coverage, lo, hi);
    var complete := IsComplete(coverage, lo, hi);
    b := Bucket(lo, hi, seconds, complete, Incomplete, None);
    if seconds > 0 {
      var busy := CoveredLength(tasks, coverage, lo, hi);
      BusyMeasure(records, coverage, tasks, lo, hi);
      var available := TotalCovered(rs, coverage, lo, hi);
      AvailableMeasure(records, coverage, rs, start, end, lo, hi);
      b := b.(status := if complete then (if available > 0 then Available else Unavailable) else Partial,
              amounts := Some(Amounts(busy, available)));
    }
  }

  /** Consecutive buckets from `start` to `end`, all of the given size except perhaps a shorter last one. */
  ghost predicate Tiles(buckets: seq<Bucket>, start: int, end: int, size: int) {
    && (if buckets == [] then start == end else buckets[0].start == start && buckets[|buckets| - 1].end == end)
    && (forall i :: 0 <= i < |buckets| ==> buckets[i].start < buckets[i].end <= buckets[i].start + size)
    && (forall i :: 0 <= i < |buckets| - 1 ==> buckets[i].end == buckets[i].start + size)
    && (forall i :: 0 < i < |buckets| ==> buckets[i - 1].end == buckets[i].start)
  }

  /** `calculate_utilization`; the bucket size is in the unit of the instants. */
  method CalculateUtilization(records: Records, start: int, end: int, bucketSize: int)
    returns (r: Result<Report, RangeError>)
    requires DistinctIds(records.transitions)
    ensures r == Err(RangeEndNotAfterStart) <==> end <= start
    ensures r == Err(BucketNotPositive) <==> start < end && bucketSize <= 0
    ensures r.Ok? ==> r.value.start == start && r.value.end == end && Tiles(r.value.buckets, start, end, bucketSize)
    ensures r.Ok? ==> forall i :: 0 <= i < |r.value.buckets| ==> Describes(records, r.value.buckets[i])
    ensures r.Ok? ==> r.value.coverage == CoveredTime(records, start, end)
    ensures r.Ok? ==> (r.value.complete <==> forall x :: start <= x < end ==> Observed(records, x))
    ensures r.Ok? ==> StartsCollecting(records, r.value.collectionStarted)
  {
    if end <= start { return Err(RangeEndNotAfterStart); }
    if bucketSize <= 0 { return Err(BucketNotPositive); }
    var coverage := Intersection(records.taskCoverage, records.availabilityCoverage);
    var seconds := ClipSeconds(coverage, start, end);
    CoverageMeasure(records, coverage, start, end);
    var tasks := TaskIntervals(records.taskRuns);
    var rs := AvailabilityIntervalsByWorker(records.transitions, start, end);
    var buckets := MakeBuckets(records, coverage, tasks, rs, start, end, bucketSize);
    var complete := IsComplete(coverage, start, end);
    r := Ok(Report(start, end, seconds, complete, CollectionStart(records), buckets));
  }

  /** Collection starts when the first intervals of both sources have started; with one source missing it has not. */
  ghost predicate StartsCollecting(records: Records, at: Option<int>) {
    && (at == None <==> records.taskCoverage == [] || records.availabilityCoverage == [])
    && (at.Some? ==>
          && records.taskCoverage[0].start <= at.value && records.availabilityCoverage[0].start <= at.value
          && (at.value == records.taskCoverage[0].start || at.value == records.availabilityCoverage[0].start))
  }

  function CollectionStart(records: Records): Option<int> {
    if records.taskCoverage == [] || records.availabilityCoverage == [] then None
    else Some(Max(records.taskCoverage[0].start, records.availabilityCoverage[0].start))
  }

  lemma {:induction false} TilesAppend(buckets: seq<Bucket>, start: int, mid: int, b: Bucket, size: int)
    requires Tiles(buckets, start, mid, size) && b.start == mid && b.start < b.end <= mid + size
    requires buckets != [] ==> mid == buckets[|buckets| - 1].start + size
    ensures Tiles(buckets + [b], start, b.end, size)
  {
  }

  method MakeBuckets(
    ghost records: Records, coverage: seq<Interval>, tasks: seq<Interval>, rs: seq<WorkerAvailability>,
    start: int, end: int, bucketSize: int) returns (buckets: seq<Bucket>)
    requires SharedCoverage(records, coverage) && ResolvesAll(rs, records.transitions, start, end)
    requires forall x :: Multiplicity(tasks, x) == Multiplicity(records.taskRuns, x)
    requires start < end && 0 < bucketSize
    ensures Tiles(buckets, start, end, bucketSize)
    ensures forall i :: 0 <= i < |buckets| ==> Describes(records, buckets[i])
  {
    buckets := [];
    var bucketStart := start;
    while bucketStart < end
      invariant start <= bucketStart <= end
      invariant Tiles(buckets, start, bucketStart, bucketSize)
      invariant bucketStart < end && buckets != [] ==> bucketStart == buckets[|buckets| - 1].start + bucketSize
      invariant forall i :: 0 <= i < |buckets| ==> Describes(records, buckets[i])
      decreases end - bucketStart
    {
      var bucketEnd := bucketStart + Min(bucketSize, end - bucketStart);
      var b := MakeBucket(records, coverage, tasks, rs, start, end, bucketStart, bucketEnd);
      TilesAppend(buckets, start, bucketStart, b, bucketSize);
      buckets := buckets + [b];
      bucketStart := bucketEnd;
    }
  }

  /** A bucket is complete exactly when its covered time is its whole length. */
  lemma {:induction false} CompleteIffFullyCovered(records: Records, b: Bucket)
    requires Describes(records, b)
    ensures 0 <= b.coverage <= b.end - b.start
    ensures b.complete <==> b.coverage == b.end - b.start
  {
    PointSumFull(b.start, b.end, ObservedAt(records));
    assert forall x :: ObservedAt(records)(x) == 1 <==> Observed(records, x);
  }

  // ----- Conservation -----

  function TotalCoverage(buckets: seq<Bucket>): int {
    if buckets == [] then 0 else TotalCoverage(buckets[..|buckets| - 1]) + buckets[|buckets| - 1].coverage
  }

  /** A bucket without coverage reports no amounts; it contributes nothing. */
  function TotalBusy(buckets: seq<Bucket>): int {
    if buckets == [] then 0
    else TotalBusy(buckets[..|buckets| - 1])
           + match buckets[|buckets| - 1].amounts case None => 0 case Some(a) => a.busy
  }

  function TotalAvailable(buckets: seq<Bucket>): int {
    if buckets == [] then 0
    else TotalAvailable(buckets[..|buckets| - 1])
           + match buckets[|buckets| - 1].amounts case None => 0 case Some(a) => a.available
  }

  /** Nothing is measured where nothing is observed. */
  lemma {:induction false} NothingUnobserved(records: Records, lo: int, hi: int)
    requires lo <= hi && CoveredTime(records, lo, hi) == 0
    ensures BusyTime(records, lo, hi) == 0 && AvailableTime(records, lo, hi) == 0
  {
    forall x | lo <= x < hi ensures !Observed(records, x) {
      PointSumSplit(lo, x, hi, ObservedAt(records));
      PointSumSplit(x, x + 1, hi, ObservedAt(records));
      PointSumFull(lo, x, ObservedAt(records));
      PointSumFull(x + 1, hi, ObservedAt(records));
      assert PointSum(x, x + 1, ObservedAt(records)) == PointSum(x, x, ObservedAt(records)) + ObservedAt(records)(x);
    }
    PointSumConstant(lo, hi, BusyAt(records), 0);
    PointSumConstant(lo, hi, AvailableAtInstant(records), 0);
  }

  /** Covered, busy and available time summed over the buckets are the amounts of the whole range. */
  lemma {:induction false} BucketsConserve(records: Records, buckets: seq<Bucket>, start: int, end: int, size: int)
    requires Tiles(buckets, start, end, size) && forall i :: 0 <= i < |buckets| ==> Describes(records, buckets[i])
    ensures start <= end
    ensures TotalCoverage(buckets) == CoveredTime(records, start, end)
    ensures TotalBusy(buckets) == BusyTime(records, start, end)
    ensures TotalAvailable(buckets) == AvailableTime(records, start, end)
  {
    if buckets == [] {
    } else {
      var init, last := buckets[..|buckets| - 1], buckets[|buckets| - 1];
      BucketsConserve(records, init, start, last.start, size);
      PointSumSplit(start, last.start, end, ObservedAt(records));
      PointSumSplit(start, last.start, end, BusyAt(records));
      PointSumSplit(start, last.start, end, AvailableAtInstant(records));
      if last.coverage == 0 { NothingUnobserved(records, last.start, last.end); }
    }
  }

  /** Available time never exceeds the workers known times the covered time. */
  lemma {:induction false} AvailableAtMostWorkers(records: Records, lo: int, hi: int)
    requires lo <= hi
    ensures AvailableTime(records, lo, hi) <= |Workers(records.transitions)| * CoveredTime(records, lo, hi)
  {
    var n := |Workers(records.transitions)|;
    var bound: int -> int := x => if Observed(records, x) then n else 0;
    forall x ensures AvailableAtInstant(records)(x) <= bound(x) {
      HeadcountAtMostWorkers(records.transitions, x);
    }
    PointSumAtMost(lo, hi, AvailableAtInstant(records), bound);
    PointSumScale(lo, hi, ObservedAt(records), bound, n);
  }

  lemma {:induction false} HeadcountAtMostWorkers(ts: seq<Transition>, x: int)
    ensures Headcount(ts, x) <= |Workers(ts)|
  {
    var available := set w | w in Workers(ts) && AvailableAt(ts, w, x);
    assert Workers(ts) == available + (Workers(ts) - available);
  }
}
