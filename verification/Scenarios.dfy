/** Scenario verdicts and the search for the least host delta that meets the target. */
module Scenarios {
  import opened OrderStatistics
  import opened Wrappers
  import opened Fifo
  import opened QueueDepth
  import opened Replay

  /** `startedWithinTarget` is the numerator of the reported percentage. */
  datatype ScenarioResult = ScenarioResult(
    hostDelta: int, modeledTaskCount: nat, unstartedTaskCount: nat, p50: Option<int>, p95: Option<int>,
    startedWithinTarget: nat, maxQueueDepth: nat, meetsTarget: bool)

  ghost predicate IsPercentile(values: seq<int>, percent: nat, value: Option<int>) {
    if values == [] then value == None
    else value.Some? && IsOrderStatistic(values, Rank(|values|, percent), value.value)
  }

  /** A scenario result says of the FIFO schedule what its fields are named for. */
  ghost predicate Describes(m: Model, target: int, r: ScenarioResult) {
    var lags := Lags(m, Schedule(m));
    && r.hostDelta == m.hostDelta
    && r.modeledTaskCount == |lags|
    && r.unstartedTaskCount == |m.arrivals| - |lags|
    && IsPercentile(lags, 50, r.p50)
    && IsPercentile(lags, 95, r.p95)
    && r.startedWithinTarget == CountAtMost(lags, target)
    && IsPeakDepth(m, Schedule(m), r.maxQueueDepth)
    && (r.meetsTarget <==> MeetsTarget(m, target))
  }

  /** `_scenario`. */
  method RunScenario(m: Model, target: int) returns (r: ScenarioResult)
    requires m.Valid()
    ensures Describes(m, target, r)
  {
    var lags, maxQueueDepth := ReplayQueue(m);
    ghost var replayed := lags;
    var p50, p95;
    lags, p50 := Percentile(lags, 50);
    SamePercentiles(replayed, lags);
    lags, p95 := Percentile(lags, 95);
    CountPermutation(lags, replayed, target);
    SameSize(lags, replayed);
    if p95.Some? { OrderStatisticAtMost(replayed, Rank(|replayed|, 95), p95.value, target); }
    var meetsTarget := |lags| == |m.arrivals| && p95.Some? && p95.value <= target;
    r := ScenarioResult(m.hostDelta, |lags|, |m.arrivals| - |lags|, p50, p95,
                        CountAtMost(lags, target), maxQueueDepth, meetsTarget);
  }

  lemma {:induction false} PercentileUnique(values: seq<int>, percent: nat, v: Option<int>, w: Option<int>)
    requires IsPercentile(values, percent, v) && IsPercentile(values, percent, w)
    ensures v == w
  {
    if v.Some? { OrderStatisticUnique(values, Rank(|values|, percent), v.value, w.value); }
  }

  /** The schedule determines every reported field. */
  lemma {:induction false} ResultUnique(m: Model, target: int, r: ScenarioResult, r': ScenarioResult)
    requires Describes(m, target, r) && Describes(m, target, r')
    ensures r == r'
  {
    var lags := Lags(m, Schedule(m));
    PercentileUnique(lags, 50, r.p50, r'.p50);
    PercentileUnique(lags, 95, r.p95, r'.p95);
    PeakDepthUnique(m, Schedule(m), r.maxQueueDepth, r'.maxQueueDepth);
  }

  lemma {:induction false} SameSize(s: seq<int>, t: seq<int>)
    requires multiset(s) == multiset(t)
    ensures |s| == |t|
  {
    assert |multiset(s)| == |s| && |multiset(t)| == |t|;
  }

  /** Sorting the list in place between two calls changes no percentile. */
  lemma {:induction false} SamePercentiles(s: seq<int>, t: seq<int>)
    requires multiset(s) == multiset(t)
    ensures |s| == |t|
    ensures forall rank: nat, v :: IsOrderStatistic(t, rank, v) ==> IsOrderStatistic(s, rank, v)
  {
    SameSize(s, t);
    forall rank: nat, v | IsOrderStatistic(t, rank, v) ensures IsOrderStatistic(s, rank, v) {
      CountPermutation(s, t, v);
      CountPermutation(s, t, v - 1);
      assert v in multiset(t);
    }
  }

  /** A result told by the jobs of the schedule: how many start in the target, and what share within a percentile. */
  lemma {:induction false} ResultIsShare(m: Model, target: int, r: ScenarioResult)
    requires Describes(m, target, r)
    ensures r.startedWithinTarget == |InTime(m, target)|
    ensures r.p50.Some? ==> IsShare(m, 50, r.p50.value)
    ensures r.p95.Some? ==> IsShare(m, 95, r.p95.value)
  {
    InTimeCounted(m, target);
    if r.p50.Some? { LagShare(m, 50, r.p50.value); }
    if r.p95.Some? { LagShare(m, 95, r.p95.value); }
  }

  /** At least that percentage of the started jobs waited no longer, and less than it waited shorter. */
  ghost predicate IsShare(m: Model, percent: nat, lag: int) {
    && |Schedule(m)| * percent <= 100 * |InTime(m, lag)|
    && 100 * |InTime(m, lag - 1)| < |Schedule(m)| * percent
  }

  lemma {:induction false} LagShare(m: Model, percent: nat, lag: int)
    requires 0 < percent && IsPercentile(Lags(m, Schedule(m)), percent, Some(lag))
    ensures IsShare(m, percent, lag)
  {
    var lags, less := Lags(m, Schedule(m)), lag - 1;
    InTimeCounted(m, lag);
    InTimeCounted(m, less);
    RankIsShare(|lags|, percent, CountAtMost(lags, lag));
    RankIsShare(|lags|, percent, CountAtMost(lags, less));
  }

  ghost predicate Passes(m: Model, target: int, delta: int) { MeetsTarget(WithDelta(m, delta), target) }

  lemma {:induction false} PassesMonotone(m: Model, target: int, d: int, d': int)
    requires d <= d' && Passes(m, target, d)
    ensures Passes(m, target, d')
  {
    MoreHostsNeverHurt(WithDelta(m, d), d', m.turnaround, target);
    assert WithDelta(m, d').turnaround == m.turnaround;
    assert WithDelta(m, d).(hostDelta := d', turnaround := m.turnaround) == WithDelta(m, d');
  }

  lemma {:induction false} PassesFrom(m: Model, target: int, d: int)
    requires Passes(m, target, d)
    ensures forall d' :: d <= d' ==> Passes(m, target, d')
  {
    forall d' | d <= d' ensures Passes(m, target, d') { PassesMonotone(m, target, d, d'); }
  }

  lemma {:induction false} FailsUpTo(m: Model, target: int, d: int)
    requires !Passes(m, target, d)
    ensures forall d' :: d' <= d ==> !Passes(m, target, d')
  {
    forall d' | d' <= d ensures !Passes(m, target, d') {
      if Passes(m, target, d') { PassesMonotone(m, target, d', d); }
    }
  }

  /** `run_scenario(delta)["meets_target"]`. */
  method Verdict(m: Model, target: int, delta: int) returns (passes: bool)
    requires m.Valid()
    ensures passes <==> Passes(m, target, delta)
  {
    var scenario := RunScenario(WithDelta(m, delta), target);
    passes := scenario.meetsTarget;
  }

  datatype Threshold =
    | AtOrBelowSearchLimit(removableLowerBound: int)
    | NoPassingDelta
    | Exact(minimumDelta: int, maximumRemovable: int)

  /** The search answers for every delta in the range, although it tries only a few. */
  ghost predicate IsThreshold(m: Model, target: int, min: int, max: int, t: Threshold) {
    && (t.AtOrBelowSearchLimit? <==> forall d :: min <= d <= max ==> Passes(m, target, d))
    && (t.NoPassingDelta? <==> forall d :: min <= d <= max ==> !Passes(m, target, d))
    && (t.AtOrBelowSearchLimit? ==> t.removableLowerBound == Max(0, -min))
    && (t.Exact? ==>
          && min < t.minimumDelta <= max
          && t.maximumRemovable == Max(0, -t.minimumDelta)
          && forall d :: min <= d <= max ==> (Passes(m, target, d) <==> t.minimumDelta <= d))
  }

  lemma {:induction false} LowestPasses(m: Model, target: int, min: int, max: int, t: Threshold)
    requires min <= max && Passes(m, target, min) && t == AtOrBelowSearchLimit(Max(0, -min))
    ensures IsThreshold(m, target, min, max, t)
  {
    PassesFrom(m, target, min);
  }

  lemma {:induction false} HighestFails(m: Model, target: int, min: int, max: int)
    requires min <= max && !Passes(m, target, max)
    ensures IsThreshold(m, target, min, max, NoPassingDelta)
  {
    FailsUpTo(m, target, max);
  }

  lemma {:induction false} SearchEnds(m: Model, target: int, min: int, max: int, failing: int, t: Threshold)
    requires t.Exact? && min < t.minimumDelta <= max && failing == t.minimumDelta - 1
    requires t.maximumRemovable == Max(0, -t.minimumDelta)
    requires !Passes(m, target, failing) && Passes(m, target, t.minimumDelta)
    ensures IsThreshold(m, target, min, max, t)
  {
    PassesFrom(m, target, t.minimumDelta);
    FailsUpTo(m, target, failing);
  }

  /** `_capacity_threshold`, searching with the real scenario. */
  method CapacityThreshold(m: Model, target: int, min: int, max: int) returns (t: Threshold)
    requires m.Valid() && min <= max
    ensures IsThreshold(m, target, min, max, t)
  {
    var lowestPasses := Verdict(m, target, min);
    if lowestPasses {
      t := AtOrBelowSearchLimit(Max(0, -min));
      LowestPasses(m, target, min, max, t);
      return;
    }
    var highestPasses := Verdict(m, target, max);
    if !highestPasses {
      HighestFails(m, target, min, max);
      return NoPassingDelta;
    }
    var lower, upper := min + 1, max;
    ghost var failing := min;
    while lower < upper
      invariant min < lower <= upper <= max
      invariant failing == lower - 1 && !Passes(m, target, failing) && Passes(m, target, upper)
    {
      var middle := (lower + upper) / 2;
      var passes := Verdict(m, target, middle);
      if passes { upper := middle; } else { lower, failing := middle + 1, middle; }
    }
    t := Exact(lower, Max(0, -lower));
    SearchEnds(m, target, min, max, failing, t);
  }

  /**
    The number reported as removable is the largest number of hosts whose removal still passes
    exactly when the least passing delta is not positive. Otherwise it is 0 and removing none fails.
  */
  lemma {:induction false} RemovableHosts(m: Model, target: int, min: int, max: int, t: Threshold)
    requires min <= 0 <= max && IsThreshold(m, target, min, max, t) && t.Exact?
    ensures t.minimumDelta <= 0 <==> Passes(m, target, -t.maximumRemovable)
    ensures Passes(m, target, -t.maximumRemovable) ==>
              forall d :: min <= d <= 0 ==> (Passes(m, target, d) <==> -d <= t.maximumRemovable)
    ensures !Passes(m, target, -t.maximumRemovable) ==> t.maximumRemovable == 0
  {
  }

  /** Without arrivals no delta passes, so the search never reports a threshold. */
  lemma {:induction false} NoArrivalsNeverPass(m: Model, target: int, min: int, max: int, t: Threshold)
    requires m.arrivals == [] && min <= max && IsThreshold(m, target, min, max, t)
    ensures t == NoPassingDelta
  {
    assert !Passes(m, target, min);
  }

  /**
    One job, and no host observed: the least passing delta is 1, so 0 is reported as removable and removing none
    fails.
  */
  lemma {:induction false} NoneRemovableStillFails(target: int, min: int, max: int, t: Threshold)
    requires 0 <= target && min <= 0 < max
    requires IsThreshold(Model([Arrival(0, 1)], [CapacityChange(0, 0)], 0, 0), target, min, max, t)
    ensures t == Exact(1, 0) && !Passes(Model([Arrival(0, 1)], [CapacityChange(0, 0)], 0, 0), target, 0)
  {
    var m := Model([Arrival(0, 1)], [CapacityChange(0, 0)], 0, 0);
    forall d ensures Passes(m, target, d) <==> 1 <= d { OneHostNeeded(m, target, d); }
    assert !Passes(m, target, 0) && Passes(m, target, 1);
  }

  lemma {:induction false} OneHostNeeded(m: Model, target: int, d: int)
    requires m.arrivals == [Arrival(0, 1)] && m.changes == [CapacityChange(0, 0)] && 0 <= target
    ensures Passes(m, target, d) <==> 1 <= d
  {
    var shifted := WithDelta(m, d);
    forall x ensures shifted.Capacity(x) == (if 0 <= x then Max(0, d) else 0) {
      assert shifted.changes == [CapacityChange(0, 0)] && shifted.changes[..0] == [];
      assert EffectiveCapacity(shifted.changes[..0], d, x) == 0;
    }
    if 1 <= d {
      SingleJobStarts(shifted, 0);
      SingleLagPasses(shifted, target, 0);
    } else {
      SingleJobWaits(shifted);
    }
  }

  lemma {:induction false} SingleLagPasses(m: Model, target: int, at: int)
    requires |m.arrivals| == 1 && Schedule(m) == [at] && at - m.arrivals[0].scheduled <= target
    ensures MeetsTarget(m, target)
  {
    var lags := Lags(m, Schedule(m));
    assert lags[..0] == [] && CountAtMost(lags, target) == 1;
    assert Rank(1, 95) == 0;
  }
}
