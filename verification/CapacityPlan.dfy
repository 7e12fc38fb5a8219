/** The whole capacity question: validation, the replayed runs, the observed capacity, the search and the report. */
module CapacityPlan {
  import opened Sorting
  import opened OrderStatistics
  import opened Wrappers
  import opened Pool
  import opened Fifo
  import opened Scenarios
  import opened Availability
  import opened WorkerTime

  /** A stored run; a timestamp that is missing or unreadable is `None`. */
  datatype Run = Run(scheduled: Option<int>, started: Option<int>, resolved: Option<int>)

  datatype PlanError = EndNotAfterStart | TargetNotPositive | TurnaroundNegative | RangeExcludesZero

  /** `observedWithinTarget` is the numerator of the reported percentage. */
  datatype Plan = Plan(
    observedRunCount: nat, excludedRunCount: nat, observedP50: Option<int>, observedP95: Option<int>,
    observedWithinTarget: nat, scenarios: seq<ScenarioResult>, modeledP95: Option<int>, p95Difference: Option<int>,
    threshold: Threshold)

  datatype Question = Question(
    start: int, end: int, target: int, deltaMin: int, deltaMax: int, turnaround: int,
    runs: seq<Run>, transitions: seq<Transition>)

  predicate Usable(q: Question, r: Run) {
    && r.scheduled.Some? && r.started.Some? && r.resolved.Some?
    && q.start <= r.scheduled.value < q.end
    && r.scheduled.value <= r.started.value <= r.resolved.value
  }

  function ArrivalOf(r: Run): Arrival
    requires r.scheduled.Some? && r.started.Some? && r.resolved.Some?
  {
    Arrival(r.scheduled.value, r.resolved.value - r.started.value)
  }

  /** The usable runs in the order given. */
  function UsableRuns(q: Question, runs: seq<Run>): (r: seq<Run>)
    ensures forall i :: 0 <= i < |r| ==> Usable(q, r[i])
    ensures |r| <= |runs|
  {
    if runs == [] then []
    else UsableRuns(q, runs[..|runs| - 1]) + if Usable(q, runs[|runs| - 1]) then [runs[|runs| - 1]] else []
  }

  function Arrivals(q: Question, usable: seq<Run>): (r: seq<Arrival>)
    requires forall i :: 0 <= i < |usable| ==> Usable(q, usable[i])
    ensures |r| == |usable|
  {
    seq(|usable|, i requires 0 <= i < |usable| && Usable(q, usable[i]) => ArrivalOf(usable[i]))
  }

  function ObservedLags(q: Question, usable: seq<Run>): (r: seq<int>)
    requires forall i :: 0 <= i < |usable| ==> Usable(q, usable[i])
    ensures |r| == |usable|
  {
    seq(|usable|, i requires 0 <= i < |usable| && Usable(q, usable[i]) =>
      usable[i].started.value - usable[i].scheduled.value)
  }

  predicate ArrivalLeq(a: Arrival, b: Arrival) {
    a.scheduled < b.scheduled || (a.scheduled == b.scheduled && a.duration <= b.duration)
  }

  /**
    A model of the question: its usable runs sorted by arrival, and the observed headcount as capacity.
    There is none before the range, and the last headcount stays in force after it.
  */
  ghost predicate IsModel(q: Question, m: Model) {
    && m.Valid() && SortedBy(m.arrivals, ArrivalLeq)
    && multiset(m.arrivals) == multiset(Arrivals(q, UsableRuns(q, q.runs)))
    && m.turnaround == q.turnaround
    && Compressed(m.changes) && m.changes != [] && m.changes[0].at == q.start
    && forall x, delta :: WithDelta(m, delta).Capacity(x) == CapacityAsked(q, x, delta)
  }

  ghost function CapacityAsked(q: Question, x: int, delta: int): int {
    if x < q.start then 0 else Max(0, Headcount(q.transitions, Min(x, q.end)) + delta)
  }

  method SortedArrivals(q: Question, usable: seq<Run>) returns (arrivals: seq<Arrival>)
    requires forall i :: 0 <= i < |usable| ==> Usable(q, usable[i])
    ensures multiset(arrivals) == multiset(Arrivals(q, usable))
    ensures SortedBy(arrivals, ArrivalLeq)
    ensures forall i, j :: 0 <= i < j < |arrivals| ==> arrivals[i].scheduled <= arrivals[j].scheduled
    ensures forall i :: 0 <= i < |arrivals| ==> 0 <= arrivals[i].duration
  {
    arrivals := Sort(Arrivals(q, usable), ArrivalLeq);
    SortedByArrival(Arrivals(q, usable), arrivals);
  }

  lemma {:induction false} SortedByArrival(unsorted: seq<Arrival>, arrivals: seq<Arrival>)
    requires arrivals == Sort(unsorted, ArrivalLeq)
    requires forall i :: 0 <= i < |unsorted| ==> 0 <= unsorted[i].duration
    ensures SortedBy(arrivals, ArrivalLeq)
    ensures forall i, j :: 0 <= i < j < |arrivals| ==> arrivals[i].scheduled <= arrivals[j].scheduled
    ensures forall i :: 0 <= i < |arrivals| ==> 0 <= arrivals[i].duration
  {
    SortMembers(unsorted, ArrivalLeq);
    forall i | 0 <= i < |arrivals| ensures 0 <= arrivals[i].duration {
      assert arrivals[i] in arrivals;
    }
    ArrivalsInOrder(unsorted, arrivals);
  }

  lemma {:induction false} ArrivalsInOrder(unsorted: seq<Arrival>, arrivals: seq<Arrival>)
    requires arrivals == Sort(unsorted, ArrivalLeq)
    ensures SortedBy(arrivals, ArrivalLeq)
    ensures forall i, j :: 0 <= i < j < |arrivals| ==> arrivals[i].scheduled <= arrivals[j].scheduled
  {
    ArrivalLeqTotal();
    SortSorted(unsorted, ArrivalLeq);
    forall i, j | 0 <= i < j < |arrivals| ensures arrivals[i].scheduled <= arrivals[j].scheduled {
      assert ArrivalLeq(arrivals[i], arrivals[j]);
    }
  }

  lemma {:induction false} ArrivalLeqTotal()
    ensures TotalOrder(ArrivalLeq)
  {
  }

  method BuildModel(q: Question) returns (m: Model, usable: seq<Run>)
    requires DistinctIds(q.transitions) && q.start < q.end && 0 <= q.turnaround
    ensures IsModel(q, m) && usable == UsableRuns(q, q.runs)
  {
    usable := [];
    for k := 0 to |q.runs|
      invariant usable == UsableRuns(q, q.runs[..k])
    {
      assert q.runs[..k + 1][..k] == q.runs[..k];
      if Usable(q, q.runs[k]) { usable := usable + [q.runs[k]]; }
    }
    assert q.runs[..|q.runs|] == q.runs;
    var arrivals := SortedArrivals(q, usable);
    var changes := AvailabilityByTime(q.transitions, q.start, q.end);
    m := Model(arrivals, changes, 0, q.turnaround);
    CapacityIsAsked(q, m);
  }

  lemma {:induction false} CapacityIsAsked(q: Question, m: Model)
    requires q.start < q.end && Compressed(m.changes) && m.changes != []
    requires m.changes[0].at == q.start && m.changes[|m.changes| - 1].at <= q.end
    requires forall x :: q.start <= x <= q.end ==> StepsMatch(m.changes, q.transitions, x)
    ensures forall x, delta :: WithDelta(m, delta).Capacity(x) == CapacityAsked(q, x, delta)
  {
    forall x, delta ensures WithDelta(m, delta).Capacity(x) == CapacityAsked(q, x, delta) {
      OutsideSteps(m.changes, delta, x, q.end);
      assert q.start <= x ==> StepsMatch(m.changes, q.transitions, Min(x, q.end));
    }
  }

  /** The question determines the model: any two models of it replay the same at every delta. */
  lemma {:induction false} ModelsAgree(q: Question, m: Model, m': Model, delta: int)
    requires IsModel(q, m) && IsModel(q, m')
    ensures WithDelta(m, delta) == WithDelta(m', delta)
    ensures Schedule(WithDelta(m, delta)) == Schedule(WithDelta(m', delta))
    ensures Passes(m, q.target, delta) <==> Passes(m', q.target, delta)
  {
    SortedArrivalsUnique(m.arrivals, m'.arrivals);
    forall d, x ensures EffectiveCapacity(m.changes, d, x) == EffectiveCapacity(m'.changes, d, x) {
      assert WithDelta(m, d).Capacity(x) == CapacityAsked(q, x, d);
      assert WithDelta(m', d).Capacity(x) == CapacityAsked(q, x, d);
    }
    CompressedUnique(m.changes, m'.changes);
    assert WithDelta(m, delta) == WithDelta(m', delta);
  }

  lemma {:induction false} SortedArrivalsUnique(s: seq<Arrival>, t: seq<Arrival>)
    requires SortedBy(s, ArrivalLeq) && SortedBy(t, ArrivalLeq) && multiset(s) == multiset(t)
    ensures s == t
  {
    if s == [] {
      assert |multiset(t)| == 0;
    } else {
      LargestLast(s, t);
      LargestLast(t, s);
      DropSameLast(s, t);
      SortedArrivalsUnique(s[..|s| - 1], t[..|t| - 1]);
      assert s == s[..|s| - 1] + [s[|s| - 1]] && t == t[..|t| - 1] + [t[|t| - 1]];
    }
  }

  lemma {:induction false} DropSameLast(s: seq<Arrival>, t: seq<Arrival>)
    requires s != [] && t != [] && s[|s| - 1] == t[|t| - 1] && multiset(s) == multiset(t)
    ensures multiset(s[..|s| - 1]) == multiset(t[..|t| - 1])
  {
    DropLast(s);
    DropLast(t);
  }

  lemma {:induction false} DropLast(s: seq<Arrival>)
    requires s != []
    ensures multiset(s[..|s| - 1]) == multiset(s) - multiset{s[|s| - 1]}
  {
    assert s == s[..|s| - 1] + [s[|s| - 1]];
  }

  lemma {:induction false} LargestLast(s: seq<Arrival>, t: seq<Arrival>)
    requires SortedBy(t, ArrivalLeq) && multiset(s) == multiset(t) && s != []
    ensures t != [] && ArrivalLeq(s[|s| - 1], t[|t| - 1])
  {
    assert s[|s| - 1] in multiset(s);
    assert s[|s| - 1] in t;
    var i :| 0 <= i < |t| && t[i] == s[|s| - 1];
    assert i < |t| - 1 ==> ArrivalLeq(t[i], t[|t| - 1]);
  }

  /** The deltas shown: the range's ends, zero, and the neighbourhood of an exact threshold. */
  ghost predicate Shown(q: Question, threshold: Threshold, delta: int) {
    && q.deltaMin <= delta <= q.deltaMax
    && (delta == q.deltaMin || delta == 0 || delta == q.deltaMax
        || (threshold.Exact? && threshold.minimumDelta - 1 <= delta <= threshold.minimumDelta + 1))
  }

  /** The result describes the scenario of its own delta. */
  ghost predicate DescribesDelta(m: Model, target: int, r: ScenarioResult) {
    Describes(WithDelta(m, r.hostDelta), target, r)
  }

  ghost predicate ShowsScenarios(q: Question, m: Model, threshold: Threshold, scenarios: seq<ScenarioResult>) {
    && (forall i, j :: 0 <= i < j < |scenarios| ==> scenarios[i].hostDelta < scenarios[j].hostDelta)
    && (forall delta :: Shown(q, threshold, delta) <==>
        exists i :: 0 <= i < |scenarios| && scenarios[i].hostDelta == delta)
    && forall i :: 0 <= i < |scenarios| ==> DescribesDelta(m, q.target, scenarios[i])
  }

  method ShownDeltas(q: Question, threshold: Threshold) returns (deltas: seq<int>)
    ensures Increasing(deltas) && forall delta :: delta in deltas <==> Shown(q, threshold, delta)
  {
    var display := {q.deltaMin, 0, q.deltaMax};
    if threshold.Exact? {
      var d := threshold.minimumDelta;
      display := display + {d - 1, d, d + 1};
    }
    var inRange := set delta | delta in display && q.deltaMin <= delta <= q.deltaMax;
    deltas := SortedInstants(inRange);
  }

  method RunShown(q: Question, m: Model, threshold: Threshold) returns (scenarios: seq<ScenarioResult>)
    requires m.Valid()
    ensures ShowsScenarios(q, m, threshold, scenarios)
  {
    var deltas := ShownDeltas(q, threshold);
    scenarios := RunAll(m, q.target, deltas);
    DeltasAreShown(deltas, scenarios);
  }

  /** A scenario for each delta, in order. */
  method RunAll(m: Model, target: int, deltas: seq<int>) returns (scenarios: seq<ScenarioResult>)
    requires m.Valid()
    ensures |scenarios| == |deltas| && forall i :: 0 <= i < |deltas| ==> scenarios[i].hostDelta == deltas[i]
    ensures forall i :: 0 <= i < |deltas| ==> DescribesDelta(m, target, scenarios[i])
  {
    scenarios := [];
    for k := 0 to |deltas|
      invariant |scenarios| == k && forall i :: 0 <= i < k ==> scenarios[i].hostDelta == deltas[i]
      invariant forall i :: 0 <= i < k ==> DescribesDelta(m, target, scenarios[i])
    {
      var scenario := RunDelta(m, target, deltas[k]);
      scenarios := scenarios + [scenario];
    }
  }

  method RunDelta(m: Model, target: int, delta: int) returns (scenario: ScenarioResult)
    requires m.Valid()
    ensures scenario.hostDelta == delta && DescribesDelta(m, target, scenario)
  {
    scenario := RunScenario(WithDelta(m, delta), target);
  }

  lemma {:induction false} DeltasAreShown(deltas: seq<int>, scenarios: seq<ScenarioResult>)
    requires |scenarios| == |deltas| && forall i :: 0 <= i < |deltas| ==> scenarios[i].hostDelta == deltas[i]
    ensures forall delta :: delta in deltas <==> exists i :: 0 <= i < |scenarios| && scenarios[i].hostDelta == delta
  {
    forall delta | delta in deltas ensures exists i :: 0 <= i < |scenarios| && scenarios[i].hostDelta == delta {
      var i :| 0 <= i < |deltas| && deltas[i] == delta;
      assert scenarios[i].hostDelta == delta;
    }
  }

  /** The scenario with delta zero. */
  method FindBaseline(scenarios: seq<ScenarioResult>) returns (k: nat)
    requires exists i :: 0 <= i < |scenarios| && scenarios[i].hostDelta == 0
    ensures k < |scenarios| && scenarios[k].hostDelta == 0
  {
    ghost var at :| 0 <= at < |scenarios| && scenarios[at].hostDelta == 0;
    k := 0;
    while scenarios[k].hostDelta != 0
      invariant 0 <= k <= at
      decreases at - k
    { k := k + 1; }
  }

  function Difference(modeled: Option<int>, observed: Option<int>): Option<int> {
    if modeled.Some? && observed.Some? then Some(modeled.value - observed.value) else None
  }

  /** The report answers the question asked, for a model that is determined by it. */
  ghost predicate Answers(q: Question, m: Model, p: Plan) {
    var usable := UsableRuns(q, q.runs);
    && IsModel(q, m)
    && p.observedRunCount == |usable| && p.observedRunCount + p.excludedRunCount == |q.runs|
    && IsPercentile(ObservedLags(q, usable), 50, p.observedP50)
    && IsPercentile(ObservedLags(q, usable), 95, p.observedP95)
    && p.observedWithinTarget == CountAtMost(ObservedLags(q, usable), q.target)
    && ShowsScenarios(q, m, p.threshold, p.scenarios)
    && IsThreshold(m, q.target, q.deltaMin, q.deltaMax, p.threshold)
    && IsPercentile(Lags(WithDelta(m, 0), Schedule(WithDelta(m, 0))), 95, p.modeledP95)
    && p.p95Difference == Difference(p.modeledP95, p.observedP95)
  }

  // ----- The report, told by the stored runs -----

  /** Run number `i` has all its times, was scheduled in the range, and started and ended in order. */
  ghost predicate Counts(q: Question, i: nat) {
    && i < |q.runs|
    && q.runs[i].scheduled.Some? && q.runs[i].started.Some? && q.runs[i].resolved.Some?
    && q.start <= q.runs[i].scheduled.value < q.end
    && q.runs[i].scheduled.value <= q.runs[i].started.value <= q.runs[i].resolved.value
  }

  /** The counted runs among the first `n`. */
  ghost function Counted(q: Question, n: nat): set<nat> { set i: nat | i < n && Counts(q, i) }

  /** Run number `i` counts, arrived at `x` and ran for `d`. */
  ghost predicate RanAt(q: Question, i: nat, x: int, d: int) {
    Counts(q, i) && q.runs[i].scheduled.value == x && q.runs[i].resolved.value - q.runs[i].started.value == d
  }

  ghost function ArrivedAndRan(
    q: Question, n: nat, x: int, d: int): set<nat> { set i: nat | i < n && RanAt(q, i, x, d) }

  /** Those that started within `t` of being scheduled. */
  ghost function StartedWithin(q: Question, n: nat, t: int): set<nat> {
    set i: nat | i < n && Counts(q, i) && q.runs[i].started.value <= q.runs[i].scheduled.value + t
  }

  ghost function UsableAmong(q: Question, n: nat): (r: seq<Run>)
    requires n <= |q.runs|
    ensures forall i :: 0 <= i < |r| ==> Usable(q, r[i])
  {
    UsableRuns(q, q.runs[..n])
  }

  lemma {:induction false} UsableStep(q: Question, n: nat)
    requires n < |q.runs|
    ensures Usable(q, q.runs[n]) <==> Counts(q, n)
    ensures UsableAmong(q, n + 1) == UsableAmong(q, n) + if Counts(q, n) then [q.runs[n]] else []
  {
    var next := n + 1;
    assert q.runs[..next][..n] == q.runs[..n] && q.runs[..next][n] == q.runs[n];
  }

  lemma {:induction false} UsableAreCounted(q: Question, n: nat)
    requires n <= |q.runs|
    ensures |UsableAmong(q, n)| == |Counted(q, n)|
  {
    if n == 0 {
    } else {
      var last: nat := n - 1;
      UsableAreCounted(q, last);
      UsableStep(q, last);
      assert Counted(q, n) == Counted(q, last) + if Counts(q, last) then {last} else {};
    }
  }

  lemma {:induction false} JobsAreRuns(q: Question, n: nat, x: int, d: int)
    requires n <= |q.runs|
    ensures multiset(Arrivals(q, UsableAmong(q, n)))[Arrival(x, d)] == |ArrivedAndRan(q, n, x, d)|
  {
    if n == 0 {
      assert Arrivals(q, UsableAmong(q, 0)) == [];
    } else {
      var last: nat := n - 1;
      JobsAreRuns(q, last, x, d);
      JobsStep(q, last, x, d);
      assert ArrivedAndRan(q, n, x, d) == ArrivedAndRan(q, last, x, d) + if RanAt(q, last, x, d) then {last} else {};
    }
  }

  lemma {:induction false} JobsStep(q: Question, n: nat, x: int, d: int)
    requires n < |q.runs|
    ensures multiset(Arrivals(q, UsableAmong(q, n + 1)))[Arrival(x, d)]
      == multiset(Arrivals(q, UsableAmong(q, n)))[Arrival(x, d)] + if RanAt(q, n, x, d) then 1 else 0
  {
    UsableStep(q, n);
    var before, after := UsableAmong(q, n), UsableAmong(q, n + 1);
    if Counts(q, n) {
      var run := q.runs[n];
      var job := Arrival(run.scheduled.value, run.resolved.value - run.started.value);
      assert Arrivals(q, after) == Arrivals(q, before) + [job];
    } else {
      assert after == before;
    }
  }

  lemma {:induction false} LagsAreRuns(q: Question, n: nat, t: int)
    requires n <= |q.runs|
    ensures CountAtMost(ObservedLags(q, UsableAmong(q, n)), t) == |StartedWithin(q, n, t)|
  {
    if n == 0 {
      assert ObservedLags(q, UsableAmong(q, 0)) == [];
    } else {
      var last: nat := n - 1;
      LagsAreRuns(q, last, t);
      LagsStep(q, last, t);
      assert StartedWithin(q, n, t) == StartedWithin(q, last, t)
          + if last in StartedWithin(q, n, t) then {last} else {};
    }
  }

  lemma {:induction false} LagsStep(q: Question, n: nat, t: int)
    requires n < |q.runs|
    ensures CountAtMost(ObservedLags(q, UsableAmong(q, n + 1)), t) == CountAtMost(ObservedLags(q, UsableAmong(q, n)), t)
          + if Counts(q, n) && q.runs[n].started.value - q.runs[n].scheduled.value <= t then 1 else 0
  {
    UsableStep(q, n);
    var before, after := UsableAmong(q, n), UsableAmong(q, n + 1);
    if Counts(q, n) {
      var lag := q.runs[n].started.value - q.runs[n].scheduled.value;
      assert ObservedLags(q, after) == ObservedLags(q, before) + [lag];
      CountConcat(ObservedLags(q, before), [lag], t);
      assert [lag][..0] == [];
    } else {
      assert after == before;
    }
  }

  /** A model of the question replays exactly the stored runs: when they were scheduled and how long they ran. */
  lemma {:induction false} ModelReplaysRuns(q: Question, m: Model, x: int, d: int)
    requires IsModel(q, m)
    ensures multiset(m.arrivals)[Arrival(x, d)] == |ArrivedAndRan(q, |q.runs|, x, d)|
    ensures |m.arrivals| == |Counted(q, |q.runs|)|
  {
    assert q.runs[..|q.runs|] == q.runs;
    JobsAreRuns(q, |q.runs|, x, d);
    UsableAreCounted(q, |q.runs|);
    assert |multiset(m.arrivals)| == |m.arrivals|;
    assert |multiset(Arrivals(q, UsableAmong(q, |q.runs|)))| == |UsableAmong(q, |q.runs|)|;
  }

  /** What a report says of the stored runs, and of the difference between its own figures. */
  ghost predicate ReportsRuns(q: Question, p: Plan) {
    && p.observedRunCount == |Counted(q, |q.runs|)| && p.observedRunCount + p.excludedRunCount == |q.runs|
    && p.observedWithinTarget == |StartedWithin(q, |q.runs|, q.target)|
    && (p.p95Difference.Some? <==> p.modeledP95.Some? && p.observedP95.Some?)
    && (p.p95Difference.Some? ==> p.observedP95.value + p.p95Difference.value == p.modeledP95.value)
  }

  lemma {:induction false} AnswersReportRuns(q: Question, m: Model, p: Plan)
    requires Answers(q, m, p)
    ensures ReportsRuns(q, p)
  {
    assert q.runs[..|q.runs|] == q.runs;
    UsableAreCounted(q, |q.runs|);
    LagsAreRuns(q, |q.runs|, q.target);
  }

  /** The observed percentiles, told by the stored runs: the share that started within the value, and within less. */
  lemma {:induction false} ObservedPercentileIsShare(q: Question, percent: nat, v: Option<int>)
    requires 0 < percent && IsPercentile(ObservedLags(q, UsableRuns(q, q.runs)), percent, v)
    ensures v == None <==> Counted(q, |q.runs|) == {}
    ensures v.Some? ==>
      && |Counted(q, |q.runs|)| * percent <= 100 * |StartedWithin(q, |q.runs|, v.value)|
      && 100 * |StartedWithin(q, |q.runs|, v.value - 1)| < |Counted(q, |q.runs|)| * percent
  {
    assert q.runs[..|q.runs|] == q.runs;
    UsableAreCounted(q, |q.runs|);
    if v.Some? {
      var lags, less := ObservedLags(q, UsableRuns(q, q.runs)), v.value - 1;
      PercentileIsShare(lags, percent, v.value);
      CountsAreSizes(lags, v.value);
      LagsAreRuns(q, |q.runs|, v.value);
      LagsAreRuns(q, |q.runs|, less);
    }
  }

  /** `calculate_capacity_scenarios`. The errors are reported in the order they are checked. */
  method CalculateCapacityScenarios(q: Question) returns (r: Result<Plan, PlanError>)
    requires DistinctIds(q.transitions)
    ensures r == Err(EndNotAfterStart) <==> q.end <= q.start
    ensures r == Err(TargetNotPositive) <==> q.start < q.end && q.target <= 0
    ensures r == Err(TurnaroundNegative) <==> q.start < q.end && 0 < q.target && q.turnaround < 0
    ensures r == Err(RangeExcludesZero) <==>
              q.start < q.end && 0 < q.target && 0 <= q.turnaround && !(q.deltaMin <= 0 <= q.deltaMax)
    ensures r.Ok? ==> ReportsRuns(q, r.value) && exists m :: Answers(q, m, r.value)
  {
    if q.end <= q.start { return Err(EndNotAfterStart); }
    if q.target <= 0 { return Err(TargetNotPositive); }
    if q.turnaround < 0 { return Err(TurnaroundNegative); }
    if q.deltaMin > 0 || q.deltaMax < 0 { return Err(RangeExcludesZero); }
    var p := MakePlan(q);
    ghost var m :| Answers(q, m, p);
    AnswersReportRuns(q, m, p);
    r := Ok(p);
  }

  method MakePlan(q: Question) returns (p: Plan)
    requires DistinctIds(q.transitions)
    requires q.start < q.end && 0 <= q.turnaround && q.deltaMin <= 0 <= q.deltaMax
    ensures exists m :: Answers(q, m, p)
  {
    var m, usable := BuildModel(q);
    var threshold := CapacityThreshold(m, q.target, q.deltaMin, q.deltaMax);
    var scenarios := RunShown(q, m, threshold);
    assert Shown(q, threshold, 0);
    var at := FindBaseline(scenarios);
    var baseline := scenarios[at];
    assert Describes(WithDelta(m, 0), q.target, baseline);
    var observedP50, observedP95 := ObservedPercentiles(ObservedLags(q, usable));
    p := Plan(|usable|, |q.runs| - |usable|, observedP50, observedP95, CountAtMost(ObservedLags(q, usable), q.target),
              scenarios, baseline.p95, Difference(baseline.p95, observedP95), threshold);
    assert Answers(q, m, p);
  }

  method ObservedPercentiles(lags: seq<int>) returns (p50: Option<int>, p95: Option<int>)
    ensures IsPercentile(lags, 50, p50) && IsPercentile(lags, 95, p95)
  {
    var sorted;
    sorted, p95 := Percentile(lags, 95);
    SamePercentiles(lags, sorted);
    sorted, p50 := Percentile(sorted, 50);
  }

  /**
    In the report a scenario that passes is followed only by passing ones, and an exact threshold is where it turns.
  */
  lemma {:induction false} ReportTurnsOnce(q: Question, m: Model, p: Plan, i: nat, j: nat)
    requires Answers(q, m, p) && i <= j < |p.scenarios|
    ensures p.scenarios[i].meetsTarget ==> p.scenarios[j].meetsTarget
    ensures p.threshold.Exact? ==>
      (p.scenarios[i].meetsTarget <==> p.threshold.minimumDelta <= p.scenarios[i].hostDelta)
  {
    VerdictsStay(q, m, p.threshold, p.scenarios, i, j);
    ShownVerdict(q, m, p.threshold, p.scenarios, i);
  }

  lemma {:induction false} VerdictsStay(
    q: Question, m: Model, threshold: Threshold, scenarios: seq<ScenarioResult>, i: nat, j: nat)
    requires ShowsScenarios(q, m, threshold, scenarios) && i <= j < |scenarios|
    ensures scenarios[i].meetsTarget ==> scenarios[j].meetsTarget
  {
    var d, d' := scenarios[i].hostDelta, scenarios[j].hostDelta;
    ShownVerdict(q, m, threshold, scenarios, i);
    ShownVerdict(q, m, threshold, scenarios, j);
    if scenarios[i].meetsTarget { PassesMonotone(m, q.target, d, d'); }
  }

  lemma {:induction false} ShownVerdict(
    q: Question, m: Model, threshold: Threshold, scenarios: seq<ScenarioResult>, i: nat)
    requires ShowsScenarios(q, m, threshold, scenarios) && i < |scenarios|
    ensures q.deltaMin <= scenarios[i].hostDelta <= q.deltaMax
    ensures scenarios[i].meetsTarget <==> Passes(m, q.target, scenarios[i].hostDelta)
  {
    assert Shown(q, threshold, scenarios[i].hostDelta);
  }

  // ----- The question determines the report -----

  lemma {:induction false} ThresholdEnds(m: Model, target: int, min: int, max: int, t: Threshold)
    requires min <= max && IsThreshold(m, target, min, max, t)
    ensures t.AtOrBelowSearchLimit? <==> Passes(m, target, min)
    ensures t.NoPassingDelta? <==> !Passes(m, target, max)
  {
    if !t.AtOrBelowSearchLimit? && Passes(m, target, min) { PassesFrom(m, target, min); }
    if !t.NoPassingDelta? && !Passes(m, target, max) { FailsUpTo(m, target, max); }
  }

  lemma {:induction false} ThresholdUnique(m: Model, target: int, min: int, max: int, t: Threshold, t': Threshold)
    requires min <= max && IsThreshold(m, target, min, max, t) && IsThreshold(m, target, min, max, t')
    ensures t == t'
  {
    ThresholdEnds(m, target, min, max, t);
    ThresholdEnds(m, target, min, max, t');
    if t.Exact? && t'.Exact? {
      assert Passes(m, target, t.minimumDelta) && Passes(m, target, t'.minimumDelta);
    }
  }

  function Deltas(scenarios: seq<ScenarioResult>): (r: seq<int>)
    ensures |r| == |scenarios|
  {
    seq(|scenarios|, i requires 0 <= i < |scenarios| => scenarios[i].hostDelta)
  }

  lemma {:induction false} DeltasShown(
    q: Question, m: Model, threshold: Threshold, scenarios: seq<ScenarioResult>)
    requires ShowsScenarios(q, m, threshold, scenarios)
    ensures SortedBy(Deltas(scenarios), IntLeq) && Distinct(Deltas(scenarios))
    ensures forall delta :: delta in Deltas(scenarios) <==> Shown(q, threshold, delta)
  {
    forall delta ensures delta in Deltas(scenarios) <==> Shown(q, threshold, delta) {
      if Shown(q, threshold, delta) {
        var i :| 0 <= i < |scenarios| && scenarios[i].hostDelta == delta;
        assert Deltas(scenarios)[i] == delta;
      }
    }
  }

  lemma {:induction false} SameDeltaSameResult(m: Model, target: int, r: ScenarioResult, r': ScenarioResult)
    requires DescribesDelta(m, target, r) && DescribesDelta(m, target, r') && r.hostDelta == r'.hostDelta
    ensures r == r'
  {
    ResultUnique(WithDelta(m, r.hostDelta), target, r, r');
  }

  lemma {:induction false} ScenariosUnique(
    q: Question, m: Model, threshold: Threshold, s: seq<ScenarioResult>, s': seq<ScenarioResult>)
    requires ShowsScenarios(q, m, threshold, s) && ShowsScenarios(q, m, threshold, s')
    ensures s == s'
  {
    DeltasShown(q, m, threshold, s);
    DeltasShown(q, m, threshold, s');
    SortedUnique(Deltas(s), Deltas(s'), IntLeq);
    forall i | 0 <= i < |s| ensures s[i] == s'[i] {
      assert Deltas(s)[i] == Deltas(s')[i];
      SameDeltaSameResult(m, q.target, s[i], s'[i]);
    }
  }

  lemma {:induction false} ThresholdForModel(m: Model, m': Model, target: int, min: int, max: int, t: Threshold)
    requires IsThreshold(m, target, min, max, t) && forall delta :: WithDelta(m, delta) == WithDelta(m', delta)
    ensures IsThreshold(m', target, min, max, t)
  {
    forall d ensures Passes(m, target, d) <==> Passes(m', target, d) {
      assert WithDelta(m, d) == WithDelta(m', d);
    }
  }

  lemma {:induction false} ScenariosForModel(
    q: Question, m: Model, m': Model, threshold: Threshold, scenarios: seq<ScenarioResult>)
    requires ShowsScenarios(q, m, threshold, scenarios) && forall delta :: WithDelta(m, delta) == WithDelta(m', delta)
    ensures ShowsScenarios(q, m', threshold, scenarios)
  {
  }

  lemma {:induction false} AnswersForModel(q: Question, m: Model, m': Model, p: Plan)
    requires Answers(q, m, p) && IsModel(q, m')
    ensures Answers(q, m', p)
  {
    forall delta ensures WithDelta(m, delta) == WithDelta(m', delta) { ModelsAgree(q, m, m', delta); }
    ThresholdForModel(m, m', q.target, q.deltaMin, q.deltaMax, p.threshold);
    ScenariosForModel(q, m, m', p.threshold, p.scenarios);
  }

  /** Two reports that answer the same question are the same report. */
  lemma {:induction false} ReportUnique(q: Question, m: Model, p: Plan, m': Model, p': Plan)
    requires Answers(q, m, p) && Answers(q, m', p') && q.deltaMin <= q.deltaMax
    ensures p == p'
  {
    AnswersForModel(q, m', m, p');
    ThresholdUnique(m, q.target, q.deltaMin, q.deltaMax, p.threshold, p'.threshold);
    ScenariosUnique(q, m, p.threshold, p.scenarios, p'.scenarios);
    ObservedUnique(q, m, p, p');
  }

  lemma {:induction false} ObservedUnique(q: Question, m: Model, p: Plan, p': Plan)
    requires Answers(q, m, p) && Answers(q, m, p')
    ensures p.observedP50 == p'.observedP50 && p.observedP95 == p'.observedP95 && p.modeledP95 == p'.modeledP95
  {
    var lags := ObservedLags(q, UsableRuns(q, q.runs));
    PercentileUnique(lags, 50, p.observedP50, p'.observedP50);
    PercentileUnique(lags, 95, p.observedP95, p'.observedP95);
    PercentileUnique(Lags(WithDelta(m, 0), Schedule(WithDelta(m, 0))), 95, p.modeledP95, p'.modeledP95);
  }

  // ----- Windowed transitions -----

  /** The question as the storage asks it: with the transitions its windowed query returns. */
  ghost function Windowed(q: Question): Question {
    q.(transitions := WindowTransitions(q.transitions, q.start, q.end))
  }

  /** The same question about other transitions. */
  ghost predicate Revised(q: Question, q': Question) { q' == q.(transitions := q'.transitions) }

  lemma {:induction false} SameRangeUsable(q: Question, q': Question, runs: seq<Run>)
    requires q.start == q'.start && q.end == q'.end
    ensures UsableRuns(q', runs) == UsableRuns(q, runs)
  {
    if runs == [] {
    } else {
      SameRangeUsable(q, q', runs[..|runs| - 1]);
    }
  }

  ghost predicate SameCapacity(q: Question, q': Question) {
    forall x, delta :: CapacityAsked(q', x, delta) == CapacityAsked(q, x, delta)
  }

  lemma {:induction false} CapacityDecidesModel(q: Question, q': Question, m: Model)
    requires Revised(q, q') && IsModel(q, m)
    ensures IsModel(q', m) <==> SameCapacity(q, q')
  {
    SameRangeUsable(q, q', q.runs);
    var usable := UsableRuns(q, q.runs);
    assert Arrivals(q', usable) == Arrivals(q, usable);
    if SameCapacity(q, q') {
      forall x, delta ensures WithDelta(m, delta).Capacity(x) == CapacityAsked(q', x, delta) {
        assert CapacityAsked(q', x, delta) == CapacityAsked(q, x, delta);
      }
      assert IsModel(q', m);
    }
    if IsModel(q', m) {
      forall x, delta ensures CapacityAsked(q', x, delta) == CapacityAsked(q, x, delta) {
        assert WithDelta(m, delta).Capacity(x) == CapacityAsked(q, x, delta);
      }
    }
  }

  /** The two headcounts agree before the end, and at the end the second is the first's last one before it. */
  ghost predicate AgreeBeforeEnd(q: Question, q': Question) {
    && (forall x :: q.start <= x < q.end ==> Headcount(q'.transitions, x) == Headcount(q.transitions, x))
    && Headcount(q'.transitions, q.end) == Headcount(q.transitions, q.end - 1)
  }

  lemma {:induction false} WindowedAgrees(q: Question)
    requires DistinctIds(q.transitions) && q.start < q.end
    ensures Revised(q, Windowed(q)) && AgreeBeforeEnd(q, Windowed(q))
  {
    WindowHeadcounts(q.transitions, q.start, q.end);
  }

  lemma {:induction false} EndDecidesCapacity(q: Question, q': Question)
    requires Revised(q, q') && AgreeBeforeEnd(q, q') && q.start < q.end
    ensures SameCapacity(q, q') <==> Headcount(q.transitions, q.end) == Headcount(q.transitions, q.end - 1)
  {
    assert CapacityAsked(q, q.end, 0) == Headcount(q.transitions, q.end);
    assert CapacityAsked(q', q.end, 0) == Headcount(q'.transitions, q.end);
    if Headcount(q.transitions, q.end) == Headcount(q.transitions, q.end - 1) {
      forall x, delta ensures CapacityAsked(q', x, delta) == CapacityAsked(q, x, delta) {
        var y := Min(x, q.end);
        assert q.start <= y ==> Headcount(q'.transitions, y) == Headcount(q.transitions, y);
      }
    }
  }

  /**
    The window excludes its end, but the replay keeps the headcount of the end in force afterwards. So the windowed
    question has the same model exactly when no headcount change takes effect at that very instant.
  */
  lemma {:induction false} WindowedModel(q: Question, m: Model)
    requires DistinctIds(q.transitions) && q.start < q.end && IsModel(q, m)
    ensures IsModel(Windowed(q), m) <==> Headcount(q.transitions, q.end) == Headcount(q.transitions, q.end - 1)
  {
    WindowedAgrees(q);
    EndDecidesCapacity(q, Windowed(q));
    CapacityDecidesModel(q, Windowed(q), m);
  }

  lemma {:induction false} AnswersRevised(q: Question, q': Question, m: Model, p: Plan)
    requires Revised(q, q') && IsModel(q, m) && Answers(q', m, p)
    ensures Answers(q, m, p)
  {
    SameRangeUsable(q, q', q.runs);
    var usable := UsableRuns(q, q.runs);
    assert ObservedLags(q', usable) == ObservedLags(q, usable);
    RevisedScenarios(q, q', m, p.threshold, p.scenarios);
  }

  lemma {:induction false} RevisedScenarios(
    q: Question, q': Question, m: Model, threshold: Threshold, scenarios: seq<ScenarioResult>)
    requires Revised(q, q') && ShowsScenarios(q', m, threshold, scenarios)
    ensures ShowsScenarios(q, m, threshold, scenarios)
  {
    forall delta ensures Shown(q', threshold, delta) <==> Shown(q, threshold, delta) {}
  }

  /** Then the report made from the windowed transitions is the report made from the full history. */
  lemma {:induction false} WindowedReport(q: Question, m: Model, p: Plan, m': Model, p': Plan)
    requires DistinctIds(q.transitions) && q.start < q.end && q.deltaMin <= q.deltaMax
    requires Headcount(q.transitions, q.end) == Headcount(q.transitions, q.end - 1)
    requires Answers(q, m, p) && Answers(Windowed(q), m', p')
    ensures p == p'
  {
    WindowedModel(q, m);
    AnswersForModel(Windowed(q), m', m, p');
    AnswersRevised(q, Windowed(q), m, p');
    ReportUnique(q, m, p, m, p');
  }

  /** A worker that becomes available exactly at the end is in the full headcount there and not in the windowed one. */
  lemma {:induction false} WindowMissesItsEnd(w: Worker, start: int, end: int)
    requires start < end
    ensures var ts := [Transition(1, w, true, end, end)];
      Headcount(ts, end) == 1 && Headcount(WindowTransitions(ts, start, end), end) == 0
  {
    var ts := [Transition(1, w, true, end, end)];
    assert Governs(ts, w, end, ts[0]);
    assert (set v | v in Workers(ts) && AvailableAt(ts, v, end)) == {w};
    WindowAtEnd(ts, start, end);
    assert (set v | v in Workers(ts) && AvailableAt(ts, v, end - 1)) == {};
  }

  /** If no transition takes effect exactly at the end, the windowed report is that of the full history. */
  lemma {:induction false} WindowedUnlessAtEnd(q: Question, m: Model, p: Plan, m': Model, p': Plan)
    requires DistinctIds(q.transitions) && q.start < q.end && q.deltaMin <= q.deltaMax
    requires forall e :: e in q.transitions ==> e.effectiveAt != q.end
    requires Answers(q, m, p) && Answers(Windowed(q), m', p')
    ensures IsModel(Windowed(q), m) && p == p'
  {
    NothingTakesEffect(q.transitions, q.end);
    WindowedModel(q, m);
    WindowedReport(q, m, p, m', p');
  }

  /** One job that waits at the end of the range for a host that becomes available there. */
  function WaitingAtEnd(w: Worker, transitions: seq<Transition>): Question {
    Question(0, 10, 5, 0, 0, 0, [Run(Some(9), Some(10), Some(11))], transitions)
  }

  /** The full history lets it start within the target; the windowed transitions never do. */
  lemma {:induction false} WindowChangesVerdict(w: Worker, m: Model, m': Model)
    requires
      var q := WaitingAtEnd(w, [Transition(1, w, true, 10, 10)]);
      IsModel(q, m) && IsModel(Windowed(q), m')
    ensures Passes(m, 5, 0) && !Passes(m', 5, 0)
  {
    var ts := [Transition(1, w, true, 10, 10)];
    var q := WaitingAtEnd(w, ts);
    WindowMissesItsEnd(w, 0, 10);
    NoneBeforeEffect(ts, 10);
    WindowHeadcounts(ts, 0, 10);
    OnlyArrival(q, m);
    OnlyArrival(Windowed(q), m');
    forall x ensures WithDelta(m, 0).Capacity(x) == (if x < 10 then 0 else 1) {
      assert WithDelta(m, 0).Capacity(x) == CapacityAsked(q, x, 0);
    }
    forall x ensures WithDelta(m', 0).Capacity(x) == 0 {
      assert WithDelta(m', 0).Capacity(x) == CapacityAsked(Windowed(q), x, 0);
    }
    SingleJobStarts(WithDelta(m, 0), 10);
    SingleLagPasses(WithDelta(m, 0), 5, 10);
    SingleJobWaits(WithDelta(m', 0));
  }

  lemma {:induction false} OnlyArrival(q: Question, m: Model)
    requires q.start <= 9 < q.end && q.runs == [Run(Some(9), Some(10), Some(11))] && IsModel(q, m)
    ensures m.arrivals == [Arrival(9, 1)]
  {
    assert q.runs[..0] == [] && UsableRuns(q, q.runs) == q.runs;
    assert Arrivals(q, q.runs) == [Arrival(9, 1)];
    assert multiset(m.arrivals) == multiset{Arrival(9, 1)};
    assert |m.arrivals| == |multiset(m.arrivals)|;
    assert m.arrivals[0] in multiset(m.arrivals);
  }

  lemma {:induction false} NoneBeforeEffect(ts: seq<Transition>, at: int)
    requires forall e :: e in ts ==> at <= e.effectiveAt
    ensures forall x :: x < at ==> Headcount(ts, x) == 0
  {
    forall x | x < at ensures Headcount(ts, x) == 0 {
      assert (set w | w in Workers(ts) && AvailableAt(ts, w, x)) == {};
    }
  }
}
