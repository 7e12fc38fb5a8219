/**
  What the capacity replay means, without its event loop: jobs start in arrival order, each at the
  earliest instant at which fewer earlier jobs hold a host than there are hosts.
  A capacity drop stops no running job; it only delays later starts.
*/
module Fifo {
  import opened OrderStatistics
  import opened Wrappers

  datatype Arrival = Arrival(scheduled: int, duration: int)

  datatype CapacityChange = CapacityChange(at: int, capacity: int)

  datatype Model = Model(
    arrivals: seq<Arrival>, changes: seq<CapacityChange>, hostDelta: int, turnaround: int)
  {
    /** What the caller of the replay establishes: it sorts, and drops runs that end before they start. */
    ghost predicate Valid() {
      && (forall i, j :: 0 <= i < j < |arrivals| ==> arrivals[i].scheduled <= arrivals[j].scheduled)
      && (forall i :: 0 <= i < |arrivals| ==> 0 <= arrivals[i].duration)
      && (forall i, j :: 0 <= i < j < |changes| ==> changes[i].at < changes[j].at)
      && 0 <= turnaround
    }

    ghost function Capacity(t: int): int { EffectiveCapacity(changes, hostDelta, t) }

    /** How long job `i` holds its host. */
    function Service(i: nat): int
      requires i < |arrivals|
    {
      arrivals[i].duration + turnaround
    }
  }

  /** The last change at or before `t`, shifted by the host delta and floored at zero. */
  ghost function EffectiveCapacity(changes: seq<CapacityChange>, delta: int, t: int): int {
    if changes == [] then 0
    else
      var last := changes[|changes| - 1];
      if last.at <= t then Max(0, last.capacity + delta) else EffectiveCapacity(changes[..|changes| - 1], delta, t)
  }

  /** The instants at which the jobs that started free their hosts. */
  ghost function Ends(m: Model, starts: seq<int>): (r: seq<int>)
    requires |starts| <= |m.arrivals|
    ensures |r| == |starts|
  {
    seq(|starts|, i requires 0 <= i < |starts| => starts[i] + m.Service(i))
  }

  /** Job number `|starts|` may start at `t`, given when the earlier jobs started. */
  ghost predicate Runnable(m: Model, starts: seq<int>, t: int)
    requires |starts| < |m.arrivals|
  {
    && m.arrivals[|starts|].scheduled <= t
    && (starts != [] ==> starts[|starts| - 1] <= t)
    && CountAbove(Ends(m, starts), t) < m.Capacity(t)
  }

  /** The hosts still held at `t`: a job holds one for its duration and the turnaround. */
  ghost function Holding(m: Model, starts: seq<int>, t: int): set<nat>
    requires |starts| <= |m.arrivals|
  {
    set i: nat | i < |starts| && t < starts[i] + m.arrivals[i].duration + m.turnaround
  }

  /** The start rule told by the jobs that hold a host. */
  lemma {:induction false} RunnableByHosts(m: Model, starts: seq<int>, t: int)
    requires |starts| < |m.arrivals|
    ensures Runnable(m, starts, t) <==>
      && m.arrivals[|starts|].scheduled <= t && (starts != [] ==> starts[|starts| - 1] <= t)
      && |Holding(m, starts, t)| < m.Capacity(t)
  {
    CountsAreSizes(Ends(m, starts), t);
    assert Holding(m, starts, t) == Above(Ends(m, starts), t);
  }

  /** The capacity in force is that of the last change at or before the instant, shifted and floored. */
  lemma {:induction false} CapacityInForce(changes: seq<CapacityChange>, delta: int, k: nat, t: int)
    requires k < |changes| && changes[k].at <= t
    requires forall i :: k < i < |changes| ==> t < changes[i].at
    ensures EffectiveCapacity(changes, delta, t)
      == if changes[k].capacity + delta < 0 then 0 else changes[k].capacity + delta
  {
    if k == |changes| - 1 {
    } else {
      CapacityInForce(changes[..|changes| - 1], delta, k, t);
    }
  }

  /** Before the first change there is no host. */
  lemma {:induction false} NoHostBefore(changes: seq<CapacityChange>, delta: int, t: int)
    requires forall i :: 0 <= i < |changes| ==> t < changes[i].at
    ensures EffectiveCapacity(changes, delta, t) == 0
  {
    if changes == [] {
    } else {
      NoHostBefore(changes[..|changes| - 1], delta, t);
    }
  }

  ghost predicate StartsAt(m: Model, starts: seq<int>, t: int)
    requires |starts| < |m.arrivals|
  {
    Runnable(m, starts, t) && forall u :: u < t ==> !Runnable(m, starts, u)
  }

  ghost predicate NeverStarts(m: Model, starts: seq<int>)
    requires |starts| < |m.arrivals|
  {
    forall t :: !Runnable(m, starts, t)
  }

  /** The first jobs that have started, each as early as it can. */
  ghost predicate IsScheduleSoFar(m: Model, starts: seq<int>) {
    && |starts| <= |m.arrivals|
    && forall i :: 0 <= i < |starts| ==> StartsAt(m, starts[..i], starts[i])
  }

  /** All the jobs that ever start: the next one, if there is one, can start at no time. */
  ghost predicate IsSchedule(m: Model, starts: seq<int>) {
    && IsScheduleSoFar(m, starts)
    && (|starts| < |m.arrivals| ==> NeverStarts(m, starts))
  }

  lemma {:induction false} ExtendSchedule(m: Model, starts: seq<int>, t: int)
    requires IsScheduleSoFar(m, starts) && |starts| < |m.arrivals| && StartsAt(m, starts, t)
    ensures IsScheduleSoFar(m, starts + [t])
  {
    var s := starts + [t];
    forall i | 0 <= i < |s| ensures StartsAt(m, s[..i], s[i]) {
      assert s[..i] == starts[..i];
      if i == |starts| { assert s[..i] == starts; }
    }
  }

  /** If a job can start at all, there is an earliest instant: it cannot start before it arrives. */
  lemma {:induction false} EarliestExists(m: Model, starts: seq<int>, t: int) returns (e: int)
    requires |starts| < |m.arrivals| && Runnable(m, starts, t)
    ensures StartsAt(m, starts, e)
  {
    e := m.arrivals[|starts|].scheduled;
    while !Runnable(m, starts, e)
      invariant e <= t
      invariant forall u :: u < e ==> !Runnable(m, starts, u)
      decreases t - e
    { e := e + 1; }
  }

  lemma {:induction false} ScheduleExists(m: Model, soFar: seq<int>) returns (starts: seq<int>)
    requires IsScheduleSoFar(m, soFar)
    ensures IsSchedule(m, starts)
    decreases |m.arrivals| - |soFar|
  {
    if |soFar| < |m.arrivals| && exists t :: Runnable(m, soFar, t) {
      var t :| Runnable(m, soFar, t);
      var e := EarliestExists(m, soFar, t);
      ExtendSchedule(m, soFar, e);
      starts := ScheduleExists(m, soFar + [e]);
    } else {
      starts := soFar;
    }
  }

  /** `better` has the same arrivals, never less capacity, and never longer service. */
  ghost predicate AtLeastAsGood(worse: Model, better: Model) {
    && |worse.arrivals| == |better.arrivals|
    && (forall i :: 0 <= i < |worse.arrivals| ==>
          && worse.arrivals[i].scheduled == better.arrivals[i].scheduled
          && better.Service(i) <= worse.Service(i))
    && (forall t :: worse.Capacity(t) <= better.Capacity(t))
  }

  ghost predicate NoLater(earlier: seq<int>, later: seq<int>) {
    && |later| <= |earlier|
    && forall i :: 0 <= i < |later| ==> earlier[i] <= later[i]
  }

  lemma {:induction false} RunnableDominance(worse: Model, better: Model, s: seq<int>, s': seq<int>, t: int)
    requires AtLeastAsGood(worse, better)
    requires |s| == |s'| < |worse.arrivals| && NoLater(s', s)
    requires Runnable(worse, s, t)
    ensures Runnable(better, s', t)
  {
    PointwiseCount(Ends(better, s'), Ends(worse, s), t);
  }

  /** More capacity or shorter service never starts a job later and never un-starts one. */
  lemma {:induction false} Dominance(worse: Model, better: Model, s: seq<int>, s': seq<int>)
    requires AtLeastAsGood(worse, better)
    requires IsSchedule(worse, s) && IsSchedule(better, s')
    ensures NoLater(s', s)
  {
    DominanceUpTo(worse, better, s, s', |s|);
    assert s[..|s|] == s;
  }

  lemma {:induction false} DominanceUpTo(worse: Model, better: Model, s: seq<int>, s': seq<int>, k: nat)
    requires AtLeastAsGood(worse, better)
    requires IsSchedule(worse, s) && IsSchedule(better, s') && k <= |s|
    ensures NoLater(s', s[..k])
  {
    if k == 0 {
    } else {
      DominanceUpTo(worse, better, s, s', k - 1);
      DominanceStep(worse, better, s[..k - 1], s', s[k - 1]);
      forall i | 0 <= i < k ensures s'[i] <= s[..k][i] {
        assert i < k - 1 ==> s'[i] <= s[..k - 1][i];
      }
    }
  }

  lemma {:induction false} DominanceStep(worse: Model, better: Model, before: seq<int>, s': seq<int>, t: int)
    requires AtLeastAsGood(worse, better) && IsSchedule(better, s')
    requires |before| < |worse.arrivals| && NoLater(s', before) && Runnable(worse, before, t)
    ensures |before| < |s'| && s'[|before|] <= t
  {
    var k := |before|;
    assert |s'| == k ==> s'[..k] == s';
    RunnableDominance(worse, better, before, s'[..k], t);
    assert |s'| > k ==> StartsAt(better, s'[..k], s'[k]);
  }

  lemma {:induction false} ScheduleUnique(m: Model, s: seq<int>, s': seq<int>)
    requires IsSchedule(m, s) && IsSchedule(m, s')
    ensures s == s'
  {
    Dominance(m, m, s, s');
    Dominance(m, m, s', s);
  }

  ghost function Schedule(m: Model): (starts: seq<int>)
    ensures IsSchedule(m, starts)
  {
    ScheduleIsInhabited(m);
    var starts :| IsSchedule(m, starts);
    starts
  }

  lemma {:induction false} ScheduleIsInhabited(m: Model)
    ensures exists starts :: IsSchedule(m, starts)
  {
    var starts := ScheduleExists(m, []);
  }

  lemma {:induction false} CapacityGrowsWithHosts(changes: seq<CapacityChange>, d: int, d': int, t: int)
    requires d <= d'
    ensures 0 <= EffectiveCapacity(changes, d, t) <= EffectiveCapacity(changes, d', t)
  {
    if changes == [] {
    } else {
      CapacityGrowsWithHosts(changes[..|changes| - 1], d, d', t);
    }
  }

  /** The lag of every job that starts. */
  ghost function Lags(m: Model, starts: seq<int>): (r: seq<int>)
    requires |starts| <= |m.arrivals|
    ensures |r| == |starts|
  {
    seq(|starts|, i requires 0 <= i < |starts| => starts[i] - m.arrivals[i].scheduled)
  }

  /**
    The verdict on a model: there are jobs, they all start, and the 95th percentile lag is in the target.
    The last conjunct is `p95 <= target` said by counting.
  */
  ghost predicate MeetsTarget(m: Model, target: int) {
    var lags := Lags(m, Schedule(m));
    && 0 < |m.arrivals| == |lags|
    && Rank(|lags|, 95) < CountAtMost(lags, target)
  }

  function WithDelta(m: Model, delta: int): Model { m.(hostDelta := delta) }

  /** More hosts, or a shorter turnaround, start every job no later, and never turn a pass into a fail. */
  lemma {:induction false} MoreHostsNeverHurt(m: Model, delta: int, turnaround: int, target: int)
    requires m.hostDelta <= delta && turnaround <= m.turnaround
    ensures var better := m.(hostDelta := delta, turnaround := turnaround);
      && NoLater(Schedule(better), Schedule(m))
      && (MeetsTarget(m, target) ==> MeetsTarget(better, target))
  {
    var better := m.(hostDelta := delta, turnaround := turnaround);
    forall t ensures m.Capacity(t) <= better.Capacity(t) {
      CapacityGrowsWithHosts(m.changes, m.hostDelta, delta, t);
    }
    var s, s' := Schedule(m), Schedule(better);
    Dominance(m, better, s, s');
    if MeetsTarget(m, target) {
      PointwiseCount(Lags(better, s'), Lags(m, s), target);
    }
  }

  /** Once every job starts, no percentile of the lags rises when hosts are added or the turnaround gets shorter. */
  lemma {:induction false} PercentileNeverRises(m: Model, delta: int, turnaround: int, percent: nat, v: int, v': int)
    requires m.hostDelta <= delta && turnaround <= m.turnaround && |Schedule(m)| == |m.arrivals|
    requires IsOrderStatistic(Lags(m, Schedule(m)), Rank(|m.arrivals|, percent), v)
    requires
      var better := m.(hostDelta := delta, turnaround := turnaround);
      IsOrderStatistic(Lags(better, Schedule(better)), Rank(|m.arrivals|, percent), v')
    ensures v' <= v
  {
    var better := m.(hostDelta := delta, turnaround := turnaround);
    MoreHostsNeverHurt(m, delta, turnaround, 0);
    PointwiseOrderStatistic(Lags(better, Schedule(better)), Lags(m, Schedule(m)), Rank(|m.arrivals|, percent), v', v);
  }

  // ----- The schedule and the verdict, told by jobs and shares -----

  /**
    Each job of the schedule starts at the first instant, not before its arrival nor its predecessor's start, at which
    fewer of the jobs before it hold a host than there are hosts.
  */
  lemma {:induction false} ScheduleByHosts(m: Model, i: nat)
    requires i < |Schedule(m)|
    ensures
      var starts := Schedule(m);
      && m.arrivals[i].scheduled <= starts[i] && (0 < i ==> starts[i - 1] <= starts[i])
      && |Holding(m, starts[..i], starts[i])| < m.Capacity(starts[i])
      && forall t :: m.arrivals[i].scheduled <= t < starts[i] && (0 < i ==> starts[i - 1] <= t) ==>
           m.Capacity(t) <= |Holding(m, starts[..i], t)|
  {
    var starts := Schedule(m);
    RunnableByHosts(m, starts[..i], starts[i]);
    forall t | m.arrivals[i].scheduled <= t < starts[i] && (0 < i ==> starts[i - 1] <= t)
      ensures m.Capacity(t) <= |Holding(m, starts[..i], t)|
    {
      RunnableByHosts(m, starts[..i], t);
    }
  }

  /** The jobs that start within the target. */
  ghost function InTime(m: Model, target: int): set<nat> {
    set i: nat | i < |Schedule(m)| && Schedule(m)[i] - m.arrivals[i].scheduled <= target
  }

  lemma {:induction false} InTimeCounted(m: Model, target: int)
    ensures CountAtMost(Lags(m, Schedule(m)), target) == |InTime(m, target)|
  {
    var lags := Lags(m, Schedule(m));
    CountsAreSizes(lags, target);
    assert AtMost(lags, target) == InTime(m, target);
  }

  /** The target is met when there are jobs, all start, and at least 95 in 100 start within the target. */
  lemma {:induction false} TargetIsShare(m: Model, target: int)
    ensures MeetsTarget(m, target) <==>
      0 < |m.arrivals| == |Schedule(m)| && |m.arrivals| * 95 <= 100 * |InTime(m, target)|
  {
    var lags := Lags(m, Schedule(m));
    InTimeCounted(m, target);
    if 0 < |lags| { RankIsShare(|lags|, 95, CountAtMost(lags, target)); }
  }

  // ----- A single job -----

  /** A single job starts at the first instant from its arrival on at which there is a host. */
  lemma {:induction false} SingleJobStarts(m: Model, at: int)
    requires |m.arrivals| == 1 && m.arrivals[0].scheduled <= at && 0 < m.Capacity(at)
    requires forall x :: m.arrivals[0].scheduled <= x < at ==> m.Capacity(x) <= 0
    ensures Schedule(m) == [at]
  {
    assert [at][..0] == [];
    assert Runnable(m, [], at);
    assert IsSchedule(m, [at]);
    ScheduleUnique(m, [at], Schedule(m));
  }

  /** Without a host a single job never starts. */
  lemma {:induction false} SingleJobWaits(m: Model)
    requires |m.arrivals| == 1 && forall x :: m.arrivals[0].scheduled <= x ==> m.Capacity(x) <= 0
    ensures Schedule(m) == []
  {
    assert IsSchedule(m, []);
    ScheduleUnique(m, [], Schedule(m));
  }
}
