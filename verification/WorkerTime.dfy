/** Two computations from the same transitions: intervals per worker, and a pool-wide step function. */
module WorkerTime {
  import opened Sorting
  import opened Wrappers
  import opened Pool
  import opened Intervals
  import opened Availability
  import opened Fifo

  /** A worker's availability is the same at two instants that no effective time separates. */
  lemma {:induction false} SameAvailability(ts: seq<Transition>, w: Worker, x: int, y: int)
    requires forall f :: f in ts && f.worker == w ==> (f.effectiveAt <= x <==> f.effectiveAt <= y)
    ensures AvailableAt(ts, w, x) <==> AvailableAt(ts, w, y)
  {
    forall e ensures Governs(ts, w, x, e) <==> Governs(ts, w, y, e) {}
  }

  lemma {:induction false} SameHeadcount(ts: seq<Transition>, x: int, y: int)
    requires forall f :: f in ts ==> (f.effectiveAt <= x <==> f.effectiveAt <= y)
    ensures Headcount(ts, x) == Headcount(ts, y)
  {
    forall w ensures AvailableAt(ts, w, x) <==> AvailableAt(ts, w, y) { SameAvailability(ts, w, x, y); }
    assert (set w | w in Workers(ts) && AvailableAt(ts, w, x)) == (set w | w in Workers(ts) && AvailableAt(ts, w, y));
  }

  method InObservationOrder(ts: seq<Transition>) returns (sorted: seq<Transition>)
    ensures SortedBy(sorted, KeyLeq) && forall e :: e in sorted <==> e in ts
  {
    sorted := Sort(ts, KeyLeq);
    SortMembers(ts, KeyLeq);
    SortSorted(ts, KeyLeq);
  }

  /** The clamped effective times and both ends of the range, in order. */
  method Boundaries(transitions: seq<Transition>, lo: int, hi: int) returns (ordered: seq<int>)
    requires lo <= hi
    ensures Increasing(ordered) && ordered != [] && ordered[0] == lo && ordered[|ordered| - 1] == hi
    ensures forall i :: 0 <= i < |ordered| ==> lo <= ordered[i] <= hi
    ensures forall e :: e in transitions ==> Max(lo, Min(hi, e.effectiveAt)) in ordered
  {
    var boundaries := {lo, hi} + set e | e in transitions :: Max(lo, Min(hi, e.effectiveAt));
    ordered := SortedInstants(boundaries);
    EndPoints(ordered, lo, hi);
  }

  /** The intervals of one worker, clamped to a range. */
  method WorkerIntervals(transitions: seq<Transition>, ghost ts: seq<Transition>, ghost w: Worker, lo: int, hi: int)
    returns (merged: seq<Interval>)
    requires OfWorker(transitions, ts, w) && DistinctIds(ts) && lo <= hi
    ensures Separated(merged)
    ensures forall x :: Covers(merged, x) <==> lo <= x < hi && AvailableAt(ts, w, x)
  {
    var events := InObservationOrder(transitions);
    var ordered := Boundaries(transitions, lo, hi);
    var intervals: seq<Interval> := [];
    for k := 0 to |ordered| - 1
      invariant forall x :: Covers(intervals, x) <==> lo <= x < ordered[k] && AvailableAt(ts, w, x)
    {
      var segmentStart, segmentEnd := ordered[k], ordered[k + 1];
      var available := ResolveAt(events, ts, w, segmentStart);
      UniformSegment(ts, w, ordered, k, segmentStart, segmentEnd, lo, hi);
      CoversAppend(intervals, Interval(segmentStart, segmentEnd));
      if available == Some(true) && segmentEnd > segmentStart {
        intervals := intervals + [Interval(segmentStart, segmentEnd)];
      }
    }
    merged := Merge(intervals);
  }

  lemma {:induction false} UniformSegment(
    ts: seq<Transition>, w: Worker, ordered: seq<int>, k: nat, segmentStart: int, segmentEnd: int, lo: int, hi: int)
    requires Increasing(ordered) && k + 1 < |ordered| && lo <= ordered[k] && ordered[k + 1] <= hi
    requires segmentStart == ordered[k] && segmentEnd == ordered[k + 1]
    requires forall f :: f in ts && f.worker == w ==> Max(lo, Min(hi, f.effectiveAt)) in ordered
    ensures forall x :: segmentStart <= x < segmentEnd ==> (AvailableAt(ts, w, x) <==> AvailableAt(ts, w, segmentStart))
  {
    forall x | segmentStart <= x < segmentEnd ensures AvailableAt(ts, w, x) <==> AvailableAt(ts, w, segmentStart) {
      forall f | f in ts && f.worker == w ensures f.effectiveAt <= x <==> f.effectiveAt <= segmentStart {
        NoBoundaryBetween(ordered, k, f.effectiveAt, lo, hi, x);
      }
      SameAvailability(ts, w, x, segmentStart);
    }
  }

  lemma {:induction false} EndPoints(ordered: seq<int>, lo: int, hi: int)
    requires Increasing(ordered) && lo in ordered && hi in ordered
    requires forall x :: x in ordered ==> lo <= x <= hi
    ensures ordered != [] && ordered[0] == lo && ordered[|ordered| - 1] == hi
  {
    assert ordered[0] in ordered && ordered[|ordered| - 1] in ordered;
  }

  lemma {:induction false} NoBoundaryBetween(ordered: seq<int>, k: nat, effectiveAt: int, lo: int, hi: int, x: int)
    requires Increasing(ordered) && k + 1 < |ordered| && lo <= ordered[k] <= x < ordered[k + 1] <= hi
    requires Max(lo, Min(hi, effectiveAt)) in ordered
    ensures effectiveAt <= x <==> effectiveAt <= ordered[k]
  {
    var i :| 0 <= i < |ordered| && ordered[i] == Max(lo, Min(hi, effectiveAt));
    assert i <= k || k + 1 <= i;
    assert i < k ==> ordered[i] < ordered[k];
    assert i > k + 1 ==> ordered[k + 1] < ordered[i];
  }

  datatype WorkerAvailability = WorkerAvailability(worker: Worker, intervals: seq<Interval>)

  /** One entry per worker of the transitions, with exactly the instants of the range at which it is available. */
  ghost predicate ResolvesAll(rs: seq<WorkerAvailability>, ts: seq<Transition>, lo: int, hi: int) {
    && (forall i, j :: 0 <= i < j < |rs| ==> rs[i].worker != rs[j].worker)
    && (forall w :: w in Workers(ts) <==> exists i :: 0 <= i < |rs| && rs[i].worker == w)
    && forall i :: 0 <= i < |rs| ==>
         && Separated(rs[i].intervals)
         && forall x :: Covers(rs[i].intervals, x) <==> lo <= x < hi && AvailableAt(ts, rs[i].worker, x)
  }

  /** `_availability_intervals_by_worker`; the dictionary keeps its keys in order of first appearance. */
  method AvailabilityIntervalsByWorker(ts: seq<Transition>, lo: int, hi: int) returns (rs: seq<WorkerAvailability>)
    requires DistinctIds(ts) && lo <= hi
    ensures ResolvesAll(rs, ts, lo, hi)
  {
    var order: seq<Worker>, byWorker: map<Worker, seq<Transition>> := [], map[];
    for k := 0 to |ts|
      invariant forall w :: w in byWorker <==> w in order
      invariant forall i, j :: 0 <= i < j < |order| ==> order[i] != order[j]
      invariant forall w :: w in byWorker ==> byWorker[w] != [] && OfWorker(byWorker[w], ts[..k], w)
      invariant forall e :: e in ts[..k] ==> e.worker in byWorker
    {
      var e := ts[k];
      assert ts[..k + 1] == ts[..k] + [e];
      if e.worker !in byWorker {
        order := order + [e.worker];
        byWorker := byWorker[e.worker := [e]];
      } else {
        byWorker := byWorker[e.worker := byWorker[e.worker] + [e]];
      }
    }
    assert ts[..|ts|] == ts;
    rs := [];
    for k := 0 to |order|
      invariant |rs| == k && forall i :: 0 <= i < k ==> rs[i].worker == order[i]
      invariant forall i :: 0 <= i < k ==> Separated(rs[i].intervals)
      invariant forall i :: 0 <= i < k ==>
        forall x :: Covers(rs[i].intervals, x) <==> lo <= x < hi && AvailableAt(ts, rs[i].worker, x)
    {
      var intervals := WorkerIntervals(byWorker[order[k]], ts, order[k], lo, hi);
      rs := rs + [WorkerAvailability(order[k], intervals)];
    }
    EntriesAreWorkers(ts, order, byWorker, rs);
  }

  lemma {:induction false} EntriesAreWorkers(
    ts: seq<Transition>, order: seq<Worker>, byWorker: map<Worker, seq<Transition>>, rs: seq<WorkerAvailability>)
    requires |rs| == |order| && forall i :: 0 <= i < |rs| ==> rs[i].worker == order[i]
    requires forall w :: w in byWorker <==> w in order
    requires forall w :: w in byWorker ==> byWorker[w] != [] && OfWorker(byWorker[w], ts, w)
    requires forall e :: e in ts ==> e.worker in byWorker
    ensures forall w :: w in Workers(ts) <==> exists i :: 0 <= i < |rs| && rs[i].worker == w
  {
    forall w ensures w in Workers(ts) <==> exists i :: 0 <= i < |rs| && rs[i].worker == w {
      if w in Workers(ts) {
        assert w in order;
        var i :| 0 <= i < |order| && order[i] == w;
        assert rs[i].worker == w;
      }
      if exists i :: 0 <= i < |rs| && rs[i].worker == w {
        var i :| 0 <= i < |rs| && rs[i].worker == w;
        assert order[i] in byWorker && byWorker[w][0] in byWorker[w];
      }
    }
  }

  // ----- The step function -----

  /** Replaying one more record, observed last. */
  lemma {:induction false} AppendRecord(s: seq<Transition>, r: Transition, w: Worker, x: int)
    requires DistinctIds(s + [r]) && forall f :: f in s ==> KeyLeq(f, r)
    ensures AvailableAt(s + [r], w, x) <==>
              if r.worker == w && r.effectiveAt <= x then r.available else AvailableAt(s, w, x)
  {
    var t := s + [r];
    if r.worker == w && r.effectiveAt <= x {
      assert Governs(t, w, x, r);
      forall e | Governs(t, w, x, e) ensures e == r { GovernsUnique(t, w, x, e, r); }
    } else {
      forall e ensures Governs(t, w, x, e) <==> Governs(s, w, x, e) {}
    }
  }

  lemma {:induction false} MembersDetermineAvailability(s: seq<Transition>, t: seq<Transition>, w: Worker, x: int)
    requires forall e :: e in s <==> e in t
    ensures AvailableAt(s, w, x) <==> AvailableAt(t, w, x)
  {
    forall e ensures Governs(s, w, x, e) <==> Governs(t, w, x, e) {}
  }

  /** The number of workers available at a boundary, by replaying the sorted records. */
  method CapacityAt(records: seq<Transition>, ghost ts: seq<Transition>, boundary: int) returns (capacity: nat)
    requires DistinctIds(ts) && SortedBy(records, KeyLeq) && forall e :: e in records <==> e in ts
    ensures capacity == Headcount(ts, boundary)
  {
    var states: map<Worker, bool> := map[];
    ghost var replayed: seq<Transition> := [];
    for k := 0 to |records|
      invariant replayed == records[..k]
      invariant forall w :: AvailableAt(replayed, w, boundary) <==> w in states && states[w]
    {
      var r := records[k];
      forall w ensures AvailableAt(replayed + [r], w, boundary) <==>
        if r.worker == w && r.effectiveAt <= boundary then r.available else AvailableAt(replayed, w, boundary)
      {
        AppendRecord(replayed, r, w, boundary);
      }
      if r.effectiveAt <= boundary { states := states[r.worker := r.available]; }
      replayed := replayed + [r];
    }
    assert replayed == records;
    forall w ensures w in states && states[w] <==> w in Workers(ts) && AvailableAt(ts, w, boundary) {
      MembersDetermineAvailability(records, ts, w, boundary);
      AvailableWorkerIsKnown(ts, w, boundary);
    }
    capacity := |set w | w in states && states[w]|;
    assert (set w | w in states && states[w]) == (set w | w in Workers(ts) && AvailableAt(ts, w, boundary));
  }

  /** A compressed step function: strictly later changes, each to a different capacity. */
  ghost predicate Compressed(changes: seq<CapacityChange>) {
    && (forall i, j :: 0 <= i < j < |changes| ==> changes[i].at < changes[j].at)
    && forall i :: 0 < i < |changes| ==> changes[i - 1].capacity != changes[i].capacity
  }

  /** The capacity a replay sees at `x` is the headcount at `x`, shifted and floored. */
  ghost predicate StepsMatch(changes: seq<CapacityChange>, ts: seq<Transition>, x: int) {
    forall delta :: EffectiveCapacity(changes, delta, x) == Max(0, Headcount(ts, x) + delta)
  }

  /** Both ends of the range and the effective times strictly inside it, in order. */
  method ChangeTimes(ts: seq<Transition>, start: int, end: int) returns (ordered: seq<int>)
    requires start < end
    ensures Increasing(ordered) && ordered != [] && ordered[0] == start && ordered[|ordered| - 1] == end
    ensures forall i :: 0 <= i < |ordered| ==> start <= ordered[i] <= end
    ensures forall f :: f in ts && start < f.effectiveAt < end ==> f.effectiveAt in ordered
  {
    var boundaries := {start, end} + set e | e in ts && start < e.effectiveAt < end :: e.effectiveAt;
    ordered := SortedInstants(boundaries);
    EndPoints(ordered, start, end);
  }

  method AppendIfChanged(changes: seq<CapacityChange>, at: int, capacity: int) returns (changes': seq<CapacityChange>)
    requires Compressed(changes) && (changes != [] ==> changes[|changes| - 1].at < at)
    ensures Compressed(changes') && changes' != [] && changes'[|changes'| - 1].capacity == capacity
    ensures changes'[|changes'| - 1].at <= at
    ensures changes' == changes || (changes == changes'[..|changes'| - 1] && changes'[|changes'| - 1].at == at)
    ensures changes'[0] == if changes == [] then CapacityChange(at, capacity) else changes[0]
  {
    changes' := changes;
    if changes == [] || changes[|changes| - 1].capacity != capacity {
      changes' := changes + [CapacityChange(at, capacity)];
    }
  }

  /** `_availability_by_time`. */
  method AvailabilityByTime(ts: seq<Transition>, start: int, end: int) returns (changes: seq<CapacityChange>)
    requires DistinctIds(ts) && start < end
    ensures Compressed(changes) && changes != [] && changes[0].at == start && changes[|changes| - 1].at <= end
    ensures forall x :: start <= x <= end ==> StepsMatch(changes, ts, x)
  {
    var records := InObservationOrder(ts);
    var ordered := ChangeTimes(ts, start, end);
    changes := [];
    ghost var latest := start;
    for k := 0 to |ordered|
      invariant Compressed(changes)
      invariant k == 0 <==> changes == []
      invariant k > 0 ==> changes[0].at == start && changes[|changes| - 1].at <= latest == ordered[k - 1]
      invariant k > 0 ==> changes[|changes| - 1].capacity == Headcount(ts, latest)
      invariant k > 0 ==> MatchUpTo(changes, ts, ordered, k, start, end)
    {
      var capacity := CapacityAt(records, ts, ordered[k]);
      ghost var before := changes;
      latest := ordered[k];
      changes := AppendIfChanged(changes, ordered[k], capacity);
      StepHolds(before, changes, ts, ordered, k, start, end);
    }
  }

  /** The steps are right up to the next boundary, or to the end if there is none. */
  ghost predicate MatchUpTo(
    changes: seq<CapacityChange>, ts: seq<Transition>, ordered: seq<int>, k: nat, start: int, end: int)
  {
    forall x :: start <= x && (if k < |ordered| then x < ordered[k] else x <= end) ==> StepsMatch(changes, ts, x)
  }

  lemma {:induction false} StepHolds(
    before: seq<CapacityChange>, changes: seq<CapacityChange>, ts: seq<Transition>, ordered: seq<int>, k: nat,
    start: int, end: int)
    requires Increasing(ordered) && k < |ordered| && ordered[0] == start && ordered[|ordered| - 1] == end
    requires forall i :: 0 <= i < |ordered| ==> start <= ordered[i] <= end
    requires forall f :: f in ts && start < f.effectiveAt < end ==> f.effectiveAt in ordered
    requires k > 0 ==> MatchUpTo(before, ts, ordered, k, start, end)
    requires changes != [] && changes[|changes| - 1].at <= ordered[k]
    requires changes[|changes| - 1].capacity == Headcount(ts, ordered[k])
    requires before == changes || (before == changes[..|changes| - 1] && changes[|changes| - 1].at == ordered[k])
    ensures MatchUpTo(changes, ts, ordered, k + 1, start, end)
  {
    forall x | start <= x && (if k + 1 < |ordered| then x < ordered[k + 1] else x <= end)
      ensures StepsMatch(changes, ts, x)
    {
      if ordered[k] <= x {
        forall f | f in ts ensures f.effectiveAt <= x <==> f.effectiveAt <= ordered[k] {
          NoChangeBetween(ordered, k, f.effectiveAt, start, end, x);
        }
        SameHeadcount(ts, x, ordered[k]);
      } else {
        assert StepsMatch(before, ts, x);
      }
    }
  }

  /** Before its first change a step function is zero, and after its last one it is constant. */
  lemma {:induction false} OutsideSteps(changes: seq<CapacityChange>, delta: int, x: int, end: int)
    requires forall i, j :: 0 <= i < j < |changes| ==> changes[i].at < changes[j].at
    requires changes != [] && changes[|changes| - 1].at <= end
    ensures x < changes[0].at ==> EffectiveCapacity(changes, delta, x) == 0
    ensures end <= x ==> EffectiveCapacity(changes, delta, x) == EffectiveCapacity(changes, delta, end)
  {
    if |changes| == 1 {
    } else {
      OutsideSteps(changes[..|changes| - 1], delta, x, end);
    }
  }

  ghost predicate SameSteps(changes: seq<CapacityChange>, changes': seq<CapacityChange>) {
    forall delta, x :: EffectiveCapacity(changes, delta, x) == EffectiveCapacity(changes', delta, x)
  }

  /** Just before its last change, if that is not its first, a compressed step function has another value. */
  lemma {:induction false} LastStepShows(changes: seq<CapacityChange>, delta: int, x: int)
    requires Compressed(changes) && |changes| > 1 && x == changes[|changes| - 1].at - 1
    requires 0 < changes[|changes| - 1].capacity + delta && 0 < changes[|changes| - 2].capacity + delta
    ensures EffectiveCapacity(changes, delta, x) != EffectiveCapacity(changes, delta, x + 1)
  {
    var init := changes[..|changes| - 1];
    assert init[|init| - 1].at <= x;
  }

  lemma {:induction false} LastNotLater(changes: seq<CapacityChange>, changes': seq<CapacityChange>)
    requires Compressed(changes) && Compressed(changes') && changes != [] && changes' != []
    requires changes[0].at == changes'[0].at && SameSteps(changes, changes')
    ensures changes[|changes| - 1].at <= changes'[|changes'| - 1].at
  {
    var last, last' := changes[|changes| - 1], changes'[|changes'| - 1];
    if last'.at < last.at {
      var before := last.at - 1;
      var delta := 1 + Max(0, -last.capacity) + Max(0, -changes[|changes| - 2].capacity);
      assert EffectiveCapacity(changes', delta, before) == EffectiveCapacity(changes', delta, before + 1);
      assert before + 1 == last.at;
      LastStepShows(changes, delta, before);
    }
  }

  lemma {:induction false} SameLastStep(changes: seq<CapacityChange>, changes': seq<CapacityChange>)
    requires Compressed(changes) && Compressed(changes') && changes != [] && changes' != []
    requires changes[0].at == changes'[0].at && SameSteps(changes, changes')
    ensures changes[|changes| - 1] == changes'[|changes'| - 1]
  {
    LastNotLater(changes, changes');
    LastNotLater(changes', changes);
    var last, last' := changes[|changes| - 1], changes'[|changes'| - 1];
    var delta := 1 + Max(0, -last.capacity) + Max(0, -last'.capacity);
    assert EffectiveCapacity(changes, delta, last.at) == EffectiveCapacity(changes', delta, last.at);
  }

  lemma {:induction false} SameStepsBefore(changes: seq<CapacityChange>, changes': seq<CapacityChange>)
    requires |changes| > 1 && |changes'| > 1 && Compressed(changes) && Compressed(changes')
    requires changes[|changes| - 1] == changes'[|changes'| - 1] && SameSteps(changes, changes')
    ensures SameSteps(changes[..|changes| - 1], changes'[..|changes'| - 1])
  {
    var init, init', at := changes[..|changes| - 1], changes'[..|changes'| - 1], changes[|changes| - 1].at;
    var before := at - 1;
    forall delta, x ensures EffectiveCapacity(init, delta, x) == EffectiveCapacity(init', delta, x) {
      OutsideSteps(init, delta, x, before);
      OutsideSteps(init', delta, x, before);
      var y := if x < at then x else before;
      assert EffectiveCapacity(changes, delta, y) == EffectiveCapacity(changes', delta, y);
    }
  }

  lemma {:induction false} SameSingle(changes: seq<CapacityChange>, changes': seq<CapacityChange>)
    requires Compressed(changes) && Compressed(changes') && changes != [] && changes' != []
    requires changes[0].at == changes'[0].at && changes[|changes| - 1] == changes'[|changes'| - 1]
    ensures |changes| == 1 <==> |changes'| == 1
    ensures |changes| == 1 ==> changes == changes'
  {
  }

  lemma {:induction false} InitAndLast<T>(s: seq<T>, t: seq<T>)
    requires s != [] && t != [] && s[..|s| - 1] == t[..|t| - 1] && s[|s| - 1] == t[|t| - 1]
    ensures s == t
  {
    assert s == s[..|s| - 1] + [s[|s| - 1]] && t == t[..|t| - 1] + [t[|t| - 1]];
  }

  /** A step function that starts at a given instant has only one compressed form. */
  lemma {:induction false} CompressedUnique(changes: seq<CapacityChange>, changes': seq<CapacityChange>)
    requires Compressed(changes) && Compressed(changes') && changes != [] && changes' != []
    requires changes[0].at == changes'[0].at && SameSteps(changes, changes')
    ensures changes == changes'
  {
    SameLastStep(changes, changes');
    SameSingle(changes, changes');
    if |changes| == 1 {
    } else {
      SameStepsBefore(changes, changes');
      CompressedUnique(changes[..|changes| - 1], changes'[..|changes'| - 1]);
      InitAndLast(changes, changes');
    }
  }

  lemma {:induction false} NoChangeBetween(ordered: seq<int>, k: nat, effectiveAt: int, start: int, end: int, x: int)
    requires Increasing(ordered) && k < |ordered| && ordered[|ordered| - 1] == end
    requires start <= ordered[k] <= x && (if k + 1 < |ordered| then x < ordered[k + 1] else x <= end)
    requires forall i :: 0 <= i < |ordered| ==> start <= ordered[i] <= end
    requires start < effectiveAt < end ==> effectiveAt in ordered
    ensures effectiveAt <= x <==> effectiveAt <= ordered[k]
  {
    forall i | 0 <= i < |ordered| ensures ordered[i] <= ordered[k] || x < ordered[i] {
      assert i < k ==> ordered[i] < ordered[k];
      assert i > k + 1 ==> ordered[k + 1] < ordered[i];
    }
  }
}
