/** Which workers are available when, told from observations that may arrive late. */
module Availability {
  import opened Sorting
  import opened Wrappers
  import opened Pool

  datatype Transition = Transition(id: int, worker: Worker, available: bool, effectiveAt: int, observedAt: int)

  /** Observation order. */
  predicate KeyLeq(a: Transition, b: Transition) {
    a.observedAt < b.observedAt || (a.observedAt == b.observedAt && a.id <= b.id)
  }

  ghost predicate DistinctIds(ts: seq<Transition>) {
    forall a, b :: a in ts && b in ts && a.id == b.id ==> a == b
  }

  /** Among the worker's transitions effective by `x`, `e` was observed last. */
  predicate Governs(ts: seq<Transition>, w: Worker, x: int, e: Transition) {
    && e in ts && e.worker == w && e.effectiveAt <= x
    && forall f :: f in ts && f.worker == w && f.effectiveAt <= x ==>
         f.observedAt < e.observedAt || (f.observedAt == e.observedAt && f.id <= e.id)
  }

  ghost predicate AvailableAt(ts: seq<Transition>, w: Worker, x: int) {
    exists e :: Governs(ts, w, x, e) && e.available
  }

  ghost function Workers(ts: seq<Transition>): set<Worker> { set e | e in ts :: e.worker }

  /** How many workers are available at an instant. */
  ghost function Headcount(ts: seq<Transition>, x: int): nat {
    |set w | w in Workers(ts) && AvailableAt(ts, w, x)|
  }

  lemma {:induction false} GovernsUnique(ts: seq<Transition>, w: Worker, x: int, e: Transition, f: Transition)
    requires DistinctIds(ts) && Governs(ts, w, x, e) && Governs(ts, w, x, f)
    ensures e == f
  {
  }

  // ----- The SQL reduction -----

  /** What the windowed query keeps: each worker's baseline at the window start, and the transitions inside. */
  predicate Kept(ts: seq<Transition>, lo: int, hi: int, e: Transition) {
    && e in ts
    && ((lo < e.effectiveAt < hi) || Governs(ts, e.worker, lo, e))
  }

  function Keep(ts: seq<Transition>, all: seq<Transition>, lo: int, hi: int): (r: seq<Transition>)
    ensures forall e :: e in r <==> e in ts && Kept(all, lo, hi, e)
  {
    if ts == [] then []
    else
      var last := ts[|ts| - 1];
      Keep(ts[..|ts| - 1], all, lo, hi) + if Kept(all, lo, hi, last) then [last] else []
  }

  /** `_availability_transitions_for_window`, in its result order. */
  function WindowTransitions(ts: seq<Transition>, lo: int, hi: int): (r: seq<Transition>)
    ensures forall e :: e in r <==> Kept(ts, lo, hi, e)
  {
    SortMembers(Keep(ts, ts, lo, hi), KeyLeq);
    Sort(Keep(ts, ts, lo, hi), KeyLeq)
  }

  /** The window keeps no more than one transition per worker from before its start. */
  lemma {:induction false} OneBaseline(ts: seq<Transition>, lo: int, hi: int, e: Transition, f: Transition)
    requires DistinctIds(ts) && e in WindowTransitions(ts, lo, hi) && f in WindowTransitions(ts, lo, hi)
    requires e.worker == f.worker && e.effectiveAt <= lo && f.effectiveAt <= lo
    ensures e == f
  {
    assert Kept(ts, lo, hi, e) && Kept(ts, lo, hi, f);
    GovernsUnique(ts, e.worker, lo, e, f);
  }

  /**
    The window keeps enough: at every instant of it, and of every window with a later start and the same end,
    each worker is as available as in the full history.
  */
  lemma {:induction false} ReductionPreservesAvailability(ts: seq<Transition>, lo: int, hi: int, w: Worker, x: int)
    requires DistinctIds(ts) && lo <= x < hi
    ensures AvailableAt(WindowTransitions(ts, lo, hi), w, x) <==> AvailableAt(ts, w, x)
  {
    var kept := WindowTransitions(ts, lo, hi);
    forall e | Governs(ts, w, x, e) ensures Governs(kept, w, x, e) {
      assert Kept(ts, lo, hi, e);
    }
    forall e | Governs(kept, w, x, e) ensures Governs(ts, w, x, e) {
      var g := Latest(ts, w, x, e);
      assert Kept(ts, lo, hi, g);
    }
  }

  /** If any transition of the worker is effective by `x`, one of them governs. */
  lemma {:induction false} Latest(ts: seq<Transition>, w: Worker, x: int, e: Transition) returns (g: Transition)
    requires e in ts && e.worker == w && e.effectiveAt <= x
    ensures Governs(ts, w, x, g)
  {
    g := e;
    var k := 0;
    while k < |ts|
      invariant 0 <= k <= |ts|
      invariant g in ts && g.worker == w && g.effectiveAt <= x && KeyLeq(e, g)
      invariant forall j :: 0 <= j < k && ts[j].worker == w && ts[j].effectiveAt <= x ==> KeyLeq(ts[j], g)
    {
      if ts[k].worker == w && ts[k].effectiveAt <= x && !KeyLeq(ts[k], g) { g := ts[k]; }
      k := k + 1;
    }
  }

  lemma {:induction false} ReductionPreservesHeadcount(ts: seq<Transition>, lo: int, hi: int, x: int)
    requires DistinctIds(ts) && lo <= x < hi
    ensures Headcount(WindowTransitions(ts, lo, hi), x) == Headcount(ts, x)
  {
    var kept := WindowTransitions(ts, lo, hi);
    forall w ensures w in Workers(kept) && AvailableAt(kept, w, x) <==> w in Workers(ts) && AvailableAt(ts, w, x) {
      ReductionPreservesAvailability(ts, lo, hi, w, x);
      AvailableWorkerIsKnown(kept, w, x);
      AvailableWorkerIsKnown(ts, w, x);
    }
    assert (set w | w in Workers(kept) && AvailableAt(kept, w, x))
        == (set w | w in Workers(ts) && AvailableAt(ts, w, x));
  }

  /** At its end the window, which excludes it, still says what held just before. */
  lemma {:induction false} WindowAtEnd(ts: seq<Transition>, lo: int, hi: int)
    requires DistinctIds(ts) && lo < hi
    ensures Headcount(WindowTransitions(ts, lo, hi), hi) == Headcount(ts, hi - 1)
  {
    var kept, last := WindowTransitions(ts, lo, hi), hi - 1;
    forall e | e in kept ensures e.effectiveAt <= last { assert Kept(ts, lo, hi, e); }
    forall w ensures AvailableAt(kept, w, hi) <==> AvailableAt(kept, w, last) {
      forall e ensures Governs(kept, w, hi, e) <==> Governs(kept, w, last, e) {}
    }
    assert (set w | w in Workers(kept) && AvailableAt(kept, w, hi))
        == (set w | w in Workers(kept) && AvailableAt(kept, w, last));
    ReductionPreservesHeadcount(ts, lo, hi, last);
  }

  /** The window's headcounts: the full ones before the end, and at the end the last one before it. */
  lemma {:induction false} WindowHeadcounts(ts: seq<Transition>, lo: int, hi: int)
    requires DistinctIds(ts) && lo < hi
    ensures forall x :: lo <= x < hi ==> Headcount(WindowTransitions(ts, lo, hi), x) == Headcount(ts, x)
    ensures Headcount(WindowTransitions(ts, lo, hi), hi) == Headcount(ts, hi - 1)
  {
    forall x | lo <= x < hi ensures Headcount(WindowTransitions(ts, lo, hi), x) == Headcount(ts, x) {
      ReductionPreservesHeadcount(ts, lo, hi, x);
    }
    WindowAtEnd(ts, lo, hi);
  }

  /** The headcount can only change where a transition takes effect. */
  lemma {:induction false} NothingTakesEffect(ts: seq<Transition>, x: int)
    requires forall e :: e in ts ==> e.effectiveAt != x
    ensures Headcount(ts, x) == Headcount(ts, x - 1)
  {
    var before := x - 1;
    forall w ensures AvailableAt(ts, w, x) <==> AvailableAt(ts, w, before) {
      forall e ensures Governs(ts, w, x, e) <==> Governs(ts, w, before, e) {}
    }
    assert (set w | w in Workers(ts) && AvailableAt(ts, w, x))
        == (set w | w in Workers(ts) && AvailableAt(ts, w, before));
  }

  lemma {:induction false} AvailableWorkerIsKnown(ts: seq<Transition>, w: Worker, x: int)
    ensures AvailableAt(ts, w, x) ==> w in Workers(ts)
  {
  }

  // ----- Resolution per worker -----

  ghost predicate OfWorker(events: seq<Transition>, ts: seq<Transition>, w: Worker) {
    forall e :: e in events <==> e in ts && e.worker == w
  }

  /** The events of one worker in observation order, replayed up to an instant: the last effective one wins. */
  method ResolveAt(events: seq<Transition>, ghost ts: seq<Transition>, ghost w: Worker, x: int)
    returns (available: Option<bool>)
    requires SortedBy(events, KeyLeq) && OfWorker(events, ts, w) && DistinctIds(ts)
    ensures available == Some(true) <==> AvailableAt(ts, w, x)
  {
    available := None;
    ghost var last := -1;
    for k := 0 to |events|
      invariant -1 <= last < k
      invariant available == if last == -1 then None else Some(events[last].available)
      invariant last >= 0 ==> events[last].effectiveAt <= x
      invariant forall j :: last < j < k ==> x < events[j].effectiveAt
    {
      if events[k].effectiveAt <= x {
        available := Some(events[k].available);
        last := k;
      }
    }
    if last >= 0 {
      var e := events[last];
      assert Governs(ts, w, x, e);
      forall f | Governs(ts, w, x, f) ensures f == e { GovernsUnique(ts, w, x, e, f); }
    }
  }
}
