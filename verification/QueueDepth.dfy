/** The queue depth a replay reports, told from its schedule. */
module QueueDepth {
  import opened Wrappers
  import opened OrderStatistics
  import opened Fifo

  function Scheduled(m: Model): seq<int> {
    seq(|m.arrivals|, i requires 0 <= i < |m.arrivals| => m.arrivals[i].scheduled)
  }

  function StartedBefore(starts: seq<int>, x: int): nat { CountAtMost(starts, x - 1) }

  function ArrivedBy(m: Model, x: int): nat { CountAtMost(Scheduled(m), x) }

  /** The hosts still held at `x` by jobs that started before. */
  ghost function Occupied(m: Model, starts: seq<int>, x: int): nat
    requires |starts| <= |m.arrivals|
  {
    CountAbove(Ends(m, starts[..StartedBefore(starts, x)]), x)
  }

  /**
    The jobs that still wait at `x` when the hosts free at `x` have been handed out once. A job of no length that
    frees its host at `x` again does not shorten this queue.
  */
  ghost function DepthAt(m: Model, starts: seq<int>, x: int): nat
    requires |starts| <= |m.arrivals|
  {
    Left(ArrivedBy(m, x) - StartedBefore(starts, x), m.Capacity(x), Occupied(m, starts, x))
  }

  function Left(waiting: int, capacity: int, occupied: int): nat {
    Max(0, waiting - Max(0, capacity - occupied))
  }

  /** Jobs wait, no host works or ever will: the replay stops here and looks at no later arrival. */
  ghost predicate Stuck(m: Model, starts: seq<int>, x: int)
    requires |starts| <= |m.arrivals|
  {
    && (forall i :: 0 <= i < |m.changes| ==> m.changes[i].at <= x)
    && m.Capacity(x) <= 0 && Occupied(m, starts, x) == 0 && 0 < DepthAt(m, starts, x)
  }

  ghost predicate Reached(m: Model, starts: seq<int>, x: int)
    requires |starts| <= |m.arrivals|
  {
    forall y :: y < x ==> !Stuck(m, starts, y)
  }

  /** The greatest queue depth at any instant the replay reaches. */
  ghost predicate IsPeakDepth(m: Model, starts: seq<int>, depth: nat)
    requires |starts| <= |m.arrivals|
  {
    && (forall x :: Reached(m, starts, x) ==> DepthAt(m, starts, x) <= depth)
    && (0 < depth ==> exists x :: Reached(m, starts, x) && DepthAt(m, starts, x) == depth)
  }

  lemma {:induction false} PeakDepthUnique(m: Model, starts: seq<int>, depth: nat, depth': nat)
    requires |starts| <= |m.arrivals| && IsPeakDepth(m, starts, depth) && IsPeakDepth(m, starts, depth')
    ensures depth == depth'
  {
    if 0 < depth { var x :| Reached(m, starts, x) && DepthAt(m, starts, x) == depth; }
    if 0 < depth' { var x :| Reached(m, starts, x) && DepthAt(m, starts, x) == depth'; }
  }

  // ----- The depth while replaying -----

  lemma {:induction false} CountLate(s: seq<int>, more: seq<int>, x: int)
    requires forall i :: 0 <= i < |more| ==> x < more[i]
    ensures CountAtMost(s + more, x) == CountAtMost(s, x)
  {
    CountConcat(s, more, x);
    CountPrefix(more, 0, x);
  }

  /** Jobs that start at `x` or later do not change the depth at `x`. */
  lemma {:induction false} LaterStartsDoNotCount(m: Model, before: seq<int>, starts: seq<int>, x: int)
    requires before <= starts && |starts| <= |m.arrivals|
    requires forall i :: |before| <= i < |starts| ==> x <= starts[i]
    ensures DepthAt(m, starts, x) == DepthAt(m, before, x) && Occupied(m, starts, x) == Occupied(m, before, x)
    ensures Stuck(m, starts, x) <==> Stuck(m, before, x)
  {
    var more := starts[|before|..];
    assert starts == before + more;
    var u := x - 1;
    CountLate(before, more, u);
    var n := StartedBefore(before, x);
    assert starts[..n] == before[..n];
  }

  /** The depth at an instant after every start so far. */
  lemma {:induction false} DepthIs(m: Model, starts: seq<int>, arrived: nat, occupied: nat, x: int)
    requires |starts| <= arrived <= |m.arrivals|
    requires forall i :: 0 <= i < |starts| ==> starts[i] < x
    requires forall i :: 0 <= i < arrived ==> m.arrivals[i].scheduled <= x
    requires forall i :: arrived <= i < |m.arrivals| ==> x < m.arrivals[i].scheduled
    requires CountAbove(Ends(m, starts), x) == occupied
    ensures Occupied(m, starts, x) == occupied
    ensures DepthAt(m, starts, x) == Left(arrived - |starts|, m.Capacity(x), occupied)
  {
    var u := x - 1;
    CountPrefix(starts, |starts|, u);
    assert starts[..|starts|] == starts;
    CountPrefix(Scheduled(m), arrived, x);
  }

  /** The instants whose depth is known: those up to the last event, and those before the next one. */
  predicate Known(clock: int, next: Option<int>, x: int) {
    x <= clock || next == None || x < next.value
  }

  ghost predicate PeakSoFar(m: Model, starts: seq<int>, clock: int, next: Option<int>, depth: nat) {
    && |starts| <= |m.arrivals|
    && (forall x :: Known(clock, next, x) ==> DepthAt(m, starts, x) <= depth && !Stuck(m, starts, x))
    && (0 < depth ==> exists x :: Known(clock, next, x) && DepthAt(m, starts, x) == depth)
  }

  /** Before the first event nothing has happened. */
  lemma {:induction false} NothingBefore(m: Model, clock: int, next: Option<int>)
    requires forall x, i :: Known(clock, next, x) && 0 <= i < |m.arrivals| ==> x < m.arrivals[i].scheduled
    ensures PeakSoFar(m, [], clock, next, 0)
  {
    forall x | Known(clock, next, x) ensures DepthAt(m, [], x) == 0 {
      DepthIs(m, [], 0, 0, x);
    }
  }

  /** Every instant is known: the whole replay was looked at. */
  lemma {:induction false} PeakAtEnd(m: Model, starts: seq<int>, clock: int, depth: nat)
    requires PeakSoFar(m, starts, clock, None, depth)
    ensures IsPeakDepth(m, starts, depth)
  {
    if 0 < depth {
      var x :| Known(clock, None, x) && DepthAt(m, starts, x) == depth;
      assert Reached(m, starts, x);
    }
  }

  ghost predicate PeakUpTo(m: Model, starts: seq<int>, now: int, depth: nat) {
    && |starts| <= |m.arrivals|
    && (forall x :: x <= now ==> DepthAt(m, starts, x) <= depth)
    && (forall x :: x < now ==> !Stuck(m, starts, x))
    && (0 < depth ==> exists x :: x <= now && DepthAt(m, starts, x) == depth)
  }

  /** The first round at `now` leaves the depth at `now` in the queue. */
  lemma {:induction false} FirstRound(
    m: Model, starts: seq<int>, clock: int, now: int, arrived: nat, occupied: nat, queued: nat, depth: nat)
    requires PeakSoFar(m, starts, clock, Some(now), depth) && clock < now && |starts| <= arrived <= |m.arrivals|
    requires forall i :: 0 <= i < |starts| ==> starts[i] < now
    requires forall i :: 0 <= i < arrived ==> m.arrivals[i].scheduled <= now
    requires forall i :: arrived <= i < |m.arrivals| ==> now < m.arrivals[i].scheduled
    requires CountAbove(Ends(m, starts), now) == occupied
    requires queued == Left(arrived - |starts|, m.Capacity(now), occupied)
    ensures PeakUpTo(m, starts, now, Max(depth, queued))
    ensures DepthAt(m, starts, now) == queued && Occupied(m, starts, now) == occupied
  {
    DepthIs(m, starts, arrived, occupied, now);
    if depth < queued {
      assert DepthAt(m, starts, now) == queued;
    } else if 0 < depth {
      var x :| Known(clock, Some(now), x) && DepthAt(m, starts, x) == depth;
      assert x <= now;
    }
  }

  /** What starts at `now` changes no depth up to `now`. */
  lemma {:induction false} PeakStays(m: Model, before: seq<int>, starts: seq<int>, now: int, depth: nat)
    requires PeakUpTo(m, before, now, depth) && before <= starts && |starts| <= |m.arrivals|
    requires forall i :: |before| <= i < |starts| ==> now <= starts[i]
    ensures PeakUpTo(m, starts, now, depth)
    ensures DepthAt(m, starts, now) == DepthAt(m, before, now) && Occupied(m, starts, now) == Occupied(m, before, now)
    ensures Stuck(m, starts, now) <==> Stuck(m, before, now)
  {
    PastStays(m, before, starts, now);
    LaterStartsDoNotCount(m, before, starts, now);
    if 0 < depth {
      var x :| x <= now && DepthAt(m, before, x) == depth;
      assert DepthAt(m, starts, x) == depth;
    }
  }

  lemma {:induction false} PastStays(m: Model, before: seq<int>, starts: seq<int>, now: int)
    requires before <= starts && |starts| <= |m.arrivals|
    requires forall i :: |before| <= i < |starts| ==> now <= starts[i]
    ensures forall x :: x <= now ==> DepthAt(m, starts, x) == DepthAt(m, before, x)
    ensures forall x :: x <= now ==> (Stuck(m, starts, x) <==> Stuck(m, before, x))
  {
    forall x | x <= now
      ensures DepthAt(m, starts, x) == DepthAt(m, before, x) && (Stuck(m, starts, x) <==> Stuck(m, before, x))
    {
      LaterStartsDoNotCount(m, before, starts, x);
    }
  }

  /** Nothing changes between two events. */
  lemma {:induction false} UntilNextEvent(
    m: Model, starts: seq<int>, now: int, next: Option<int>, arrived: nat, occupied: nat, exhausted: bool, queued: nat,
    depth: nat)
    requires PeakUpTo(m, starts, now, depth) && !Stuck(m, starts, now)
    requires |starts| <= arrived <= |m.arrivals| && queued == arrived - |starts| <= depth
    requires forall i :: 0 <= i < |starts| ==> starts[i] <= now
    requires forall i :: 0 <= i < arrived ==> m.arrivals[i].scheduled <= now
    requires forall x :: now < x && Known(now, next, x) ==>
      && (forall i :: arrived <= i < |m.arrivals| ==> x < m.arrivals[i].scheduled)
      && (exhausted <==> forall i :: 0 <= i < |m.changes| ==> m.changes[i].at <= x)
      && CountAbove(Ends(m, starts), x) == occupied
      && (queued == 0 || m.Capacity(x) <= occupied)
    requires !(0 < queued && occupied == 0 && exhausted)
    ensures PeakSoFar(m, starts, now, next, depth)
  {
    forall x | now < x && Known(now, next, x) ensures DepthAt(m, starts, x) == queued && !Stuck(m, starts, x) {
      DepthIs(m, starts, arrived, occupied, x);
    }
  }

  /** The replay got stuck at `now`. */
  lemma {:induction false} PeakWhenStuck(m: Model, starts: seq<int>, now: int, depth: nat)
    requires PeakUpTo(m, starts, now, depth) && Stuck(m, starts, now)
    ensures IsPeakDepth(m, starts, depth)
  {
    if 0 < depth {
      var x :| x <= now && DepthAt(m, starts, x) == depth;
      assert Reached(m, starts, x);
    }
  }

  /** A replay in which every job starts is never stuck, so its depth is the greatest at any instant at all. */
  lemma {:induction false} NeverStuckIfAllStart(m: Model, starts: seq<int>, x: int)
    requires m.Valid() && IsSchedule(m, starts) && |starts| == |m.arrivals|
    ensures !Stuck(m, starts, x)
  {
    forall i | 0 <= i < |starts| && Stuck(m, starts, x) ensures starts[i] < x {
      assert StartsAt(m, starts[..i], starts[i]);
      assert x <= starts[i] ==> m.Capacity(starts[i]) == m.Capacity(x);
    }
    var u := x - 1;
    if Stuck(m, starts, x) { CountPrefix(starts, |starts|, u); }
  }
}
