/** The event loop that replays observed runs against a changed capacity. */
module Replay {
  import opened Sorting
  import opened OrderStatistics
  import opened Wrappers
  import opened Fifo
  import opened QueueDepth

  /** `min(times)`: the next arrival, capacity change or completion. */
  function NextEvent(m: Model, arrivalIndex: nat, capacityIndex: nat, completions: seq<int>): Option<int> {
    var arrival := if arrivalIndex < |m.arrivals| then Some(m.arrivals[arrivalIndex].scheduled) else None;
    var change := if capacityIndex < |m.changes| then Some(m.changes[capacityIndex].at) else None;
    var completion := if completions != [] then Some(completions[0]) else None;
    Earlier(arrival, Earlier(change, completion))
  }

  function Earlier(x: Option<int>, y: Option<int>): Option<int> {
    match (x, y)
    case (None, _) => y
    case (_, None) => x
    case (Some(i), Some(j)) => Some(Min(i, j))
  }

  /** The value the loop keeps in `current_capacity` after `capacityIndex` changes. */
  function CapacityAfter(m: Model, capacityIndex: nat): int
    requires capacityIndex <= |m.changes|
  {
    if capacityIndex == 0 then 0 else Max(0, m.changes[capacityIndex - 1].capacity + m.hostDelta)
  }

  lemma {:induction false} CapacityBetweenChanges(m: Model, capacityIndex: nat, t: int)
    requires capacityIndex <= |m.changes|
    requires forall i :: 0 <= i < capacityIndex ==> m.changes[i].at <= t
    requires forall i :: capacityIndex <= i < |m.changes| ==> t < m.changes[i].at
    ensures m.Capacity(t) == CapacityAfter(m, capacityIndex)
    decreases |m.changes| - capacityIndex
  {
    if capacityIndex < |m.changes| {
      var rest := m.(changes := m.changes[..|m.changes| - 1]);
      CapacityBetweenChangesShorter(m, rest, capacityIndex, t);
    }
  }

  lemma {:induction false} CapacityBetweenChangesShorter(m: Model, rest: Model, capacityIndex: nat, t: int)
    requires capacityIndex < |m.changes| && rest == m.(changes := m.changes[..|m.changes| - 1])
    requires forall i :: 0 <= i < capacityIndex ==> m.changes[i].at <= t
    requires forall i :: capacityIndex <= i < |m.changes| ==> t < m.changes[i].at
    ensures m.Capacity(t) == CapacityAfter(m, capacityIndex)
    decreases |m.changes|
  {
    assert m.Capacity(t) == rest.Capacity(t);
    if capacityIndex == |rest.changes| {
    } else {
      CapacityBetweenChangesShorter(rest, rest.(changes := rest.changes[..|rest.changes| - 1]), capacityIndex, t);
    }
  }

  /** The heap holds exactly the hosts still busy from `clock` on. */
  ghost predicate HeapTracks(m: Model, starts: seq<int>, completions: seq<int>, clock: int)
    requires |starts| <= |m.arrivals|
  {
    && SortedBy(completions, IntLeq)
    && (forall i :: 0 <= i < |completions| ==> clock <= completions[i])
    && forall t :: clock <= t ==> CountAbove(Ends(m, starts), t) == CountAbove(completions, t)
  }

  ghost predicate NotBefore(m: Model, starts: seq<int>, next: Option<int>)
    requires |starts| < |m.arrivals|
  {
    forall t :: (next.Some? ==> t < next.value) ==> !Runnable(m, starts, t)
  }

  ghost predicate CursorsAt(m: Model, arrivalIndex: nat, capacityIndex: nat, clock: int) {
    && arrivalIndex <= |m.arrivals| && capacityIndex <= |m.changes|
    && (forall i :: 0 <= i < arrivalIndex ==> m.arrivals[i].scheduled <= clock)
    && (forall i :: arrivalIndex <= i < |m.arrivals| ==> clock < m.arrivals[i].scheduled)
    && (forall i :: 0 <= i < capacityIndex ==> m.changes[i].at <= clock)
    && (forall i :: capacityIndex <= i < |m.changes| ==> clock < m.changes[i].at)
  }

  /** The schedule so far, none of it after `clock`. */
  ghost predicate StartedBy(m: Model, starts: seq<int>, clock: int) {
    && IsScheduleSoFar(m, starts)
    && forall i :: 0 <= i < |starts| ==> starts[i] <= clock
  }

  lemma {:induction false} CountAboveAll(s: seq<int>, t: int)
    requires forall i :: 0 <= i < |s| ==> t < s[i]
    ensures CountAbove(s, t) == |s|
  {
    CountPrefix(s, 0, t);
  }

  lemma {:induction false} CountAbovePush(s: seq<int>, x: int, t: int)
    ensures CountAbove(Insert(s, x, IntLeq), t) == CountAbove(s, t) + if x > t then 1 else 0
  {
    InsertMembers(s, x, IntLeq);
    CountPermutation(Insert(s, x, IntLeq), s + [x], t);
  }

  /** Popping every completion at or before `now` leaves the hosts busy after `now`. */
  method PopCompleted(completions: seq<int>, now: int) returns (rest: seq<int>)
    requires SortedBy(completions, IntLeq)
    ensures SortedBy(rest, IntLeq) && |rest| <= |completions|
    ensures forall i :: 0 <= i < |rest| ==> now < rest[i]
    ensures forall t :: now <= t ==> CountAbove(rest, t) == CountAbove(completions, t)
    ensures completions != [] && completions[0] <= now ==> |rest| < |completions|
  {
    rest := completions;
    while rest != [] && rest[0] <= now
      invariant SortedBy(rest, IntLeq) && |rest| <= |completions|
      invariant forall t :: now <= t ==> CountAbove(rest, t) == CountAbove(completions, t)
      invariant completions != [] && completions[0] <= now ==> rest == completions || |rest| < |completions|
      decreases |rest|
    {
      assert rest == [rest[0]] + rest[1..];
      forall t | now <= t ensures CountAbove(rest[1..], t) == CountAbove(rest, t) {
        CountConcat([rest[0]], rest[1..], t);
      }
      rest := rest[1..];
    }
  }

  /** Takes the capacity changes at or before `now`; the last of them stays in force. */
  method ApplyChanges(m: Model, currentCapacity: int, capacityIndex: nat, now: int)
    returns (currentCapacity': int, capacityIndex': nat)
    requires m.Valid() && capacityIndex <= |m.changes| && currentCapacity == CapacityAfter(m, capacityIndex)
    requires forall i :: 0 <= i < capacityIndex ==> m.changes[i].at <= now
    ensures capacityIndex <= capacityIndex' <= |m.changes| && currentCapacity' == CapacityAfter(m, capacityIndex')
    ensures forall i :: 0 <= i < capacityIndex' ==> m.changes[i].at <= now
    ensures forall i :: capacityIndex' <= i < |m.changes| ==> now < m.changes[i].at
    ensures currentCapacity' == m.Capacity(now)
  {
    currentCapacity', capacityIndex' := currentCapacity, capacityIndex;
    while capacityIndex' < |m.changes| && m.changes[capacityIndex'].at <= now
      invariant capacityIndex <= capacityIndex' <= |m.changes|
      invariant forall i :: 0 <= i < capacityIndex' ==> m.changes[i].at <= now
      invariant currentCapacity' == CapacityAfter(m, capacityIndex')
    {
      currentCapacity' := Max(0, m.changes[capacityIndex'].capacity + m.hostDelta);
      capacityIndex' := capacityIndex' + 1;
    }
    CapacityBetweenChanges(m, capacityIndex', now);
  }

  /** Queues the arrivals at or before `now`; `started` jobs have left the queue. */
  method EnqueueArrivals(m: Model, queued: seq<Arrival>, ghost started: nat, arrivalIndex: nat, now: int)
    returns (queued': seq<Arrival>, arrivalIndex': nat)
    requires m.Valid() && started <= arrivalIndex <= |m.arrivals| && queued == m.arrivals[started..arrivalIndex]
    requires forall i :: 0 <= i < arrivalIndex ==> m.arrivals[i].scheduled <= now
    ensures arrivalIndex <= arrivalIndex' <= |m.arrivals| && queued' == m.arrivals[started..arrivalIndex']
    ensures forall i :: 0 <= i < arrivalIndex' ==> m.arrivals[i].scheduled <= now
    ensures forall i :: arrivalIndex' <= i < |m.arrivals| ==> now < m.arrivals[i].scheduled
  {
    queued', arrivalIndex' := queued, arrivalIndex;
    while arrivalIndex' < |m.arrivals| && m.arrivals[arrivalIndex'].scheduled <= now
      invariant arrivalIndex <= arrivalIndex' <= |m.arrivals|
      invariant forall i :: 0 <= i < arrivalIndex' ==> m.arrivals[i].scheduled <= now
      invariant queued' == m.arrivals[started..arrivalIndex']
    {
      queued' := queued' + [m.arrivals[arrivalIndex']];
      arrivalIndex' := arrivalIndex' + 1;
    }
  }

  /** Job number `|starts|` is at the head of the queue and a host is free: this is its earliest start. */
  lemma {:induction false} HeadStarts(m: Model, starts: seq<int>, completions: seq<int>, now: int)
    requires StartedBy(m, starts, now) && |starts| < |m.arrivals|
    requires m.arrivals[|starts|].scheduled <= now
    requires HeapTracks(m, starts, completions, now) && |completions| < m.Capacity(now)
    requires NotBefore(m, starts, Some(now))
    ensures StartedBy(m, starts + [now], now)
    ensures |starts| + 1 < |m.arrivals| ==> NotBefore(m, starts + [now], Some(now))
  {
    assert CountAbove(completions, now) <= |completions|;
    assert Runnable(m, starts, now);
    ExtendSchedule(m, starts, now);
  }

  lemma {:induction false} PushTracks(m: Model, starts: seq<int>, completions: seq<int>, now: int, end: int)
    requires |starts| < |m.arrivals| && HeapTracks(m, starts, completions, now)
    requires now <= end == now + m.Service(|starts|)
    ensures HeapTracks(m, starts + [now], Insert(completions, end, IntLeq), now)
  {
    var pushed := Insert(completions, end, IntLeq);
    InsertSorted(completions, end, IntLeq);
    InsertMembers(completions, end, IntLeq);
    forall i | 0 <= i < |pushed| ensures now <= pushed[i] {
      assert pushed[i] in completions || pushed[i] == end;
    }
    assert Ends(m, starts + [now])[..|starts|] == Ends(m, starts);
    forall t | now <= t ensures CountAbove(Ends(m, starts + [now]), t) == CountAbove(pushed, t) {
      CountAbovePush(completions, end, t);
    }
  }

  /** After the start loop the next queued job cannot start before the next event. */
  lemma {:induction false} BlockedUntilNextEvent(
    m: Model, starts: seq<int>, completions: seq<int>, arrivalIndex: nat, capacityIndex: nat, now: int)
    requires m.Valid() && CursorsAt(m, arrivalIndex, capacityIndex, now)
    requires |starts| <= arrivalIndex && |starts| < |m.arrivals|
    requires HeapTracks(m, starts, completions, now) && NotBefore(m, starts, Some(now))
    requires |starts| == arrivalIndex || CapacityAfter(m, capacityIndex) <= |completions|
    ensures NotBefore(m, starts, NextEvent(m, arrivalIndex, capacityIndex, completions))
  {
    var next := NextEvent(m, arrivalIndex, capacityIndex, completions);
    forall t | next.Some? ==> t < next.value ensures !Runnable(m, starts, t) {
      if now <= t && |starts| < arrivalIndex {
        CapacityBetweenChanges(m, capacityIndex, t);
        CountAboveAll(completions, t);
      }
    }
  }

  /** No host, none running and no change to come: the queue is stuck for good. */
  lemma {:induction false} NeverAgain(m: Model, starts: seq<int>, capacityIndex: nat, now: int)
    requires m.Valid() && |starts| < |m.arrivals| && capacityIndex == |m.changes|
    requires forall i :: 0 <= i < |m.changes| ==> m.changes[i].at <= now
    requires CapacityAfter(m, capacityIndex) <= 0
    requires NotBefore(m, starts, Some(now))
    ensures NeverStarts(m, starts)
  {
    forall t ensures !Runnable(m, starts, t) {
      if now <= t { CapacityBetweenChanges(m, capacityIndex, t); }
    }
  }

  lemma {:induction false} StartOne(
    m: Model, queued: seq<Arrival>, completions: seq<int>, lags: seq<int>, arrivalIndex: nat, starts: seq<int>,
    now: int, lag: int, end: int)
    requires m.Valid() && QueueState(m, queued, completions, lags, arrivalIndex, starts, now)
    requires queued != [] && lag == now - queued[0].scheduled && end == now + (queued[0].duration + m.turnaround)
    requires forall i :: 0 <= i < arrivalIndex ==> m.arrivals[i].scheduled <= now
    requires |completions| < m.Capacity(now) && NotBefore(m, starts, Some(now))
    ensures |Insert(completions, end, IntLeq)| == |completions| + 1
    ensures QueueState(m, queued[1..], Insert(completions, end, IntLeq), lags + [lag], arrivalIndex,
                       starts + [now], now)
    ensures |starts| + 1 < |m.arrivals| ==> NotBefore(m, starts + [now], Some(now))
  {
    assert queued[0] == m.arrivals[|starts|] && queued[1..] == m.arrivals[|starts| + 1..arrivalIndex];
    assert Lags(m, starts + [now]) == lags + [lag];
    HeadStarts(m, starts, completions, now);
    PushTracks(m, starts, completions, now, end);
    InsertMembers(completions, end, IntLeq);
  }

  /** Starts queued jobs at `now` while hosts are free. */
  method StartQueued(
    m: Model, queued: seq<Arrival>, completions: seq<int>, lags: seq<int>, currentCapacity: int,
    arrivalIndex: nat, now: int, ghost starts: seq<int>)
    returns (queued': seq<Arrival>, completions': seq<int>, lags': seq<int>, ghost starts': seq<int>)
    requires m.Valid() && arrivalIndex <= |m.arrivals| && currentCapacity == m.Capacity(now)
    requires forall i :: 0 <= i < arrivalIndex ==> m.arrivals[i].scheduled <= now
    requires QueueState(m, queued, completions, lags, arrivalIndex, starts, now)
    requires |starts| < |m.arrivals| ==> NotBefore(m, starts, Some(now))
    ensures QueueState(m, queued', completions', lags', arrivalIndex, starts', now)
    ensures |starts'| < |m.arrivals| ==> NotBefore(m, starts', Some(now))
    ensures starts <= starts'
    ensures forall i :: |starts| <= i < |starts'| ==> starts'[i] == now
    ensures queued' == [] || currentCapacity <= |completions'|
    ensures |queued'| + |completions'| == |queued| + |completions| && |queued'| <= |queued|
    ensures (queued' == queued && completions' == completions) || |completions'| <= currentCapacity
  {
    queued', completions', lags', starts' := queued, completions, lags, starts;
    while queued' != [] && |completions'| < currentCapacity
      invariant QueueState(m, queued', completions', lags', arrivalIndex, starts', now)
      invariant |starts'| < |m.arrivals| ==> NotBefore(m, starts', Some(now))
      invariant starts <= starts'
      invariant forall i :: |starts| <= i < |starts'| ==> starts'[i] == now
      invariant |queued'| + |completions'| == |queued| + |completions| && |queued'| <= |queued|
      invariant (queued' == queued && completions' == completions) || |completions'| <= currentCapacity
    {
      var job := queued'[0];
      var lag, end := now - job.scheduled, now + (job.duration + m.turnaround);
      StartOne(m, queued', completions', lags', arrivalIndex, starts', now, lag, end);
      queued' := queued'[1..];
      lags' := lags' + [lag];
      completions' := Insert(completions', end, IntLeq);
      starts' := starts' + [now];
    }
  }

  ghost predicate QueueState(
    m: Model, queued: seq<Arrival>, completions: seq<int>, lags: seq<int>, arrivalIndex: nat, starts: seq<int>,
    clock: int)
  {
    && StartedBy(m, starts, clock)
    && |starts| <= arrivalIndex <= |m.arrivals|
    && queued == m.arrivals[|starts|..arrivalIndex]
    && lags == Lags(m, starts)
    && HeapTracks(m, starts, completions, clock)
  }

  /** Nothing left in the model can start a job before the next event. */
  ghost predicate Settled(
    m: Model, queued: seq<Arrival>, completions: seq<int>, lags: seq<int>, capacityIndex: nat, arrivalIndex: nat,
    starts: seq<int>, clock: int)
  {
    && CursorsAt(m, arrivalIndex, capacityIndex, clock)
    && QueueState(m, queued, completions, lags, arrivalIndex, starts, clock)
    && (|starts| < |m.arrivals| ==> NotBefore(m, starts, NextEvent(m, arrivalIndex, capacityIndex, completions)))
  }

  /** What is left to do; one iteration always lowers it. */
  function Remaining(
    m: Model, queued: seq<Arrival>, completions: seq<int>, capacityIndex: nat, arrivalIndex: nat): int {
    3 * (|m.arrivals| - arrivalIndex) + 2 * |queued| + |completions| + (|m.changes| - capacityIndex)
  }

  /** Frees hosts, takes capacity changes and queues arrivals, up to the next event. */
  method AdvanceTo(
    m: Model, queued: seq<Arrival>, completions: seq<int>, ghost lags: seq<int>, currentCapacity: int,
    capacityIndex: nat, arrivalIndex: nat, now: int, ghost starts: seq<int>, ghost clock: int)
    returns (queued': seq<Arrival>, completions': seq<int>, currentCapacity': int, capacityIndex': nat,
        arrivalIndex': nat)
    requires m.Valid() && Settled(m, queued, completions, lags, capacityIndex, arrivalIndex, starts, clock)
    requires currentCapacity == CapacityAfter(m, capacityIndex)
    requires NextEvent(m, arrivalIndex, capacityIndex, completions) == Some(now)
    ensures clock <= now
    ensures CursorsAt(m, arrivalIndex', capacityIndex', now)
    ensures currentCapacity' == CapacityAfter(m, capacityIndex') == m.Capacity(now)
    ensures QueueState(m, queued', completions', lags, arrivalIndex', starts, now)
    ensures |starts| < |m.arrivals| ==> NotBefore(m, starts, Some(now))
    ensures arrivalIndex <= arrivalIndex'
    ensures forall i :: arrivalIndex <= i < arrivalIndex' ==> m.arrivals[i].scheduled == now
    ensures forall i :: 0 <= i < |completions'| ==> now < completions'[i]
    ensures Remaining(m, queued', completions', capacityIndex', arrivalIndex')
         < Remaining(m, queued, completions, capacityIndex, arrivalIndex)
  {
    completions' := PopCompleted(completions, now);
    currentCapacity', capacityIndex' := ApplyChanges(m, currentCapacity, capacityIndex, now);
    queued', arrivalIndex' := EnqueueArrivals(m, queued, |starts|, arrivalIndex, now);
  }

  /** A host is freed again at the instant of the last event only if there was one to give. */
  ghost predicate FreedAgain(m: Model, completions: seq<int>, capacityIndex: nat, clock: int)
    requires capacityIndex <= |m.changes|
  {
    completions != [] && completions[0] <= clock ==> 0 < CapacityAfter(m, capacityIndex)
  }

  /** One round of the loop: the depth up to `now`, and whether the replay is stuck. */
  lemma {:induction false} RoundPeak(
    m: Model, before: seq<int>, starts: seq<int>, clock: int, now: int, arrivedBefore: nat, arrived: nat,
    freed: seq<int>,
    completions: seq<int>, capacityIndex: nat, queued: nat, depth: nat)
    requires PeakSoFar(m, before, clock, Some(now), depth) && clock <= now && CursorsAt(m, arrived, capacityIndex, now)
    requires |before| <= arrivedBefore <= arrived && arrivedBefore - |before| <= depth
    requires forall i :: arrivedBefore <= i < arrived ==> m.arrivals[i].scheduled == now
    requires clock == now ==> 0 < m.Capacity(now) && arrivedBefore == arrived
    requires StartedBy(m, before, clock) && before <= starts && |starts| <= arrived
    requires forall i :: |before| <= i < |starts| ==> starts[i] == now
    requires HeapTracks(m, before, freed, now) && forall i :: 0 <= i < |freed| ==> now < freed[i]
    requires queued == arrived - |starts| && |completions| - |freed| == |starts| - |before|
    requires queued == 0 || m.Capacity(now) <= |completions|
    requires |starts| == |before| || |completions| <= m.Capacity(now)
    ensures PeakUpTo(m, starts, now, Max(depth, queued))
    ensures Stuck(m, starts, now) <==> 0 < queued && |completions| == 0 && capacityIndex == |m.changes|
  {
    if clock < now {
      CountAboveAll(freed, now);
      FirstRound(m, before, clock, now, arrived, |freed|, queued, depth);
      PeakStays(m, before, starts, now, Max(depth, queued));
    } else {
      PeakStays(m, before, starts, now, depth);
    }
  }

  lemma {:induction false} BetweenEvents(
    m: Model, starts: seq<int>, completions: seq<int>, arrivalIndex: nat, capacityIndex: nat, now: int, x: int)
    requires CursorsAt(m, arrivalIndex, capacityIndex, now) && |starts| <= |m.arrivals| && m.Valid()
    requires HeapTracks(m, starts, completions, now)
    requires now < x && Known(now, NextEvent(m, arrivalIndex, capacityIndex, completions), x)
    ensures forall i :: arrivalIndex <= i < |m.arrivals| ==> x < m.arrivals[i].scheduled
    ensures capacityIndex == |m.changes| <==> forall i :: 0 <= i < |m.changes| ==> m.changes[i].at <= x
    ensures CountAbove(Ends(m, starts), x) == |completions|
    ensures m.Capacity(x) == CapacityAfter(m, capacityIndex)
  {
    CapacityBetweenChanges(m, capacityIndex, x);
    CountAboveAll(completions, x);
  }

  /** The depth is known up to the next event. */
  lemma {:induction false} PeakUntilNext(
    m: Model, starts: seq<int>, completions: seq<int>, arrivalIndex: nat, capacityIndex: nat, now: int, queued: nat,
    depth: nat)
    requires PeakUpTo(m, starts, now, depth) && !Stuck(m, starts, now)
    requires m.Valid() && CursorsAt(m, arrivalIndex, capacityIndex, now) && StartedBy(m, starts, now)
    requires |starts| <= arrivalIndex && queued == arrivalIndex - |starts| <= depth
    requires HeapTracks(m, starts, completions, now)
    requires queued == 0 || CapacityAfter(m, capacityIndex) <= |completions|
    requires !(0 < queued && |completions| == 0 && capacityIndex == |m.changes|)
    ensures PeakSoFar(m, starts, now, NextEvent(m, arrivalIndex, capacityIndex, completions), depth)
  {
    var next := NextEvent(m, arrivalIndex, capacityIndex, completions);
    var exhausted := capacityIndex == |m.changes|;
    forall x | now < x && Known(now, next, x)
      ensures forall i :: arrivalIndex <= i < |m.arrivals| ==> x < m.arrivals[i].scheduled
      ensures exhausted <==> forall i :: 0 <= i < |m.changes| ==> m.changes[i].at <= x
      ensures CountAbove(Ends(m, starts), x) == |completions|
      ensures queued == 0 || m.Capacity(x) <= |completions|
    {
      BetweenEvents(m, starts, completions, arrivalIndex, capacityIndex, now, x);
    }
    UntilNextEvent(m, starts, now, next, arrivalIndex, |completions|, exhausted, queued, depth);
  }

  /** What the loop keeps between rounds. */
  ghost predicate BetweenRounds(
    m: Model, queued: seq<Arrival>, completions: seq<int>, lags: seq<int>, currentCapacity: int, capacityIndex: nat,
    arrivalIndex: nat, starts: seq<int>, clock: int, depth: nat)
  {
    && Settled(m, queued, completions, lags, capacityIndex, arrivalIndex, starts, clock)
    && currentCapacity == CapacityAfter(m, capacityIndex)
    && PeakSoFar(m, starts, clock, NextEvent(m, arrivalIndex, capacityIndex, completions), depth)
    && |queued| <= depth && FreedAgain(m, completions, capacityIndex, clock)
  }

  /** The replay ends stuck: jobs wait and no host will ever be there. */
  ghost predicate EndsStuck(m: Model, lags: seq<int>, starts: seq<int>, depth: nat) {
    && IsSchedule(m, starts) && lags == Lags(m, starts) && IsPeakDepth(m, starts, depth)
  }

  lemma {:induction false} AfterRound(
    m: Model, queued: seq<Arrival>, completions: seq<int>, lags: seq<int>, currentCapacity: int, capacityIndex: nat,
    arrivalIndex: nat, starts: seq<int>, now: int, depth: nat)
    requires m.Valid() && CursorsAt(m, arrivalIndex, capacityIndex, now)
    requires currentCapacity == CapacityAfter(m, capacityIndex) == m.Capacity(now)
    requires QueueState(m, queued, completions, lags, arrivalIndex, starts, now)
    requires |starts| < |m.arrivals| ==> NotBefore(m, starts, Some(now))
    requires queued == [] || currentCapacity <= |completions|
    requires PeakUpTo(m, starts, now, depth) && |queued| <= depth && FreedAgain(m, completions, capacityIndex, now)
    requires Stuck(m, starts, now) <==> 0 < |queued| && |completions| == 0 && capacityIndex == |m.changes|
    ensures if queued != [] && completions == [] && capacityIndex >= |m.changes|
      then EndsStuck(m, lags, starts, depth)
      else BetweenRounds(m, queued, completions, lags, currentCapacity, capacityIndex, arrivalIndex, starts, now, depth)
  {
    if queued != [] && completions == [] && capacityIndex >= |m.changes| {
      NeverAgain(m, starts, capacityIndex, now);
      PeakWhenStuck(m, starts, now, depth);
    } else {
      if |starts| < |m.arrivals| {
        BlockedUntilNextEvent(m, starts, completions, arrivalIndex, capacityIndex, now);
      }
      PeakUntilNext(m, starts, completions, arrivalIndex, capacityIndex, now, |queued|, depth);
    }
  }

  /** A further round at the same instant finds no arrival, and there is a host. */
  lemma {:induction false} SameInstant(
    m: Model, completions: seq<int>, capacityIndex: nat, arrivalIndex: nat, arrivalIndex': nat, clock: int, now: int)
    requires m.Valid() && CursorsAt(m, arrivalIndex, capacityIndex, clock)
    requires FreedAgain(m, completions, capacityIndex, clock)
    requires NextEvent(m, arrivalIndex, capacityIndex, completions) == Some(now)
    requires arrivalIndex <= arrivalIndex' <= |m.arrivals|
    requires forall i :: arrivalIndex <= i < arrivalIndex' ==> m.arrivals[i].scheduled == now
    ensures clock == now ==> 0 < m.Capacity(now) && arrivalIndex == arrivalIndex'
  {
    CapacityBetweenChanges(m, capacityIndex, clock);
  }

  /** One round at the next event. */
  method Round(
    m: Model, queued: seq<Arrival>, completions: seq<int>, lags: seq<int>, currentCapacity: int, capacityIndex: nat,
    arrivalIndex: nat, now: int, maxQueueDepth: nat, ghost starts: seq<int>, ghost clock: int)
    returns (
      queued': seq<Arrival>, completions': seq<int>, lags': seq<int>, currentCapacity': int, capacityIndex': nat,
      arrivalIndex': nat, maxQueueDepth': nat, ghost starts': seq<int>)
    requires m.Valid()
    requires BetweenRounds(
               m, queued, completions, lags, currentCapacity, capacityIndex, arrivalIndex, starts, clock, maxQueueDepth)
    requires NextEvent(m, arrivalIndex, capacityIndex, completions) == Some(now)
    ensures Remaining(m, queued', completions', capacityIndex', arrivalIndex')
         < Remaining(m, queued, completions, capacityIndex, arrivalIndex)
    ensures if queued' != [] && completions' == [] && capacityIndex' >= |m.changes|
      then EndsStuck(m, lags', starts', maxQueueDepth')
      else BetweenRounds(m, queued', completions', lags', currentCapacity', capacityIndex', arrivalIndex', starts', now,
                         maxQueueDepth')
  {
    queued', completions', currentCapacity', capacityIndex', arrivalIndex' :=
      AdvanceTo(m, queued, completions, lags, currentCapacity, capacityIndex, arrivalIndex, now, starts, clock);
    SameInstant(m, completions, capacityIndex, arrivalIndex, arrivalIndex', clock, now);
    ghost var freed := completions';
    queued', completions', lags', starts' :=
      StartQueued(m, queued', completions', lags, currentCapacity', arrivalIndex', now, starts);
    RoundPeak(m, starts, starts', clock, now, arrivalIndex, arrivalIndex', freed, completions', capacityIndex',
              |queued'|, maxQueueDepth);
    maxQueueDepth' := Max(maxQueueDepth, |queued'|);
    AfterRound(m, queued', completions', lags', currentCapacity', capacityIndex', arrivalIndex', starts', now,
               maxQueueDepth');
  }

  /**
    The event loop computes the FIFO schedule: the jobs that start, in order, with their lags, and the peak depth.
    It terminates because every round uses up an arrival, a change, a completion or a queued job.
  */
  method ReplayQueue(m: Model) returns (lags: seq<int>, maxQueueDepth: nat)
    requires m.Valid()
    ensures lags == Lags(m, Schedule(m))
    ensures IsPeakDepth(m, Schedule(m), maxQueueDepth)
  {
    var queued: seq<Arrival>, completions: seq<int> := [], [];
    var currentCapacity := 0;
    var capacityIndex: nat, arrivalIndex: nat := 0, 0;
    lags, maxQueueDepth := [], 0;
    ghost var starts: seq<int> := [];
    ghost var first := NextEvent(m, 0, 0, []);
    ghost var clock := if first.Some? then first.value - 1 else 0;
    NothingBefore(m, clock, first);
    while arrivalIndex < |m.arrivals| || queued != [] || completions != [] || capacityIndex < |m.changes|
      invariant BetweenRounds(
                  m, queued, completions, lags, currentCapacity, capacityIndex, arrivalIndex, starts, clock,
                  maxQueueDepth)
      decreases Remaining(m, queued, completions, capacityIndex, arrivalIndex)
    {
      var next := NextEvent(m, arrivalIndex, capacityIndex, completions);
      if next == None { break; }
      var now := next.value;
      queued, completions, lags, currentCapacity, capacityIndex, arrivalIndex, maxQueueDepth, starts :=
        Round(m, queued, completions, lags, currentCapacity, capacityIndex, arrivalIndex, now, maxQueueDepth, starts,
            clock);
      if queued != [] && completions == [] && capacityIndex >= |m.changes| {
        ScheduleUnique(m, starts, Schedule(m));
        return;
      }
      clock := now;
    }
    PeakAtEnd(m, starts, clock, maxQueueDepth);
    ScheduleUnique(m, starts, Schedule(m));
  }
}
