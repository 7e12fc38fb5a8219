/** The availability recorder: one state row per worker and the transitions that explain it. */
module AvailabilityRecorder {
  import opened Sorting
  import opened Wrappers
  import opened Pool
  import A = Availability
  import C = Coverage

  datatype Reason = Quarantine | Unquarantine | ListedReason | NotListed | Online | Return | ContactTimeout

  datatype StateRow = StateRow(
    available: bool, quarantined: bool, lastContact: Option<int>, quarantineUntil: Option<int>,
    reason: Reason, effectiveAt: int, observedAt: int)

  /** What one worker-list observation says of a listed worker. */
  datatype Sighting = Sighting(lastActive: Option<int>, quarantineUntil: Option<int>)

  datatype TransitionRow = TransitionRow(id: nat, worker: Worker, row: StateRow)

  datatype History = History(states: map<Worker, StateRow>, transitions: seq<TransitionRow>, nextId: nat)

  const NEW_HISTORY := History(map[], [], 1)

  // ----- One worker, one observation -----

  function Later(a: Option<int>, b: Option<int>): Option<int> {
    match (a, b)
    case (None, _) => b
    case (_, None) => a
    case (Some(x), Some(y)) => Some(Max(x, y))
  }

  function LastContact(previous: Option<StateRow>, sighting: Option<Sighting>): Option<int> {
    Later(if previous.Some? then previous.value.lastContact else None,
          if sighting.Some? then sighting.value.lastActive else None)
  }

  function QuarantineUntil(previous: Option<StateRow>, sighting: Option<Sighting>): Option<int> {
    if sighting.Some? then sighting.value.quarantineUntil
    else if previous.Some? then previous.value.quarantineUntil else None
  }

  predicate IsQuarantined(until: Option<int>, at: int) { until.Some? && until.value > at }

  predicate IsAvailable(
    mode: Mode, threshold: int, listed: bool, lastContact: Option<int>, quarantined: bool, at: int) {
    && !quarantined
    && (match mode
        case Listed => listed
        case RecentContact => lastContact.Some? && lastContact.value + threshold > at)
  }

  /** Why the state changes, if it does. */
  function ChangeReason(mode: Mode, previous: Option<StateRow>, available: bool, quarantined: bool): Option<Reason> {
    match previous
    case None =>
      Some(if quarantined then Quarantine
           else if available then (if mode == Listed then ListedReason else Online)
           else (if mode == Listed then NotListed else ContactTimeout))
    case Some(p) =>
      if p.quarantined != quarantined then Some(if quarantined then Quarantine else Unquarantine)
      else if p.available != available then
        Some(if mode == Listed then (if available then ListedReason else NotListed)
             else (if available then Return else ContactTimeout))
      else None
  }

  function EffectiveAt(reason: Reason, lastContact: Option<int>, threshold: int, at: int): int {
    if reason in {Online, Return} && lastContact.Some? then lastContact.value
    else if reason == ContactTimeout && lastContact.Some? then lastContact.value + threshold
    else at
  }

  /** The row an observation leaves, and whether it is a transition. */
  function Judge(
    mode: Mode, threshold: int, previous: Option<StateRow>, sighting: Option<Sighting>, at: int): (StateRow, bool)
    requires previous.Some? || sighting.Some?
  {
    var lastContact := LastContact(previous, sighting);
    var until := QuarantineUntil(previous, sighting);
    var quarantined := IsQuarantined(until, at);
    var available := IsAvailable(mode, threshold, sighting.Some?, lastContact, quarantined, at);
    var reason := ChangeReason(mode, previous, available, quarantined);
    if reason.Some? then
      var effectiveAt := EffectiveAt(reason.value, lastContact, threshold, at);
      (StateRow(available, quarantined, lastContact, until, reason.value, effectiveAt, at), true)
    else
      var p := previous.value;
      (StateRow(available, quarantined, lastContact, until, p.reason, p.effectiveAt, at), false)
  }

  function Previous(h: History, w: Worker): Option<StateRow> { if w in h.states then Some(h.states[w]) else None }

  function RecordOne(h: History, w: Worker, mode: Mode, threshold: int, sighting: Option<Sighting>, at: int): History
    requires w in h.states || sighting.Some?
  {
    var (row, changed) := Judge(mode, threshold, Previous(h, w), sighting, at);
    if changed then History(h.states[w := row], h.transitions + [TransitionRow(h.nextId, w, row)], h.nextId + 1)
    else h.(states := h.states[w := row])
  }

  /**
    A contact timeout takes effect at the first instant at which the last contact is stale, and a return at the
    contact that caused it; between a contact and its timeout the contact keeps an unquarantined worker available.
  */
  lemma {:induction false} EffectiveWhenContactTurns(
    threshold: int, previous: Option<StateRow>, sighting: Option<Sighting>, at: int)
    requires (previous.Some? || sighting.Some?) && LastContact(previous, sighting).Some?
    requires Judge(RecentContact, threshold, previous, sighting, at).1
    ensures
      var row := Judge(RecentContact, threshold, previous, sighting, at).0;
      var contact := LastContact(previous, sighting).value;
      && (row.reason == ContactTimeout ==>
            forall x :: x < row.effectiveAt <==>
                IsAvailable(RecentContact, threshold, sighting.Some?, Some(contact), false, x))
      && (row.reason in {Online, Return} ==>
            && row.effectiveAt == contact && row.available
            && forall x :: contact <= x <= at ==>
                IsAvailable(RecentContact, threshold, sighting.Some?, Some(contact), false, x))
  {
  }

  // ----- The tables agree -----

  ghost predicate IsNewest(ts: seq<TransitionRow>, w: Worker, i: int) {
    && 0 <= i < |ts| && ts[i].worker == w
    && forall j :: i < j < |ts| ==> ts[j].worker != w
  }

  ghost predicate SameStatus(r: StateRow, t: StateRow) {
    && r.available == t.available && r.quarantined == t.quarantined
    && r.reason == t.reason && r.effectiveAt == t.effectiveAt
  }

  /** Each state row is explained by the worker's newest transition, and every transition's worker has a state. */
  ghost predicate StateMatchesHistory(h: History) {
    && (forall w :: w in h.states ==>
          exists i :: IsNewest(h.transitions, w, i) && SameStatus(h.states[w], h.transitions[i].row))
    && (forall i :: 0 <= i < |h.transitions| ==> h.transitions[i].worker in h.states)
  }

  ghost predicate Consecutive(ts: seq<TransitionRow>, i: int, j: int) {
    && 0 <= i < j < |ts| && ts[i].worker == ts[j].worker
    && forall k :: i < k < j ==> ts[k].worker != ts[j].worker
  }

  /** A transition of a worker always changes something. */
  ghost predicate NeverRepeats(h: History) {
    forall i, j :: Consecutive(h.transitions, i, j) ==>
      h.transitions[i].row.available != h.transitions[j].row.available
      || h.transitions[i].row.quarantined != h.transitions[j].row.quarantined
  }

  /** Ids follow insertion order, and nothing was observed after `now`. */
  ghost predicate InOrderUpTo(h: History, now: int) {
    && (forall i :: 0 <= i < |h.transitions| ==>
        h.transitions[i].id < h.nextId && h.transitions[i].row.observedAt <= now)
    && (forall i, j :: 0 <= i < j < |h.transitions| ==>
          h.transitions[i].id < h.transitions[j].id
              && h.transitions[i].row.observedAt <= h.transitions[j].row.observedAt)
    && (forall w :: w in h.states ==> h.states[w].observedAt <= now)
  }

  /** No contact lies in the future of its observation, and no quarantined worker is available. */
  ghost predicate Plausible(r: StateRow) {
    (r.lastContact.Some? ==> r.lastContact.value <= r.observedAt) && !(r.available && r.quarantined)
  }

  /** Rows are plausible, and no transition takes effect after it is observed. */
  ghost predicate NothingEarly(h: History) {
    && (forall w :: w in h.states ==> Plausible(h.states[w]))
    && (forall i :: 0 <= i < |h.transitions| ==> h.transitions[i].row.effectiveAt <= h.transitions[i].row.observedAt)
  }

  lemma {:induction false} NewHistoryAgrees()
    ensures StateMatchesHistory(NEW_HISTORY) && NeverRepeats(NEW_HISTORY) && NothingEarly(NEW_HISTORY)
    ensures forall now :: InOrderUpTo(NEW_HISTORY, now)
  {
  }

  lemma {:induction false} NewestAppend(ts: seq<TransitionRow>, t: TransitionRow, w: Worker, i: int)
    ensures IsNewest(ts + [t], w, i) <==> if t.worker == w then i == |ts| else IsNewest(ts, w, i)
  {
    var longer := ts + [t];
    assert longer[|ts|] == t;
    if IsNewest(longer, w, i) && t.worker != w {
      forall j | i < j < |ts| ensures ts[j].worker != w { assert longer[j] == ts[j]; }
    }
  }

  lemma {:induction false} StatesStayExplained(h: History, w: Worker, row: StateRow)
    requires StateMatchesHistory(h) && w in h.states && SameStatus(row, h.states[w])
    ensures StateMatchesHistory(h.(states := h.states[w := row]))
  {
  }

  lemma {:induction false} TransitionExplains(h: History, t: TransitionRow)
    requires StateMatchesHistory(h)
    ensures StateMatchesHistory(History(h.states[t.worker := t.row], h.transitions + [t], h.nextId + 1))
  {
    var h' := History(h.states[t.worker := t.row], h.transitions + [t], h.nextId + 1);
    forall w | w in h'.states
      ensures exists i :: IsNewest(h'.transitions, w, i) && SameStatus(h'.states[w], h'.transitions[i].row)
    {
      if w == t.worker {
        NewestAppend(h.transitions, t, w, |h.transitions|);
        assert h'.transitions[|h.transitions|] == t;
      } else {
        var i :| IsNewest(h.transitions, w, i) && SameStatus(h.states[w], h.transitions[i].row);
        NewestAppend(h.transitions, t, w, i);
        assert h'.transitions[i] == h.transitions[i];
      }
    }
  }

  lemma {:induction false} TransitionDiffers(h: History, t: TransitionRow)
    requires StateMatchesHistory(h) && NeverRepeats(h)
    requires t.worker in h.states ==>
      h.states[t.worker].available != t.row.available || h.states[t.worker].quarantined != t.row.quarantined
    ensures NeverRepeats(History(h.states[t.worker := t.row], h.transitions + [t], h.nextId + 1))
  {
    var ts := h.transitions + [t];
    forall i, j | Consecutive(ts, i, j)
      ensures ts[i].row.available != ts[j].row.available || ts[i].row.quarantined != ts[j].row.quarantined
    {
      if j < |h.transitions| {
        forall k | i < k < j ensures h.transitions[k].worker != h.transitions[j].worker {
          assert ts[k] == h.transitions[k];
        }
        assert Consecutive(h.transitions, i, j);
      } else {
        forall k | i < k < |h.transitions| ensures h.transitions[k].worker != t.worker {
          assert ts[k] == h.transitions[k];
        }
        var n :| IsNewest(h.transitions, t.worker, n) && SameStatus(h.states[t.worker], h.transitions[n].row);
        assert n == i by { assert IsNewest(h.transitions, t.worker, i); }
      }
    }
  }

  /**
    One observation keeps the tables in agreement: the state row follows the newest transition, no transition
    repeats the status before it, and the worker's last contact does not go back.
  */
  lemma {:induction false} RecordKeepsAgreement(
    h: History, w: Worker, mode: Mode, threshold: int, sighting: Option<Sighting>, at: int)
    requires w in h.states || sighting.Some?
    requires StateMatchesHistory(h) && NeverRepeats(h)
    ensures var h' := RecordOne(h, w, mode, threshold, sighting, at);
      && StateMatchesHistory(h') && NeverRepeats(h')
      && w in h'.states && h'.states == h.states[w := h'.states[w]]
      && (w in h.states && h.states[w].lastContact.Some? ==>
            h'.states[w].lastContact.Some? && h.states[w].lastContact.value <= h'.states[w].lastContact.value)
  {
    var (row, changed) := Judge(mode, threshold, Previous(h, w), sighting, at);
    if changed {
      TransitionExplains(h, TransitionRow(h.nextId, w, row));
      TransitionDiffers(h, TransitionRow(h.nextId, w, row));
    } else {
      StatesStayExplained(h, w, row);
    }
  }

  /** A sighting reports no contact after it is made. */
  predicate Timely(sighting: Option<Sighting>, at: int) {
    sighting.Some? && sighting.value.lastActive.Some? ==> sighting.value.lastActive.value <= at
  }

  lemma {:induction false} RecordKeepsOrder(
    h: History, w: Worker, mode: Mode, threshold: int, sighting: Option<Sighting>, now: int, at: int)
    requires w in h.states || sighting.Some?
    requires InOrderUpTo(h, now) && NothingEarly(h) && now <= at && Timely(sighting, at)
    ensures var h' := RecordOne(h, w, mode, threshold, sighting, at); InOrderUpTo(h', at) && NothingEarly(h')
  {
    JudgedTimely(mode, threshold, Previous(h, w), sighting, at);
  }

  lemma {:induction false} JudgedTimely(
    mode: Mode, threshold: int, previous: Option<StateRow>, sighting: Option<Sighting>, at: int)
    requires previous.Some? || sighting.Some?
    requires Timely(sighting, at)
    requires previous.Some? ==> previous.value.observedAt <= at
    requires previous.Some? ==> Plausible(previous.value)
    ensures var (row, changed) := Judge(mode, threshold, previous, sighting, at);
      && row.observedAt == at && Plausible(row)
      && (changed ==> row.effectiveAt <= at)
  {
  }

  // ----- Agreement with the resolver of utilization -----

  /** The transition rows as utilization reads them. */
  function Read(ts: seq<TransitionRow>): (r: seq<A.Transition>)
    ensures |r| == |ts|
    ensures forall i :: 0 <= i < |ts| ==>
      r[i] == A.Transition(ts[i].id, ts[i].worker, ts[i].row.available, ts[i].row.effectiveAt, ts[i].row.observedAt)
  {
    seq(|ts|, i requires 0 <= i < |ts| =>
      A.Transition(ts[i].id, ts[i].worker, ts[i].row.available, ts[i].row.effectiveAt, ts[i].row.observedAt))
  }

  /**
    From the last observation on, resolving the transitions for a worker gives what its state row says,
    provided no observation reported a contact in its own future.
  */
  lemma {:induction false} ResolverReadsState(h: History, w: Worker, now: int, x: int)
    requires StateMatchesHistory(h) && InOrderUpTo(h, now) && NothingEarly(h) && w in h.states && now <= x
    ensures A.AvailableAt(Read(h.transitions), w, x) <==> h.states[w].available
  {
    var ts := Read(h.transitions);
    var n :| IsNewest(h.transitions, w, n) && SameStatus(h.states[w], h.transitions[n].row);
    NewestGoverns(h, w, n, now, x);
    ReadDistinct(h, now);
    forall e | A.Governs(ts, w, x, e) ensures e == ts[n] { A.GovernsUnique(ts, w, x, e, ts[n]); }
  }

  lemma {:induction false} NewestGoverns(h: History, w: Worker, n: nat, now: int, x: int)
    requires InOrderUpTo(h, now) && NothingEarly(h) && now <= x && IsNewest(h.transitions, w, n)
    ensures A.Governs(Read(h.transitions), w, x, Read(h.transitions)[n])
  {
    var ts := Read(h.transitions);
    forall j | 0 <= j < |ts| && ts[j].worker == w ensures A.KeyLeq(ts[j], ts[n]) {
      assert h.transitions[j].worker == w;
      assert j <= n;
      assert j < n ==> h.transitions[j].id < h.transitions[n].id;
    }
    assert ts[n] in ts;
  }

  lemma {:induction false} ReadDistinct(h: History, now: int)
    requires InOrderUpTo(h, now)
    ensures A.DistinctIds(Read(h.transitions))
  {
    var ts := Read(h.transitions);
    forall i, j | 0 <= i < j < |ts| ensures ts[i].id < ts[j].id {
      assert h.transitions[i].id < h.transitions[j].id;
    }
    forall a, b | a in ts && b in ts && a.id == b.id ensures a == b {
      var i :| 0 <= i < |ts| && ts[i] == a;
      var j :| 0 <= j < |ts| && ts[j] == b;
    }
  }

  /** The history is in order up to now, and no contact was in the future. */
  ghost predicate OnTime(h: History, now: int) { InOrderUpTo(h, now) && NothingEarly(h) }

  ghost predicate AllTimely(sightings: map<Worker, Sighting>, at: int) {
    forall w :: w in sightings ==> Timely(Some(sightings[w]), at)
  }

  lemma {:induction false} RecordKeepsOnTime(
    h: History, w: Worker, mode: Mode, threshold: int, sighting: Option<Sighting>, at: int)
    requires w in h.states || sighting.Some?
    ensures OnTime(h, at) && Timely(sighting, at) ==> OnTime(RecordOne(h, w, mode, threshold, sighting, at), at)
  {
    if OnTime(h, at) && Timely(sighting, at) { RecordKeepsOrder(h, w, mode, threshold, sighting, at, at); }
  }

  /** The utilization resolver reads every worker's state off the transitions. */
  ghost predicate ReadsState(h: History, now: int) {
    forall w :: w in h.states ==> (A.AvailableAt(Read(h.transitions), w, now) <==> h.states[w].available)
  }

  lemma {:induction false} OnTimeReadsState(h: History, now: int)
    requires StateMatchesHistory(h) && OnTime(h, now)
    ensures ReadsState(h, now)
  {
    forall w | w in h.states ensures A.AvailableAt(Read(h.transitions), w, now) <==> h.states[w].available {
      ResolverReadsState(h, w, now, now);
    }
  }

  // ----- Whole runs -----

  datatype Event =
    | Seen(worker: Worker, mode: Mode, threshold: int, sighting: Option<Sighting>, at: int)
    | Reset

  predicate Applicable(h: History, e: Event) {
    e.Seen? ==> e.worker in h.states || e.sighting.Some?
  }

  function Step(h: History, e: Event): History
    requires Applicable(h, e)
  {
    match e
    case Seen(w, mode, threshold, sighting, at) => RecordOne(h, w, mode, threshold, sighting, at)
    case Reset => History(map[], [], h.nextId)
  }

  /** Histories `hs` produced one event at a time, from the empty one. */
  ghost predicate IsRun(hs: seq<History>, events: seq<Event>) {
    && |hs| == |events| + 1 && hs[0] == NEW_HISTORY
    && forall i :: 0 <= i < |events| ==> Applicable(hs[i], events[i]) && hs[i + 1] == Step(hs[i], events[i])
  }

  /** The clock of the observations up to a point. */
  ghost predicate ClockUpTo(events: seq<Event>, n: nat, now: int)
    requires n <= |events|
  {
    && (forall i :: 0 <= i < n && events[i].Seen? ==> events[i].at <= now && Timely(events[i].sighting, events[i].at))
    && (forall i, j :: 0 <= i < j < n && events[i].Seen? && events[j].Seen? ==> events[i].at <= events[j].at)
  }

  /** In every reachable state, whatever the sightings and mode changes, the state table agrees with the history. */
  lemma {:induction false} AlwaysAgrees(hs: seq<History>, events: seq<Event>, n: nat)
    requires IsRun(hs, events) && n < |hs|
    ensures StateMatchesHistory(hs[n]) && NeverRepeats(hs[n])
  {
    if n == 0 {
      NewHistoryAgrees();
    } else {
      AlwaysAgrees(hs, events, n - 1);
      match events[n - 1]
      case Seen(w, mode, threshold, sighting, at) => RecordKeepsAgreement(hs[n - 1], w, mode, threshold, sighting, at);
      case Reset =>
    }
  }

  lemma {:induction false} AlwaysInOrder(hs: seq<History>, events: seq<Event>, n: nat, now: int)
    requires IsRun(hs, events) && n < |hs| && ClockUpTo(events, n, now)
    ensures InOrderUpTo(hs[n], now) && NothingEarly(hs[n])
  {
    if n == 0 {
      NewHistoryAgrees();
    } else {
      match events[n - 1]
      case Seen(w, mode, threshold, sighting, at) =>
        assert ClockUpTo(events, n - 1, at);
        AlwaysInOrder(hs, events, n - 1, at);
        RecordKeepsOrder(hs[n - 1], w, mode, threshold, sighting, at, at);
      case Reset =>
        assert ClockUpTo(events, n - 1, now);
        AlwaysInOrder(hs, events, n - 1, now);
    }
  }

  /**
    In every reachable state of a run with a forward clock and no contact in the future, the utilization
    resolver at the observation time returns the state row's availability.
  */
  lemma {:induction false} AlwaysReadsState(hs: seq<History>, events: seq<Event>, n: nat, now: int, w: Worker)
    requires IsRun(hs, events) && n < |hs| && ClockUpTo(events, n, now) && w in hs[n].states
    ensures A.AvailableAt(Read(hs[n].transitions), w, now) <==> hs[n].states[w].available
  {
    AlwaysAgrees(hs, events, n);
    AlwaysInOrder(hs, events, n, now);
    ResolverReadsState(hs[n], w, now, now);
  }

  // ----- The recorder -----

  function Lookup<T>(m: map<Worker, T>, w: Worker): Option<T> { if w in m then Some(m[w]) else None }

  /** What one worker-list observation should leave for a worker. */
  function Target(
    before: map<Worker, StateRow>, sightings: map<Worker, Sighting>, mode: Mode, threshold: int, at: int,
    w: Worker): StateRow
    requires w in before || w in sightings
  {
    Judge(mode, threshold, Lookup(before, w), Lookup(sightings, w), at).0
  }

  /** Every worker known or listed is judged, except those still to do, which are as before. */
  ghost predicate JudgedExcept(
    before: map<Worker, StateRow>, states: map<Worker, StateRow>, sightings: map<Worker, Sighting>,
    mode: Mode, threshold: int, at: int, todo: set<Worker>)
  {
    && (forall w :: w in states <==> w in before || (w in sightings && w !in todo))
    && (forall w :: w in todo ==> Lookup(states, w) == Lookup(before, w))
    && (forall w :: w in states && w !in todo ==>
          (w in before || w in sightings) && states[w] == Target(before, sightings, mode, threshold, at, w))
  }

  lemma {:induction false} JudgedOne(
    before: map<Worker, StateRow>, states: map<Worker, StateRow>, sightings: map<Worker, Sighting>,
    mode: Mode, threshold: int, at: int, todo: set<Worker>, w: Worker)
    requires JudgedExcept(before, states, sightings, mode, threshold, at, todo)
    requires w in todo && (w in before || w in sightings)
    ensures (w in states || Lookup(sightings, w).Some?) && Lookup(states, w) == Lookup(before, w)
    ensures JudgedExcept(before, states[w := Judge(mode, threshold, Lookup(states, w), Lookup(sightings, w), at).0],
                         sightings, mode, threshold, at, todo - {w})
  {
  }

  predicate IsChange(
    before: map<Worker, StateRow>, sightings: map<Worker, Sighting>, mode: Mode, threshold: int, at: int, w: Worker)
    requires w in before || w in sightings
  {
    Judge(mode, threshold, Lookup(before, w), Lookup(sightings, w), at).1
  }

  /** The new transitions are the changes of the workers done, one each, numbered on. */
  ghost predicate AppendedExcept(
    before: map<Worker, StateRow>, added: seq<TransitionRow>, sightings: map<Worker, Sighting>,
    mode: Mode, threshold: int, at: int, firstId: nat, todo: set<Worker>)
  {
    && (forall i :: 0 <= i < |added| ==>
          && added[i].id == firstId + i && added[i].worker !in todo
          && (added[i].worker in before || added[i].worker in sightings)
          && IsChange(before, sightings, mode, threshold, at, added[i].worker)
          && added[i].row == Target(before, sightings, mode, threshold, at, added[i].worker))
    && (forall i, j :: 0 <= i < j < |added| ==> added[i].worker != added[j].worker)
    && (forall w :: (w in before || w in sightings) && w !in todo && IsChange(before, sightings, mode, threshold, at, w)
          ==> exists i :: 0 <= i < |added| && added[i].worker == w)
  }

  lemma {:induction false} AppendedOne(
    before: map<Worker, StateRow>, added: seq<TransitionRow>, row: TransitionRow, changed: bool,
    sightings: map<Worker, Sighting>, mode: Mode, threshold: int, at: int, firstId: nat, todo: set<Worker>, w: Worker)
    requires AppendedExcept(before, added, sightings, mode, threshold, at, firstId, todo)
    requires w in todo && (w in before || w in sightings)
    requires changed == IsChange(before, sightings, mode, threshold, at, w)
    requires changed ==> row.id == firstId + |added| && row.worker == w
    requires changed ==> row.row == Target(before, sightings, mode, threshold, at, w)
    ensures
      var added' := added + if changed then [row] else [];
      AppendedExcept(before, added', sightings, mode, threshold, at, firstId, todo - {w})
  {
    var added' := added + if changed then [row] else [];
    forall v | (v in before || v in sightings) && v !in todo - {w}
        && IsChange(before, sightings, mode, threshold, at, v)
      ensures exists i :: 0 <= i < |added'| && added'[i].worker == v
    {
      if v == w { assert added'[|added|].worker == w; }
      if v != w {
        var i :| 0 <= i < |added| && added[i].worker == v;
        assert added'[i].worker == v;
      }
    }
  }

  /** The workers from number `k` on. */
  ghost function Rest(ordered: seq<Worker>, k: nat): set<Worker>
    requires k <= |ordered|
  {
    set i | k <= i < |ordered| :: ordered[i]
  }

  lemma {:induction false} OneLess(ordered: seq<Worker>, k: nat)
    requires k < |ordered| && Distinct(ordered)
    ensures Rest(ordered, k) - {ordered[k]} == Rest(ordered, k + 1) && ordered[k] in Rest(ordered, k)
  {
    var next := k + 1;
    forall w ensures w in Rest(ordered, k) && w != ordered[k] <==> w in Rest(ordered, next) {}
  }

  ghost predicate InWorkerOrder(added: seq<TransitionRow>) {
    forall i, j :: 0 <= i < j < |added| ==> StringLeq(added[i].worker, added[j].worker)
  }

  /** The transitions added so far come in worker order and before those of the workers to come. */
  ghost predicate OrderedUpTo(added: seq<TransitionRow>, ordered: seq<Worker>, k: nat) {
    && InWorkerOrder(added)
    && forall i, j :: 0 <= i < |added| && k <= j < |ordered| ==> StringLeq(added[i].worker, ordered[j])
  }

  lemma {:induction false} NextInOrder(
    added: seq<TransitionRow>, row: TransitionRow, changed: bool, ordered: seq<Worker>, k: nat)
    requires OrderedUpTo(added, ordered, k) && SortedBy(ordered, StringLeq) && k < |ordered| && row.worker == ordered[k]
    ensures OrderedUpTo(added + if changed then [row] else [], ordered, k + 1)
  {
    var added', next := added + if changed then [row] else [], k + 1;
    forall i, j | 0 <= i < |added'| && next <= j < |ordered| ensures StringLeq(added'[i].worker, ordered[j]) {
      assert i < |added| ==> added'[i] == added[i];
    }
  }

  /** A pass over the first `k` workers in order, from the states before it. */
  ghost predicate PassUpTo(
    before: map<Worker, StateRow>, states: map<Worker, StateRow>, added: seq<TransitionRow>,
    sightings: map<Worker, Sighting>, mode: Mode, threshold: int, at: int, firstId: nat, ordered: seq<Worker>, k: nat)
  {
    && k <= |ordered|
    && JudgedExcept(before, states, sightings, mode, threshold, at, Rest(ordered, k))
    && AppendedExcept(before, added, sightings, mode, threshold, at, firstId, Rest(ordered, k))
    && OrderedUpTo(added, ordered, k)
  }

  lemma {:induction false} PassStarts(
    states: map<Worker, StateRow>, sightings: map<Worker, Sighting>, mode: Mode, threshold: int, at: int, firstId: nat,
    ordered: seq<Worker>)
    requires forall w :: w in ordered <==> w in states || w in sightings
    ensures PassUpTo(states, states, [], sightings, mode, threshold, at, firstId, ordered, 0)
  {
    forall w ensures w in Rest(ordered, 0) <==> w in states || w in sightings {
      assert w in Rest(ordered, 0) <==> w in ordered;
    }
  }

  lemma {:induction false} PassEnds(
    before: map<Worker, StateRow>, states: map<Worker, StateRow>, added: seq<TransitionRow>,
    sightings: map<Worker, Sighting>, mode: Mode, threshold: int, at: int, firstId: nat, ordered: seq<Worker>)
    requires PassUpTo(before, states, added, sightings, mode, threshold, at, firstId, ordered, |ordered|)
    ensures JudgedExcept(before, states, sightings, mode, threshold, at, {})
    ensures AppendedExcept(before, added, sightings, mode, threshold, at, firstId, {}) && InWorkerOrder(added)
  {
    assert Rest(ordered, |ordered|) == {};
  }

  // ----- What an observation says of a worker, told by its state before and its sighting -----

  /** The last contact is the later of the one known and the one sighted. */
  ghost predicate LaterContact(before: Option<StateRow>, sighting: Option<Sighting>, contact: Option<int>) {
    var known := if before.Some? then before.value.lastContact else None;
    var sighted := if sighting.Some? then sighting.value.lastActive else None;
    && (contact == None <==> known == None && sighted == None)
    && (contact.Some? ==>
          && (contact == known || contact == sighted)
          && (known.Some? ==> known.value <= contact.value) && (sighted.Some? ==> sighted.value <= contact.value))
  }

  /** The contact, the quarantine and the availability an observation gives a worker. */
  ghost predicate Observes(
    before: Option<StateRow>, sighting: Option<Sighting>, mode: Mode, threshold: int, at: int, row: StateRow)
  {
    && LaterContact(before, sighting, row.lastContact)
    && (sighting.Some? ==> row.quarantineUntil == sighting.value.quarantineUntil)
    && (sighting == None && before.Some? ==> row.quarantineUntil == before.value.quarantineUntil)
    && (row.quarantined <==> row.quarantineUntil.Some? && at < row.quarantineUntil.value)
    && (mode == Listed ==> (row.available <==> sighting.Some? && !row.quarantined))
    && (mode == RecentContact ==>
          (row.available <==> row.lastContact.Some? && at < row.lastContact.value + threshold && !row.quarantined))
    && row.observedAt == at
  }

  ghost predicate StatusChanges(before: Option<StateRow>, row: StateRow) {
    before == None || before.value.available != row.available || before.value.quarantined != row.quarantined
  }

  /** The quarantine decides the change: it begins or ends, or a new worker is in it. */
  ghost predicate QuarantineTurns(before: Option<StateRow>, row: StateRow) {
    if before == None then row.quarantined else before.value.quarantined != row.quarantined
  }

  /** Why a status changes and from when on; an unchanged one keeps both. */
  ghost predicate Explains(before: Option<StateRow>, mode: Mode, threshold: int, at: int, row: StateRow) {
    if !StatusChanges(before, row) then row.reason == before.value.reason && row.effectiveAt == before.value.effectiveAt
    else if QuarantineTurns(before, row) then
      row.reason == (if row.quarantined then Quarantine else Unquarantine) && row.effectiveAt == at
    else if mode == Listed then
      row.reason == (if row.available then ListedReason else NotListed) && row.effectiveAt == at
    else if row.available then
      && row.reason == (if before == None then Online else Return)
      && row.lastContact.Some? && row.effectiveAt == row.lastContact.value
    else
      && row.reason == ContactTimeout
      && row.effectiveAt == (if row.lastContact.Some? then row.lastContact.value + threshold else at)
  }

  lemma {:induction false} JudgeObserves(
    mode: Mode, threshold: int, before: Option<StateRow>, sighting: Option<Sighting>, at: int)
    requires before.Some? || sighting.Some?
    ensures
      var (row, changed) := Judge(mode, threshold, before, sighting, at);
      && Observes(before, sighting, mode, threshold, at, row) && Explains(before, mode, threshold, at, row)
      && (changed <==> StatusChanges(before, row))
  {
  }

  /** Every worker known or sighted is observed, and the new transitions are the rows whose status changes. */
  ghost predicate ObservesAll(
    before: map<Worker, StateRow>, states: map<Worker, StateRow>, added: seq<TransitionRow>,
    sightings: map<Worker, Sighting>, mode: Mode, threshold: int, at: int)
  {
    && (forall w :: w in states <==> w in before || w in sightings)
    && (forall w :: w in states ==>
          && Observes(Lookup(before, w), Lookup(sightings, w), mode, threshold, at, states[w])
          && Explains(Lookup(before, w), mode, threshold, at, states[w]))
    && (forall i :: 0 <= i < |added| ==> added[i].worker in states && added[i].row == states[added[i].worker])
    && (forall w :: w in states ==>
          (StatusChanges(Lookup(before, w), states[w]) <==> exists i :: 0 <= i < |added| && added[i].worker == w))
  }

  lemma {:induction false} PassObservesAll(
    before: map<Worker, StateRow>, states: map<Worker, StateRow>, added: seq<TransitionRow>,
    sightings: map<Worker, Sighting>, mode: Mode, threshold: int, at: int, firstId: nat)
    requires JudgedExcept(before, states, sightings, mode, threshold, at, {})
    requires AppendedExcept(before, added, sightings, mode, threshold, at, firstId, {})
    ensures ObservesAll(before, states, added, sightings, mode, threshold, at)
  {
    forall w | w in states
      ensures Observes(Lookup(before, w), Lookup(sightings, w), mode, threshold, at, states[w])
      ensures Explains(Lookup(before, w), mode, threshold, at, states[w])
      ensures StatusChanges(Lookup(before, w), states[w]) <==> IsChange(before, sightings, mode, threshold, at, w)
    {
      JudgeObserves(mode, threshold, Lookup(before, w), Lookup(sightings, w), at);
    }
  }

  class Recorder {
    var states: map<Worker, StateRow>
    var transitions: seq<TransitionRow>
    var nextId: nat
    var mode: Option<Mode>
    var coverage: C.Recorder

    ghost function Tables(): History reads this { History(states, transitions, nextId) }

    ghost predicate Valid() reads this { StateMatchesHistory(Tables()) && NeverRepeats(Tables()) }

    constructor ()
      ensures Valid() && Tables() == NEW_HISTORY && mode == None && coverage == C.EMPTY
    {
      states, transitions, nextId, mode, coverage := map[], [], 1, None, C.EMPTY;
      new;
      NewHistoryAgrees();
    }

    /** `ensure_worker_availability_mode`: a cutover resets both tables and the coverage together. */
    method EnsureMode(wanted: Mode) returns (reset: bool)
      requires Valid()
      modifies this
      ensures Valid() && mode == Some(wanted)
      ensures reset == (if old(mode) == None then wanted == Listed else old(mode) != Some(wanted))
      ensures reset ==> Tables() == Step(old(Tables()), Reset) && coverage == C.EMPTY
      ensures reset ==> forall now :: OnTime(Tables(), now)
      ensures !reset ==> Tables() == old(Tables()) && coverage == old(coverage)
    {
      reset := (mode == None && wanted == Listed) || (mode.Some? && mode.value != wanted);
      if reset { coverage, states, transitions := C.EMPTY, map[], []; }
      mode := Some(wanted);
    }

    /** One worker of `_record_worker_availability`. */
    method RecordWorker(w: Worker, wanted: Mode, threshold: int, sighting: Option<Sighting>, at: int)
      returns (changed: bool)
      requires Valid() && (w in states || sighting.Some?)
      modifies this`states, this`transitions, this`nextId
      ensures Valid() && Tables() == RecordOne(old(Tables()), w, wanted, threshold, sighting, at)
      ensures states == old(states)[w := Judge(wanted, threshold, Lookup(old(states), w), sighting, at).0]
      ensures changed == Judge(wanted, threshold, Lookup(old(states), w), sighting, at).1
      ensures transitions == old(transitions) + if changed then [TransitionRow(old(nextId), w, states[w])] else []
      ensures nextId == old(nextId) + if changed then 1 else 0
      ensures old(OnTime(Tables(), at)) && Timely(sighting, at) ==> OnTime(Tables(), at)
    {
      ghost var h := Tables();
      var (row, isChange) := Judge(wanted, threshold, Lookup(states, w), sighting, at);
      changed := isChange;
      if changed {
        transitions := transitions + [TransitionRow(nextId, w, row)];
        nextId := nextId + 1;
      }
      states := states[w := row];
      assert Tables() == RecordOne(h, w, wanted, threshold, sighting, at);
      RecordKeepsAgreement(h, w, wanted, threshold, sighting, at);
      RecordKeepsOnTime(h, w, wanted, threshold, sighting, at);
    }

    /** The next worker of a pass that started from `before` and has appended `added` to `written`. */
    method RecordNext(
      sightings: map<Worker, Sighting>, wanted: Mode, threshold: int, at: int, ordered: seq<Worker>, k: nat,
      ghost before: map<Worker, StateRow>, ghost written: seq<TransitionRow>, ghost added: seq<TransitionRow>,
      ghost firstId: nat)
      returns (changed: bool, ghost added': seq<TransitionRow>)
      requires Valid() && k < |ordered| && Distinct(ordered) && SortedBy(ordered, StringLeq)
      requires forall w :: w in ordered <==> w in before || w in sightings
      requires transitions == written + added && nextId == firstId + |added|
      requires PassUpTo(before, states, added, sightings, wanted, threshold, at, firstId, ordered, k)
      modifies this`states, this`transitions, this`nextId
      ensures Valid() && |added'| == |added| + if changed then 1 else 0
      ensures transitions == written + added' && nextId == firstId + |added'|
      ensures old(OnTime(Tables(), at)) && AllTimely(sightings, at) ==> OnTime(Tables(), at)
      ensures PassUpTo(before, states, added', sightings, wanted, threshold, at, firstId, ordered, k + 1)
    {
      var w := ordered[k];
      ghost var id, todo := nextId, Rest(ordered, k);
      OneLess(ordered, k);
      JudgedOne(before, states, sightings, wanted, threshold, at, todo, w);
      changed := RecordWorker(w, wanted, threshold, Lookup(sightings, w), at);
      ghost var row := TransitionRow(id, w, states[w]);
      AppendedOne(before, added, row, changed, sightings, wanted, threshold, at, firstId, todo, w);
      NextInOrder(added, row, changed, ordered, k);
      added' := added + if changed then [row] else [];
      Associates(written, added, if changed then [row] else []);
    }

    /**
      `_record_worker_availability`: in worker order, every known or listed worker is judged once against the state
      before, and exactly the changes become transitions.
    */
    method RecordWorkerAvailability(sightings: map<Worker, Sighting>, wanted: Mode, threshold: int, at: int)
      returns (count: nat)
      requires Valid()
      modifies this`states, this`transitions, this`nextId
      ensures Valid() && JudgedExcept(old(states), states, sightings, wanted, threshold, at, {})
      ensures count == |transitions| - |old(transitions)| && old(transitions) <= transitions
      ensures AppendedExcept(
                old(states), transitions[|old(transitions)|..], sightings, wanted, threshold, at, old(nextId), {})
      ensures InWorkerOrder(transitions[|old(transitions)|..])
      ensures nextId == old(nextId) + count
      ensures ObservesAll(
                old(states), states, transitions[|old(transitions)|..], sightings, wanted, threshold, at)
      ensures old(OnTime(Tables(), at)) && AllTimely(sightings, at) ==> OnTime(Tables(), at) && ReadsState(Tables(), at)
    {
      count := 0;
      ghost var before, added := states, [];
      var ordered := SortedNames(states.Keys + sightings.Keys);
      PassStarts(states, sightings, wanted, threshold, at, nextId, ordered);
      for k := 0 to |ordered|
        invariant Valid() && PassUpTo(before, states, added, sightings, wanted, threshold, at, old(nextId), ordered, k)
        invariant transitions == old(transitions) + added && count == |added| && nextId == old(nextId) + count
        invariant old(OnTime(Tables(), at)) && AllTimely(sightings, at) ==> OnTime(Tables(), at)
      {
        var changed;
        changed, added :=
          RecordNext(sightings, wanted, threshold, at, ordered, k, before, old(transitions), added, old(nextId));
        if changed { count := count + 1; }
      }
      PassEnds(before, states, added, sightings, wanted, threshold, at, old(nextId), ordered);
      PassObservesAll(before, states, added, sightings, wanted, threshold, at, old(nextId));
      if OnTime(Tables(), at) { OnTimeReadsState(Tables(), at); }
    }
  }
}
