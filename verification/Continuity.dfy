/** Whether consecutive recent-task windows of a worker prove that nothing was missed in between. */
module Continuity {
  import opened Wrappers
  import opened Pool
  import opened TaskRuns

  const DORMANT_REACTIVATION: int := 24 * 60 * 60 * 1000000
  const WINDOW_LIMIT := 20
  const INTERRUPTION_COHORT := 5

  datatype Fetched = Fetched(worker: Worker, recent: seq<Ref>)

  ghost predicate Disjoint(s: seq<Ref>, t: seq<Ref>) {
    forall ref :: ref in s ==> ref !in t
  }

  /** `_recent_task_window_continuity`: no baseline, an overlap (or an idle worker before), or a gap. */
  function WindowContinuity(previous: Option<StoredWindow>, current: seq<Ref>): (verdict: Option<bool>)
    ensures verdict == None <==> previous == None
    ensures verdict == Some(false) <==>
      previous.Some? && previous.value.recent != [] && Disjoint(previous.value.recent, current)
  {
    if previous == None then None
    else
      var before := set ref | ref in previous.value.recent;
      var overlap := set ref | ref in before && ref in current;
      assert previous.value.recent != [] ==> previous.value.recent[0] in before;
      assert forall ref :: ref in overlap <==> ref in previous.value.recent && ref in current;
      assert Disjoint(previous.value.recent, current) ==> overlap == {};
      assert overlap == {} ==> forall ref :: ref in previous.value.recent && ref in current ==> ref in overlap;
      Some(before == {} || overlap != {})
  }

  /** `_is_devicepool_dormant_reactivation`. */
  predicate DormantReactivation(mode: Mode, previous: Option<StoredWindow>, current: seq<Ref>, at: int) {
    && mode == Listed && previous.Some?
    && at - previous.value.observedAt >= DORMANT_REACTIVATION
    && |previous.value.recent| >= WINDOW_LIMIT
    && |current| == 1
  }

  datatype Scan = Scan(
    windows: map<Worker, StoredWindow>, continuity: map<Worker, Option<bool>>, dormant: set<Worker>, observed: bool)

  function Previous(windows: map<Worker, StoredWindow>, w: Worker): Option<StoredWindow> {
    if w in windows then Some(windows[w]) else None
  }

  function ScanOne(s: Scan, f: Fetched, mode: Mode, at: int): Scan {
    var windows := s.windows[f.worker := StoredWindow(at, f.recent)];
    if f.recent == [] then s.(windows := windows)
    else
      var previous := Previous(s.windows, f.worker);
      var verdict := WindowContinuity(previous, f.recent);
      Scan(windows, s.continuity[f.worker := verdict],
           if verdict == Some(false) && DormantReactivation(mode, previous, f.recent, at)
           then s.dormant + {f.worker} else s.dormant,
           true)
  }

  function ScanAll(windows: map<Worker, StoredWindow>, fetched: seq<Fetched>, mode: Mode, at: int): Scan {
    if fetched == [] then Scan(windows, map[], {}, false)
    else ScanOne(ScanAll(windows, fetched[..|fetched| - 1], mode, at), fetched[|fetched| - 1], mode, at)
  }

  function Interrupted(s: Scan): set<Worker> { set w | w in s.continuity && s.continuity[w] == Some(false) }

  /** A cohort of reset windows is an interruption; fewer may be workers waking up, if they look dormant. */
  function Verdicts(s: Scan): map<Worker, Option<bool>> {
    var interrupted := Interrupted(s);
    map w | w in s.continuity ::
      if s.continuity[w] == Some(false) && w in s.dormant && |interrupted| < INTERRUPTION_COHORT then Some(true)
      else s.continuity[w]
  }

  predicate Continuous(verdicts: map<Worker, Option<bool>>) {
    forall w :: w in verdicts ==> verdicts[w] != Some(false)
  }

  // ----- What a scan says of one worker -----

  // A worker may be listed more than once in a pass. Each of its windows is then judged against the one before it,
  // and the last non-empty one decides.

  /** The last window fetched for a worker, if one was. */
  ghost function WindowOf(fetched: seq<Fetched>, w: Worker): Option<seq<Ref>> {
    if fetched == [] then None
    else if fetched[|fetched| - 1].worker == w then Some(fetched[|fetched| - 1].recent)
    else WindowOf(fetched[..|fetched| - 1], w)
  }

  lemma {:induction false} WindowOfFetched(fetched: seq<Fetched>, w: Worker)
    ensures WindowOf(fetched, w).Some? <==> exists i :: 0 <= i < |fetched| && fetched[i].worker == w
  {
    if fetched == [] {
    } else {
      var init := fetched[..|fetched| - 1];
      WindowOfFetched(init, w);
      assert forall i :: 0 <= i < |init| ==> init[i] == fetched[i];
    }
  }

  /** The position of the first window fetched for a worker, if one was. */
  ghost function FirstOf(fetched: seq<Fetched>, w: Worker): (k: Option<nat>)
    ensures k.Some? ==> k.value < |fetched| && fetched[k.value].worker == w
    ensures k.Some? ==> forall i :: 0 <= i < k.value ==> fetched[i].worker != w
    ensures k == None ==> forall i :: 0 <= i < |fetched| ==> fetched[i].worker != w
  {
    if fetched == [] then None
    else
      var k := FirstOf(fetched[..|fetched| - 1], w);
      if k.Some? then k else if fetched[|fetched| - 1].worker == w then Some(|fetched| - 1) else None
  }

  /** The position of the last non-empty window fetched for a worker, if one was. */
  ghost function LastOf(fetched: seq<Fetched>, w: Worker): (k: Option<nat>)
    ensures k.Some? ==> k.value < |fetched| && fetched[k.value].worker == w && fetched[k.value].recent != []
    ensures forall i :: 0 <= i < |fetched| && fetched[i].worker == w && fetched[i].recent != [] ==>
              k.Some? && i <= k.value
  {
    if fetched == [] then None
    else if fetched[|fetched| - 1].worker == w && fetched[|fetched| - 1].recent != [] then Some(|fetched| - 1)
    else LastOf(fetched[..|fetched| - 1], w)
  }

  /** What is stored for a worker when the given window is the last one fetched in a pass that started from `before`. */
  ghost function Stored(before: Option<StoredWindow>, window: Option<seq<Ref>>, at: int): Option<StoredWindow> {
    if window == None then before else Some(StoredWindow(at, window.value))
  }

  /** What is stored for a worker just before window number `k`. */
  ghost function StoredAt(
    before: Option<StoredWindow>, fetched: seq<Fetched>, at: int, w: Worker, k: nat): Option<StoredWindow>
    requires k <= |fetched|
  {
    Stored(before, WindowOf(fetched[..k], w), at)
  }

  /**
    Window number `k` is a non-empty one of the worker, and shares no run with the non-empty one stored just before.
  */
  ghost predicate GapAt(before: Option<StoredWindow>, fetched: seq<Fetched>, at: int, w: Worker, k: nat)
    requires k < |fetched|
  {
    && fetched[k].worker == w && fetched[k].recent != []
    && WindowContinuity(StoredAt(before, fetched, at, w, k), fetched[k].recent) == Some(false)
  }

  /** The worker's last non-empty window is a gap. */
  ghost predicate LastIsGap(before: Option<StoredWindow>, fetched: seq<Fetched>, at: int, w: Worker) {
    LastOf(fetched, w).Some? && GapAt(before, fetched, at, w, LastOf(fetched, w).value)
  }

  ghost predicate WakesAt(before: Option<StoredWindow>, fetched: seq<Fetched>, mode: Mode, at: int, w: Worker, k: nat)
    requires k < |fetched|
  {
    && GapAt(before, fetched, at, w, k)
    && DormantReactivation(mode, StoredAt(before, fetched, at, w, k), fetched[k].recent, at)
  }

  /** Some gap of the worker looks like a dormant worker waking up. */
  ghost predicate WakesUp(before: Option<StoredWindow>, fetched: seq<Fetched>, mode: Mode, at: int, w: Worker) {
    exists k :: 0 <= k < |fetched| && WakesAt(before, fetched, mode, at, w, k)
  }

  /** What a scan stores for a worker, and how it judges it. */
  ghost predicate Judges(
    s: Scan, before: Option<StoredWindow>, fetched: seq<Fetched>, mode: Mode, at: int, w: Worker)
  {
    && Previous(s.windows, w) == Stored(before, WindowOf(fetched, w), at)
    && (w in s.continuity <==> LastOf(fetched, w).Some?)
    && (w in s.continuity ==>
          var k := LastOf(fetched, w).value;
          s.continuity[w] == WindowContinuity(StoredAt(before, fetched, at, w, k), fetched[k].recent))
    && (w in s.dormant <==> WakesUp(before, fetched, mode, at, w))
  }

  lemma {:induction false} ScanJudges(
    windows: map<Worker, StoredWindow>, fetched: seq<Fetched>, mode: Mode, at: int, w: Worker)
    ensures Judges(ScanAll(windows, fetched, mode, at), Previous(windows, w), fetched, mode, at, w)
  {
    if fetched == [] {
    } else {
      var init, last := fetched[..|fetched| - 1], fetched[|fetched| - 1];
      ScanJudges(windows, init, mode, at, w);
      WakesStep(Previous(windows, w), fetched, mode, at, w);
      if last.worker != w || last.recent == [] { LastOfInit(fetched, w); }
    }
  }

  lemma {:induction false} LastOfInit(fetched: seq<Fetched>, w: Worker)
    requires fetched != [] && (fetched[|fetched| - 1].worker != w || fetched[|fetched| - 1].recent == [])
    ensures LastOf(fetched, w) == LastOf(fetched[..|fetched| - 1], w)
    ensures LastOf(fetched, w).Some? ==>
      fetched[..LastOf(fetched, w).value] == fetched[..|fetched| - 1][..LastOf(fetched, w).value]
  {
  }

  lemma {:induction false} WakesStep(
    before: Option<StoredWindow>, fetched: seq<Fetched>, mode: Mode, at: int, w: Worker)
    requires fetched != []
    ensures WakesUp(before, fetched, mode, at, w) <==>
      WakesUp(before, fetched[..|fetched| - 1], mode, at, w) || WakesAt(before, fetched, mode, at, w, |fetched| - 1)
  {
    var init := fetched[..|fetched| - 1];
    forall k | 0 <= k < |init|
      ensures WakesAt(before, fetched, mode, at, w, k) <==> WakesAt(before, init, mode, at, w, k)
    {
      assert init[..k] == fetched[..k];
    }
  }

  /**
    Only the first window of a pass can look like a worker waking up: those before a later one are of the same time.
  */
  lemma {:induction false} WakesOnlyFirst(
    before: Option<StoredWindow>, fetched: seq<Fetched>, mode: Mode, at: int, w: Worker)
    ensures WakesUp(before, fetched, mode, at, w) <==>
      FirstOf(fetched, w).Some? && WakesAt(before, fetched, mode, at, w, FirstOf(fetched, w).value)
  {
    var first := FirstOf(fetched, w);
    forall k | 0 <= k < |fetched| && WakesAt(before, fetched, mode, at, w, k) ensures first == Some(k) {
      WindowOfFetched(fetched[..k], w);
      assert forall i :: 0 <= i < k ==> fetched[..k][i] == fetched[i];
    }
  }

  /** The verdict on a worker: its last non-empty window is a gap and the worker is not excused. */
  lemma {:induction false} VerdictIsLastGap(
    windows: map<Worker, StoredWindow>, fetched: seq<Fetched>, mode: Mode, at: int, w: Worker)
    ensures
      var s := ScanAll(windows, fetched, mode, at);
      var before := Previous(windows, w);
      w in Verdicts(s) && Verdicts(s)[w] == Some(false) <==>
        LastIsGap(before, fetched, at, w)
        && !(WakesUp(before, fetched, mode, at, w) && |Interrupted(s)| < INTERRUPTION_COHORT)
  {
    ScanJudges(windows, fetched, mode, at, w);
  }

  /**
    When the worker's first window in the pass is a gap, the last judgement is one too exactly when that window is the
    only non-empty one, or the last non-empty one shares no run with the non-empty one directly before it.
  */
  lemma {:induction false} FirstGapLasts(before: Option<StoredWindow>, fetched: seq<Fetched>, at: int, w: Worker)
    requires FirstOf(fetched, w).Some? && GapAt(before, fetched, at, w, FirstOf(fetched, w).value)
    ensures LastOf(fetched, w).Some?
    ensures
      var first, last := FirstOf(fetched, w).value, LastOf(fetched, w).value;
      LastIsGap(before, fetched, at, w) <==>
        last == first
        || (WindowOf(fetched[..last], w).Some? && WindowOf(fetched[..last], w).value != []
            && Disjoint(WindowOf(fetched[..last], w).value, fetched[last].recent))
  {
    var first, last := FirstOf(fetched, w).value, LastOf(fetched, w).value;
    WindowOfFetched(fetched[..last], w);
    if first < last { assert fetched[..last][first].worker == w; }
  }

  lemma {:induction false} ScanObserves(windows: map<Worker, StoredWindow>, fetched: seq<Fetched>, mode: Mode, at: int)
    ensures ScanAll(windows, fetched, mode, at).observed <==> exists f :: f in fetched && f.recent != []
    ensures !ScanAll(windows, fetched, mode, at).observed ==> ScanAll(windows, fetched, mode, at).continuity == map[]
  {
    if fetched == [] {
    } else {
      assert fetched == fetched[..|fetched| - 1] + [fetched[|fetched| - 1]];
      ScanObserves(windows, fetched[..|fetched| - 1], mode, at);
    }
  }
}
