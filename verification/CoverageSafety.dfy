/** Task-run coverage over whole runs: an unexplained gap between a worker's windows is never covered. */
module CoverageSafety {
  import opened Wrappers
  import opened Intervals
  import opened TaskRuns
  import opened Pool
  import opened Continuity
  import opened Coverage

  /**
    What one pass sees and when. A pass that is not `completed` died after storing its windows
    and before recording its verdict.
  */
  datatype Poll = Poll(
    fetched: seq<Fetched>, fetchFailed: bool, pollError: bool, scannedAll: bool,
    mode: Mode, observedAt: int, recordedAt: int, completed: bool)

  datatype Ledger = Ledger(windows: map<Worker, StoredWindow>, coverage: Recorder)

  function PassVerdicts(windows: map<Worker, StoredWindow>, p: Poll): map<Worker, Option<bool>> {
    Verdicts(ScanAll(windows, p.fetched, p.mode, p.observedAt))
  }

  /** The coverage decision of `classify_cycle`: record a success, record a failure, or leave it pending. */
  function Decision(windows: map<Worker, StoredWindow>, p: Poll): Option<bool> {
    var windowObserved := ScanAll(windows, p.fetched, p.mode, p.observedAt).observed;
    var observed := p.pollError || windowObserved;
    var continuous := !p.pollError && (windowObserved ==> Continuous(PassVerdicts(windows, p)));
    if observed && (!p.fetchFailed || !continuous) then Some(continuous && p.scannedAll) else None
  }

  function AfterPass(l: Ledger, p: Poll): Ledger {
    var windows := ScanAll(l.windows, p.fetched, p.mode, p.observedAt).windows;
    var decision := Decision(l.windows, p);
    if p.completed && decision.Some? then
      Ledger(windows, Record(l.coverage, Observation(p.recordedAt, decision.value, None)))
    else Ledger(windows, l.coverage)
  }

  function After(polls: seq<Poll>): Ledger {
    if polls == [] then Ledger(map[], EMPTY) else AfterPass(After(polls[..|polls| - 1]), polls[|polls| - 1])
  }

  /** The coverage observations the passes recorded. */
  ghost function Log(polls: seq<Poll>): seq<Observation> {
    if polls == [] then []
    else
      var before, p := polls[..|polls| - 1], polls[|polls| - 1];
      var decision := Decision(After(before).windows, p);
      if p.completed && decision.Some?
      then Log(before) + [Observation(p.recordedAt, decision.value, None)]
      else Log(before)
  }

  /** Every pass observes before it records, and the next one observes after that. */
  ghost predicate ClockIncreases(polls: seq<Poll>) {
    && (forall i :: 0 <= i < |polls| ==> polls[i].observedAt < polls[i].recordedAt)
    && (forall i, j :: 0 <= i < j < |polls| ==> polls[i].recordedAt < polls[j].observedAt)
  }

  lemma {:induction false} CoverageIsLog(polls: seq<Poll>)
    ensures After(polls).coverage == RecordAll(Log(polls))
  {
    if polls == [] {
    } else {
      var before := polls[..|polls| - 1];
      CoverageIsLog(before);
      var log := Log(polls);
      assert log != Log(before) ==> log[..|log| - 1] == Log(before);
    }
  }

  /** The log's times strictly increase, and each comes from a completed pass. */
  ghost predicate Recorded(polls: seq<Poll>, o: Observation) {
    exists i :: 0 <= i < |polls| && polls[i].completed && o.at == polls[i].recordedAt
      && Decision(After(polls[..i]).windows, polls[i]) == Some(o.success)
  }

  lemma {:induction false} LogIsRecorded(polls: seq<Poll>, f: nat)
    requires f < |Log(polls)|
    ensures Recorded(polls, Log(polls)[f])
  {
    var before, p := polls[..|polls| - 1], polls[|polls| - 1];
    if f < |Log(before)| {
      LogIsRecorded(before, f);
      StillRecorded(before, polls, Log(before)[f]);
    } else {
      assert polls[|polls| - 1].completed && polls[..|polls| - 1] == before;
    }
  }

  lemma {:induction false} RecordedEarlier(polls: seq<Poll>, o: Observation)
    requires ClockIncreases(polls) && polls != [] && Recorded(polls[..|polls| - 1], o)
    ensures o.at < polls[|polls| - 1].recordedAt
  {
    var before, last := polls[..|polls| - 1], polls[|polls| - 1];
    var i :| 0 <= i < |before| && o.at == before[i].recordedAt;
    assert polls[i].recordedAt < last.observedAt < last.recordedAt;
  }

  ghost predicate Increasing(log: seq<Observation>) {
    forall i, j :: 0 <= i < j < |log| ==> log[i].at < log[j].at
  }

  lemma {:induction false} LogIncreases(polls: seq<Poll>)
    requires ClockIncreases(polls)
    ensures Increasing(Log(polls))
  {
    if polls == [] {
    } else {
      var before := polls[..|polls| - 1];
      LogIncreases(before);
      forall f | 0 <= f < |Log(before)| ensures Log(before)[f].at < polls[|polls| - 1].recordedAt {
        LogIsRecorded(before, f);
        RecordedEarlier(polls, Log(before)[f]);
      }
    }
  }

  lemma {:induction false} AllAccepted(log: seq<Observation>)
    requires Increasing(log)
    ensures Accepted(log) == log
  {
    if log == [] {
    } else {
      var init, last := log[..|log| - 1], log[|log| - 1];
      assert Increasing(init) && (init != [] ==> init[|init| - 1].at < last.at);
      AllAccepted(init);
      assert Accept(init, last) == init + [last] == log;
    }
  }

  lemma {:induction false} StillRecorded(before: seq<Poll>, polls: seq<Poll>, o: Observation)
    requires before <= polls && Recorded(before, o)
    ensures Recorded(polls, o)
  {
    var i :| 0 <= i < |before| && before[i].completed && o.at == before[i].recordedAt
      && Decision(After(before[..i]).windows, before[i]) == Some(o.success);
    assert before[..i] == polls[..i];
  }

  /** What a completed, deciding pass records is in the log. */
  lemma {:induction false} DecisionLogged(polls: seq<Poll>, i: nat) returns (f: nat)
    requires i < |polls| && polls[i].completed && Decision(After(polls[..i]).windows, polls[i]).Some?
    ensures f < |Log(polls)|
    ensures Log(polls)[f] == Observation(polls[i].recordedAt, Decision(After(polls[..i]).windows, polls[i]).value, None)
  {
    var before := polls[..|polls| - 1];
    if i == |polls| - 1 {
      f := |Log(before)|;
    } else {
      assert before[..i] == polls[..i];
      f := DecisionLogged(before, i);
    }
  }

  // ----- Gaps -----

  function Before(polls: seq<Poll>, j: nat): map<Worker, StoredWindow>
    requires j <= |polls|
  {
    After(polls[..j]).windows
  }

  /** Between passes `i` and `j` no window of the worker is stored. */
  ghost predicate Successive(polls: seq<Poll>, w: Worker, i: nat, j: nat) {
    && i < j < |polls|
    && WindowOf(polls[i].fetched, w).Some? && FirstOf(polls[j].fetched, w).Some?
    && forall k :: i < k < j ==> WindowOf(polls[k].fetched, w) == None
  }

  /** The first window of the worker in a pass. */
  ghost function FirstWindow(p: Poll, w: Worker): seq<Ref>
    requires FirstOf(p.fetched, w).Some?
  {
    p.fetched[FirstOf(p.fetched, w).value].recent
  }

  /** Two successive stored windows of a worker, in different passes, both non-empty, that share no run. */
  ghost predicate Gap(polls: seq<Poll>, w: Worker, i: nat, j: nat) {
    && Successive(polls, w, i, j)
    && WindowOf(polls[i].fetched, w).value != [] && FirstWindow(polls[j], w) != []
    && Disjoint(WindowOf(polls[i].fetched, w).value, FirstWindow(polls[j], w))
  }

  /** The pass's last judgement of the worker is a gap. */
  ghost predicate EndsInGap(windows: map<Worker, StoredWindow>, p: Poll, w: Worker) {
    LastIsGap(Previous(windows, w), p.fetched, p.observedAt, w)
  }

  /** The pass judged the worker a dormant reactivation, with no cohort of interrupted workers. */
  ghost predicate Excused(windows: map<Worker, StoredWindow>, p: Poll, w: Worker) {
    && WakesUp(Previous(windows, w), p.fetched, p.mode, p.observedAt, w)
    && |Interrupted(ScanAll(windows, p.fetched, p.mode, p.observedAt))| < INTERRUPTION_COHORT
  }

  lemma {:induction false} WindowAfterPass(polls: seq<Poll>, w: Worker, k: nat)
    requires k < |polls|
    ensures After(polls[..k + 1]) == AfterPass(After(polls[..k]), polls[k])
    ensures Previous(Before(polls, k + 1), w)
      == Stored(Previous(Before(polls, k), w), WindowOf(polls[k].fetched, w), polls[k].observedAt)
  {
    var p := polls[k];
    assert polls[..k + 1][..k] == polls[..k];
    ScanJudges(Before(polls, k), p.fetched, p.mode, p.observedAt, w);
  }

  /** A stored window stays until the next one is stored, through passes that fail to fetch the worker. */
  lemma {:induction false} WindowStays(polls: seq<Poll>, w: Worker, i: nat, j: nat)
    requires i < j <= |polls| && WindowOf(polls[i].fetched, w).Some?
    requires forall k :: i < k < j ==> WindowOf(polls[k].fetched, w) == None
    ensures Previous(Before(polls, j), w)
      == Some(StoredWindow(polls[i].observedAt, WindowOf(polls[i].fetched, w).value))
  {
    var last := j - 1;
    WindowAfterPass(polls, w, last);
    if i == last {
    } else {
      WindowStays(polls, w, i, last);
    }
  }

  /** The pass meets the gap at its first window of the worker. */
  lemma {:induction false} GapIsMet(polls: seq<Poll>, w: Worker, i: nat, j: nat)
    requires Gap(polls, w, i, j)
    ensures GapAt(Previous(Before(polls, j), w), polls[j].fetched, polls[j].observedAt, w,
                  FirstOf(polls[j].fetched, w).value)
  {
    var fetched, first := polls[j].fetched, FirstOf(polls[j].fetched, w).value;
    WindowStays(polls, w, i, j);
    WindowOfFetched(fetched[..first], w);
  }

  /**
    The verdict on the worker of a pass that meets a gap, for any list of windows: it is a failure exactly when the
    worker's last non-empty window in the pass is the one that met the gap, or shares no run with the non-empty one
    directly before it, and the worker is not excused.
  */
  lemma {:induction false} GapVerdict(polls: seq<Poll>, w: Worker, i: nat, j: nat)
    requires Gap(polls, w, i, j)
    ensures
      var p := polls[j];
      var first, last := FirstOf(p.fetched, w), LastOf(p.fetched, w);
      && last.Some?
      && (EndsInGap(Before(polls, j), p, w) <==>
            || last == first
            || (WindowOf(p.fetched[..last.value], w).Some? && WindowOf(p.fetched[..last.value], w).value != []
                && Disjoint(WindowOf(p.fetched[..last.value], w).value, p.fetched[last.value].recent)))
    ensures
      var verdicts := PassVerdicts(Before(polls, j), polls[j]);
      w in verdicts && verdicts[w] == Some(false) <==>
        EndsInGap(Before(polls, j), polls[j], w) && !Excused(Before(polls, j), polls[j], w)
  {
    GapIsMet(polls, w, i, j);
    FirstGapLasts(Previous(Before(polls, j), w), polls[j].fetched, polls[j].observedAt, w);
    VerdictIsLastGap(Before(polls, j), polls[j].fetched, polls[j].mode, polls[j].observedAt, w);
  }

  /** The workers whose last judgement in the pass is a gap. */
  ghost function EndingInGap(windows: map<Worker, StoredWindow>, p: Poll): set<Worker> {
    set f | f in p.fetched && EndsInGap(windows, p, f.worker) :: f.worker
  }

  lemma {:induction false} InterruptedEndInGap(windows: map<Worker, StoredWindow>, p: Poll)
    ensures Interrupted(ScanAll(windows, p.fetched, p.mode, p.observedAt)) == EndingInGap(windows, p)
  {
    var s := ScanAll(windows, p.fetched, p.mode, p.observedAt);
    forall w ensures w in Interrupted(s) <==> w in EndingInGap(windows, p) {
      ScanJudges(windows, p.fetched, p.mode, p.observedAt, w);
      if EndsInGap(windows, p, w) {
        assert p.fetched[LastOf(p.fetched, w).value] in p.fetched;
      }
    }
  }

  const DAY_IN_MICROSECONDS := 86400000000

  /**
    A worker is excused for a gap exactly when the pool counts listed workers as available, the window before the gap is
    at least a day old and has at least 20 runs, the one after it has a single run, and fewer than five workers of the
    pass end in a gap.
  */
  lemma {:induction false} ExcusedByAge(polls: seq<Poll>, w: Worker, i: nat, j: nat)
    requires Gap(polls, w, i, j)
    ensures Excused(Before(polls, j), polls[j], w) <==>
      && polls[j].mode == Listed && DAY_IN_MICROSECONDS <= polls[j].observedAt - polls[i].observedAt
      && 20 <= |WindowOf(polls[i].fetched, w).value| && |FirstWindow(polls[j], w)| == 1
      && |EndingInGap(Before(polls, j), polls[j])| < 5
  {
    var p, first := polls[j], FirstOf(polls[j].fetched, w).value;
    GapIsMet(polls, w, i, j);
    WindowStays(polls, w, i, j);
    WindowOfFetched(p.fetched[..first], w);
    WakesOnlyFirst(Previous(Before(polls, j), w), p.fetched, p.mode, p.observedAt, w);
    InterruptedEndInGap(Before(polls, j), p);
  }

  // ----- What a pass records -----

  ghost predicate SeesRuns(p: Poll) { exists f :: f in p.fetched && f.recent != [] }

  ghost predicate BreaksOn(windows: map<Worker, StoredWindow>, p: Poll, w: Worker) {
    EndsInGap(windows, p, w) && !Excused(windows, p, w)
  }

  /** Everything was scanned, nothing failed, some run was seen, and no worker ends in an unexcused gap. */
  ghost predicate Sound(windows: map<Worker, StoredWindow>, p: Poll) {
    !p.pollError && !p.fetchFailed && p.scannedAll && SeesRuns(p) && forall w :: !BreaksOn(windows, p, w)
  }

  /** Nothing was seen, or a fetch failed and nothing else is wrong. */
  ghost predicate Pending(windows: map<Worker, StoredWindow>, p: Poll) {
    !p.pollError && (!SeesRuns(p) || (p.fetchFailed && forall w :: !BreaksOn(windows, p, w)))
  }

  /** A pass decides for a success exactly when it is sound, and for nothing exactly when it leaves coverage pending. */
  lemma {:induction false} DecisionMeans(windows: map<Worker, StoredWindow>, p: Poll)
    ensures Decision(windows, p) == Some(true) <==> Sound(windows, p)
    ensures Decision(windows, p) == None <==> Pending(windows, p)
  {
    ScanObserves(windows, p.fetched, p.mode, p.observedAt);
    var verdicts := PassVerdicts(windows, p);
    forall w ensures w in verdicts && verdicts[w] == Some(false) <==> BreaksOn(windows, p, w) {
      VerdictIsLastGap(windows, p.fetched, p.mode, p.observedAt, w);
    }
    if Continuous(verdicts) {
      forall w ensures !BreaksOn(windows, p, w) {}
    } else {
      var w :| w in verdicts && verdicts[w] == Some(false);
      assert BreaksOn(windows, p, w);
    }
  }

  /** The coverage a completed pass leaves. */
  ghost function CoverageAfter(windows: map<Worker, StoredWindow>, p: Poll, before: Recorder): Recorder {
    if Pending(windows, p) then before else Record(before, Observation(p.recordedAt, Sound(windows, p), None))
  }

  lemma {:induction false} PassCoverage(l: Ledger, p: Poll)
    requires p.completed
    ensures AfterPass(l, p).coverage == CoverageAfter(l.windows, p, l.coverage)
  {
    DecisionMeans(l.windows, p);
  }

  /**
    With the clock ahead of the recorder, a completed pass leaves a success at its own time exactly when it is sound,
        and
    the coverage as it was exactly when it is pending. A pass that did not scan every worker changes no interval.
  */
  lemma {:induction false} PassLeaves(l: Ledger, p: Poll)
    requires p.completed && (l.coverage.latest.Some? ==> l.coverage.latest.value.at < p.recordedAt)
    ensures
      var latest := AfterPass(l, p).coverage.latest;
      latest.Some? && latest.value.at == p.recordedAt && latest.value.success <==> Sound(l.windows, p)
    ensures AfterPass(l, p).coverage == l.coverage <==> Pending(l.windows, p)
    ensures !p.scannedAll ==> AfterPass(l, p).coverage.intervals == l.coverage.intervals
  {
    PassCoverage(l, p);
    DecisionMeans(l.windows, p);
  }

  /**
    A pass whose last judgement of some worker is an unexcused gap decides to record a failure, whatever else failed.
  */
  lemma {:induction false} GapIsFailure(windows: map<Worker, StoredWindow>, p: Poll, w: Worker)
    requires EndsInGap(windows, p, w) && !Excused(windows, p, w)
    ensures Decision(windows, p) == Some(false)
  {
    VerdictIsLastGap(windows, p.fetched, p.mode, p.observedAt, w);
    ScanObserves(windows, p.fetched, p.mode, p.observedAt);
    assert p.fetched[LastOf(p.fetched, w).value] in p.fetched;
    assert PassVerdicts(windows, p)[w] == Some(false);
  }

  ghost predicate CoversBoth(r: Recorder, t: int, u: int) {
    exists k :: 0 <= k < |r.intervals| && r.intervals[k].start <= t && u <= r.intervals[k].end
  }

  /** An interval ends at a recorded success. */
  lemma {:induction false} EndIsSuccess(log: seq<Observation>, k: int)
    requires 0 <= k < |RecordAll(log).intervals|
    ensures exists f :: 0 <= f < |Accepted(log)| && Accepted(log)[f].success
              && Accepted(log)[f].at == RecordAll(log).intervals[k].end
  {
    var runs := IntervalsAreMaximalRuns(log);
    var s, r := Accepted(log), runs[k];
    assert r.first < r.last ==> Joined(s, r.last);
    assert s[r.last].success;
  }

  /** The pass recorded a failure. */
  ghost predicate RecordedFailure(polls: seq<Poll>, j: nat)
    requires j < |polls|
  {
    polls[j].completed && Decision(Before(polls, j), polls[j]) == Some(false)
  }

  ghost predicate CoversInstant(r: Recorder, u: int) {
    exists k :: 0 <= k < |r.intervals| && r.intervals[k].start <= u <= r.intervals[k].end
  }

  /** The observation time of a pass that recorded a failure is in no coverage interval, then or ever after. */
  lemma {:induction false} FailureNeverCovered(polls: seq<Poll>, j: nat)
    requires ClockIncreases(polls) && j < |polls| && RecordedFailure(polls, j)
    ensures !CoversInstant(After(polls).coverage, polls[j].observedAt)
  {
    var f := DecisionLogged(polls, j);
    CoverageIsLog(polls);
    LogIncreases(polls);
    AllAccepted(Log(polls));
    forall k | 0 <= k < |RecordAll(Log(polls)).intervals|
      ensures !(RecordAll(Log(polls)).intervals[k].start <= polls[j].observedAt
                && polls[j].observedAt <= RecordAll(Log(polls)).intervals[k].end)
    {
      FailureOutsideInterval(polls, j, f, k);
    }
  }

  /**
    Coverage safety. Over any passes with an increasing clock, if two successive stored windows of a worker are
    both non-empty and disjoint and the later pass completed, then no coverage interval, then or ever after,
    contains both observation times, unless that pass excused the worker as a dormant reactivation or fetched the
    worker again and ended on an overlap. Failed fetches in between change nothing.
  */
  lemma {:induction false} GapNeverCovered(polls: seq<Poll>, w: Worker, i: nat, j: nat)
    requires ClockIncreases(polls) && Gap(polls, w, i, j) && polls[j].completed
    requires EndsInGap(Before(polls, j), polls[j], w) && !Excused(Before(polls, j), polls[j], w)
    ensures !CoversBoth(After(polls).coverage, polls[i].observedAt, polls[j].observedAt)
  {
    GapIsFailure(Before(polls, j), polls[j], w);
    FailureNeverCovered(polls, j);
    assert polls[i].observedAt < polls[i].recordedAt < polls[j].observedAt;
  }

  lemma {:induction false} FailureOutsideInterval(polls: seq<Poll>, j: nat, f: nat, k: nat)
    requires ClockIncreases(polls) && j < |polls|
    requires Accepted(Log(polls)) == Log(polls) && Increasing(Log(polls))
    requires f < |Log(polls)| && Log(polls)[f] == Observation(polls[j].recordedAt, false, None)
    requires k < |RecordAll(Log(polls)).intervals|
    ensures var interval := RecordAll(Log(polls)).intervals[k];
      !(interval.start <= polls[j].observedAt && polls[j].observedAt <= interval.end)
  {
    NoFailureInside(Log(polls), f, k);
    EndBeyondFailure(polls, j, f, k, RecordAll(Log(polls)).intervals[k].end);
    assert polls[j].observedAt < polls[j].recordedAt;
  }

  /** An interval that reaches the observation of a failing pass reaches beyond what that pass recorded. */
  lemma {:induction false} EndBeyondFailure(polls: seq<Poll>, j: nat, f: nat, k: nat, end: int)
    requires ClockIncreases(polls) && j < |polls|
    requires Accepted(Log(polls)) == Log(polls) && Increasing(Log(polls))
    requires f < |Log(polls)| && Log(polls)[f] == Observation(polls[j].recordedAt, false, None)
    requires k < |RecordAll(Log(polls)).intervals| && end == RecordAll(Log(polls)).intervals[k].end
    ensures polls[j].observedAt <= end ==> polls[j].recordedAt < end
  {
    var log := Log(polls);
    EndIsSuccess(log, k);
    var g :| 0 <= g < |log| && log[g].success && log[g].at == end;
    LogIsRecorded(polls, g);
    RecordedAfter(polls, log[g], j);
    assert f < g ==> log[f].at < log[g].at;
    assert g < f ==> log[g].at < log[f].at;
  }

  /** A recorded time at or after pass `j` observed is the time some pass from `j` on recorded. */
  lemma {:induction false} RecordedAfter(polls: seq<Poll>, o: Observation, j: nat)
    requires ClockIncreases(polls) && Recorded(polls, o) && j < |polls|
    ensures polls[j].observedAt <= o.at ==> polls[j].recordedAt <= o.at
  {
    var i :| 0 <= i < |polls| && o.at == polls[i].recordedAt;
    assert i < j ==> polls[i].recordedAt < polls[j].observedAt;
    assert j < i ==> polls[j].recordedAt < polls[i].observedAt;
  }

  // ----- When a gap can be covered -----

  /** The recorder's last observation was a success, in an interval open since `t` or earlier. */
  ghost predicate OpenSince(r: Recorder, t: int) {
    r.latest.Some? && r.latest.value.success && r.intervals != [] && r.intervals[|r.intervals| - 1].start <= t
  }

  ghost predicate CanBeBridged(polls: seq<Poll>, i: nat, j: nat)
    requires i < j < |polls|
  {
    exists later: seq<Poll> :: ClockIncreases(polls + later)
      && CoversBoth(After(polls + later).coverage, polls[i].observedAt, polls[j].observedAt)
  }

  /** What is recorded from pass `n` on comes after everything recorded before. */
  lemma {:induction false} LogFrom(all: seq<Poll>, n: nat) returns (more: seq<Observation>)
    requires ClockIncreases(all) && 0 < n <= |all|
    ensures Log(all) == Log(all[..n]) + more
    ensures forall f :: 0 <= f < |more| ==> all[n - 1].recordedAt < more[f].at
  {
    if n == |all| {
      assert all[..n] == all;
      more := [];
    } else {
      var init := all[..|all| - 1];
      assert init[..n] == all[..n] && init[n - 1] == all[n - 1];
      ClockOfInit(all);
      var early := LogFrom(init, n);
      LastRecordsLast(all, n - 1);
      more := early + LogStep(all);
      Associates(Log(all[..n]), early, LogStep(all));
    }
  }

  /** What the last pass adds to the log. */
  ghost function LogStep(all: seq<Poll>): (step: seq<Observation>)
    requires all != []
    ensures Log(all) == Log(all[..|all| - 1]) + step
    ensures forall f :: 0 <= f < |step| ==> step[f].at == all[|all| - 1].recordedAt
  {
    var p := all[|all| - 1];
    var decision := Decision(After(all[..|all| - 1]).windows, p);
    if p.completed && decision.Some? then [Observation(p.recordedAt, decision.value, None)] else []
  }

  lemma {:induction false} LastRecordsLast(all: seq<Poll>, i: nat)
    requires ClockIncreases(all) && i < |all| - 1
    ensures all[i].recordedAt < all[|all| - 1].recordedAt
  {
    assert all[i].recordedAt < all[|all| - 1].observedAt < all[|all| - 1].recordedAt;
  }

  lemma {:induction false} ClockOfInit(all: seq<Poll>)
    requires ClockIncreases(all) && all != []
    ensures ClockIncreases(all[..|all| - 1])
  {
  }

  /** An interval over the end of a log continues the log's last run. */
  lemma {:induction false} OpenRun(log: seq<Observation>, more: seq<Observation>, k: int, t: int, u: int)
    requires Accepted(log) == log && Accepted(log + more) == log + more
    requires forall f :: 0 <= f < |log| ==> log[f].at < u
    requires forall f :: 0 <= f < |more| ==> t < more[f].at
    requires 0 <= k < |RecordAll(log + more).intervals|
    requires RecordAll(log + more).intervals[k].start <= t && u <= RecordAll(log + more).intervals[k].end
    ensures OpenSince(RecordAll(log), t)
  {
    var runs := IntervalsAreMaximalRuns(log + more);
    var s, r := log + more, runs[k];
    forall x | |log| <= x < |s| ensures t < s[x].at { assert s[x] == more[x - |log|]; }
    forall x | 0 <= x < |log| ensures s[x].at < u { assert s[x] == log[x]; }
    var before := IntervalsAreMaximalRuns(log);
    assert Joined(s, |log|);
    forall i | i < |log| ensures Joined(log, i) <==> Joined(s, i) {}
    assert MaximalRun(log, Span(r.first, |log| - 1));
    SameRun(log, Span(r.first, |log| - 1), before[|before| - 1]);
  }

  lemma {:induction false} LoggedBefore(polls: seq<Poll>, j: nat, f: nat)
    requires ClockIncreases(polls) && j < |polls| && f < |Log(polls[..j])|
    ensures Log(polls[..j])[f].at < polls[j].observedAt
  {
    LogIsRecorded(polls[..j], f);
    var k :| 0 <= k < j && Log(polls[..j])[f].at == polls[..j][k].recordedAt;
    assert polls[k].recordedAt < polls[j].observedAt;
  }

  /** Only an interval that was open since the earlier window can come to cover the gap. */
  lemma {:induction false} BridgedOnlyIfOpen(all: seq<Poll>, i: nat, j: nat)
    requires ClockIncreases(all) && i < j < |all|
    requires CoversBoth(After(all).coverage, all[i].observedAt, all[j].observedAt)
    ensures OpenSince(After(all[..j]).coverage, all[i].observedAt)
  {
    var t, u := all[i].observedAt, all[j].observedAt;
    var before := all[..j];
    assert ClockIncreases(before);
    CoverageIsLog(before);
    CoverageIsLog(all);
    LogIncreases(before);
    LogIncreases(all);
    AllAccepted(Log(before));
    AllAccepted(Log(all));
    var more := LogFrom(all, j);
    forall f | 0 <= f < |Log(before)| ensures Log(before)[f].at < u { LoggedBefore(all, j, f); }
    RecordedInOrder(all, i, j - 1);
    var k :| 0 <= k < |After(all).coverage.intervals|
      && After(all).coverage.intervals[k].start <= t && u <= After(all).coverage.intervals[k].end;
    OpenRun(Log(before), more, k, t, u);
  }

  lemma {:induction false} RecordedInOrder(polls: seq<Poll>, i: nat, k: nat)
    requires ClockIncreases(polls) && i <= k < |polls|
    ensures polls[i].observedAt < polls[k].recordedAt
  {
    assert i < k ==> polls[i].recordedAt < polls[k].observedAt;
  }

  /** The next pass sees a window that overlaps the stored one, or any at all after an empty one, and succeeds. */
  function NextPoll(last: Poll, w: Worker, window: seq<Ref>): Poll {
    Poll([Fetched(w, window)], false, false, true, last.mode, last.recordedAt + 1, last.recordedAt + 2, true)
  }

  lemma {:induction false} NextPollSucceeds(
    windows: map<Worker, StoredWindow>, last: Poll, w: Worker, window: seq<Ref>, stored: StoredWindow)
    requires window != [] && Previous(windows, w) == Some(stored) && (stored.recent == [] || stored.recent == window)
    ensures Decision(windows, NextPoll(last, w, window)) == Some(true)
  {
    var p := NextPoll(last, w, window);
    assert p.fetched[..|p.fetched| - 1] == [];
    assert window[0] in window;
    var s := ScanAll(windows, p.fetched, p.mode, p.observedAt);
    assert ScanAll(windows, p.fetched[..|p.fetched| - 1], p.mode, p.observedAt) == Scan(windows, map[], {}, false);
    assert s.continuity == map[w := Some(true)];
    assert PassVerdicts(windows, p) == map[w := Some(true)];
  }

  /** If the last pass recorded nothing, the next one can extend the open interval over its observation. */
  lemma {:induction false} SilenceCanBeBridged(polls: seq<Poll>, w: Worker, i: nat, j: nat)
    requires ClockIncreases(polls) && i < j == |polls| - 1 && FirstOf(polls[j].fetched, w).Some?
    requires FirstWindow(polls[j], w) != []
    requires After(polls).coverage == After(polls[..j]).coverage
    requires OpenSince(After(polls[..j]).coverage, polls[i].observedAt)
    ensures CanBeBridged(polls, i, j)
  {
    var last := polls[j];
    WindowOfFetched(last.fetched, w);
    assert last.fetched[FirstOf(last.fetched, w).value].worker == w;
    WindowStays(polls, w, j, |polls|);
    assert polls[..|polls|] == polls;
    var stored := StoredWindow(last.observedAt, WindowOf(last.fetched, w).value);
    var window := if stored.recent == [] then FirstWindow(last, w) else stored.recent;
    var p := NextPoll(last, w, window);
    NextPollSucceeds(After(polls).windows, last, w, window, stored);
    ClockAppend(polls, p);
    CoverageIsLog(polls);
    LatestBefore(polls, p.recordedAt);
    SuccessExtends(Log(polls), p.recordedAt, polls[i].observedAt, last.observedAt);
    var all := polls + [p];
    assert all[..|all| - 1] == polls;
    assert CoversBoth(After(polls + [p]).coverage, polls[i].observedAt, polls[j].observedAt);
  }

  /** If the last pass recorded a success, it extended the open interval over its own observation. */
  lemma {:induction false} SuccessBridges(polls: seq<Poll>, i: nat, j: nat)
    requires ClockIncreases(polls) && i < j == |polls| - 1
    requires polls[j].completed && Decision(Before(polls, j), polls[j]) == Some(true)
    requires OpenSince(After(polls[..j]).coverage, polls[i].observedAt)
    ensures CanBeBridged(polls, i, j)
  {
    var before := polls[..j];
    assert ClockIncreases(before);
    CoverageIsLog(before);
    RecordedInOrder(polls, j - 1, j);
    assert polls[j - 1].recordedAt < polls[j].observedAt < polls[j].recordedAt;
    LatestBefore(before, polls[j].recordedAt);
    SuccessExtends(Log(before), polls[j].recordedAt, polls[i].observedAt, polls[j].observedAt);
    assert polls + [] == polls;
  }

  /** A success keeps the open interval open up to its own time. */
  lemma {:induction false} SuccessExtends(log: seq<Observation>, at: int, t: int, u: int)
    requires OpenSince(RecordAll(log), t) && RecordAll(log).latest.value.at <= at && u <= at
    ensures CoversBoth(Record(RecordAll(log), Observation(at, true, None)), t, u)
  {
    var r := RecordAll(log);
    var runs := IntervalsAreMaximalRuns(log);
    var last := |r.intervals| - 1;
    assert Record(r, Observation(at, true, None)).intervals[last] == Interval(r.intervals[last].start, at);
  }

  lemma {:induction false} ClockAppend(polls: seq<Poll>, p: Poll)
    requires ClockIncreases(polls) && |polls| > 0
    requires polls[|polls| - 1].recordedAt < p.observedAt < p.recordedAt
    ensures ClockIncreases(polls + [p])
  {
    var all := polls + [p];
    forall i, j | 0 <= i < j < |all| ensures all[i].recordedAt < all[j].observedAt {
      assert i < |polls| - 1 ==> polls[i].recordedAt < polls[|polls| - 1].observedAt;
    }
  }

  lemma {:induction false} LatestBefore(polls: seq<Poll>, at: int)
    requires ClockIncreases(polls) && polls != [] && polls[|polls| - 1].recordedAt < at
    ensures After(polls).coverage.latest.Some? ==> After(polls).coverage.latest.value.at <= at
  {
    CoverageIsLog(polls);
    LogIncreases(polls);
    AllAccepted(Log(polls));
    var runs := IntervalsAreMaximalRuns(Log(polls));
    if Log(polls) != [] {
      LogIsRecorded(polls, |Log(polls)| - 1);
      var i :| 0 <= i < |polls| && Log(polls)[|Log(polls)| - 1].at == polls[i].recordedAt;
      assert i < |polls| - 1 ==> polls[i].recordedAt < polls[|polls| - 1].observedAt;
    }
  }

  /**
    When a gap that was just met can be covered, now or by any continuation: exactly when the pass that met it
    recorded no failure and the recorder was in an interval open since the earlier window. The pass may have recorded a
    success, because it excused the worker or fetched it again; nothing, because another fetch failed; or nothing,
    because it died after the windows were committed and before its verdict.
  */
  lemma {:induction false} GapCanBeCovered(polls: seq<Poll>, w: Worker, i: nat, j: nat)
    requires ClockIncreases(polls) && j == |polls| - 1 && Gap(polls, w, i, j)
    ensures CanBeBridged(polls, i, j) <==>
      !RecordedFailure(polls, j) && OpenSince(After(polls[..j]).coverage, polls[i].observedAt)
  {
    if !RecordedFailure(polls, j) && OpenSince(After(polls[..j]).coverage, polls[i].observedAt) {
      if polls[j].completed && Decision(Before(polls, j), polls[j]).Some? {
        SuccessBridges(polls, i, j);
      } else {
        SilenceCanBeBridged(polls, w, i, j);
      }
    }
    if CanBeBridged(polls, i, j) {
      var later: seq<Poll> :| ClockIncreases(polls + later)
        && CoversBoth(After(polls + later).coverage, polls[i].observedAt, polls[j].observedAt);
      BridgedSafely(polls, later, i, j);
    }
  }

  lemma {:induction false} BridgedSafely(polls: seq<Poll>, later: seq<Poll>, i: nat, j: nat)
    requires ClockIncreases(polls + later) && i < j < |polls|
    requires CoversBoth(After(polls + later).coverage, polls[i].observedAt, polls[j].observedAt)
    ensures !RecordedFailure(polls, j) && OpenSince(After(polls[..j]).coverage, polls[i].observedAt)
  {
    var all := polls + later;
    assert all[..j] == polls[..j] && all[i] == polls[i] && all[j] == polls[j];
    BridgedOnlyIfOpen(all, i, j);
    assert all[i].observedAt < all[i].recordedAt < all[j].observedAt;
    if RecordedFailure(polls, j) { FailureNeverCovered(all, j); }
  }

  /**
    The windows are committed before the verdict. If the pass that meets a gap dies in between, the gap can end up
    covered exactly when the recorder is in an interval open since the earlier window.
  */
  lemma {:induction false} LostVerdict(polls: seq<Poll>, w: Worker, i: nat)
    requires ClockIncreases(polls) && |polls| > 0 && !polls[|polls| - 1].completed && Gap(polls, w, i, |polls| - 1)
    ensures CanBeBridged(polls, i, |polls| - 1) <==> OpenSince(After(polls).coverage, polls[i].observedAt)
  {
    GapCanBeCovered(polls, w, i, |polls| - 1);
  }

  // ----- Two inputs where it happens -----

  /** A pass in which nothing fails, over windows of one worker. */
  function CleanPoll(w: Worker, windows: seq<seq<Ref>>, observedAt: int, completed: bool): Poll {
    Poll(seq(|windows|, i requires 0 <= i < |windows| => Fetched(w, windows[i])), false, false, true, RecentContact,
         observedAt, observedAt + 1, completed)
  }

  lemma {:induction false} CleanScan(windows: map<Worker, StoredWindow>, w: Worker, window: seq<Ref>, at: int)
    requires window != []
    ensures
      ScanAll(windows, CleanPoll(w, [window], at, true).fetched, RecentContact, at)
        == Scan(windows[w := StoredWindow(at, window)], map[w := WindowContinuity(Previous(windows, w), window)], {},
            true)
  {
    var fetched := CleanPoll(w, [window], at, true).fetched;
    assert fetched == [Fetched(w, window)] && fetched[..0] == [];
    assert ScanAll(windows, fetched[..0], RecentContact, at) == Scan(windows, map[], {}, false);
  }

  lemma {:induction false} CleanScanTwice(windows: map<Worker, StoredWindow>, w: Worker, window: seq<Ref>, at: int)
    requires window != []
    ensures
      ScanAll(windows, CleanPoll(w, [window, window], at, true).fetched, RecentContact, at)
        == Scan(windows[w := StoredWindow(at, window)], map[w := Some(true)], {}, true)
  {
    var fetched := CleanPoll(w, [window, window], at, true).fetched;
    CleanScan(windows, w, window, at);
    assert fetched[..1] == CleanPoll(w, [window], at, true).fetched;
    assert fetched == fetched[..1] + [Fetched(w, window)];
    assert window[0] in window;
  }

  /** A clean pass that judges its worker continuous and completes extends or opens an interval. */
  lemma {:induction false} CleanSuccess(l: Ledger, p: Poll, s: Scan, w: Worker, verdict: Option<bool>)
    requires s == ScanAll(l.windows, p.fetched, p.mode, p.observedAt) && s.observed
    requires s.continuity == map[w := verdict] && verdict != Some(false)
    requires !p.fetchFailed && !p.pollError && p.scannedAll && p.completed
    ensures Decision(l.windows, p) == Some(true)
    ensures AfterPass(l, p) == Ledger(s.windows, Record(l.coverage, Observation(p.recordedAt, true, None)))
  {
    assert PassVerdicts(l.windows, p) == map[w := verdict];
  }

  /** Two passes that see the same window, at 0 and 10, open an interval from 1 to 11. */
  lemma {:induction false} TwoCleanPasses(w: Worker, a: Ref)
    ensures
      After([CleanPoll(w, [[a]], 0, true), CleanPoll(w, [[a]], 10, true)])
        == Ledger(map[w := StoredWindow(10, [a])], Recorder(Some(Latest(11, true, Some(0))), [Interval(1, 11)]))
  {
    var p, q := CleanPoll(w, [[a]], 0, true), CleanPoll(w, [[a]], 10, true);
    var start := Ledger(map[], EMPTY);
    CleanScan(map[], w, [a], 0);
    CleanSuccess(start, p, ScanAll(map[], p.fetched, p.mode, 0), w, None);
    assert [p][..0] == [] && After([p]) == AfterPass(start, p);
    var windows := map[w := StoredWindow(0, [a])];
    assert After([p]) == Ledger(windows, Recorder(Some(Latest(1, true, Some(0))), [Interval(1, 1)]));
    CleanScan(windows, w, [a], 10);
    assert [a][0] in [a];
    CleanSuccess(After([p]), q, ScanAll(windows, q.fetched, q.mode, 10), w, Some(true));
    assert [p, q][..1] == [p];
    assert windows[w := StoredWindow(10, [a])] == map[w := StoredWindow(10, [a])];
  }

  function ThreePasses(w: Worker, a: Ref, last: seq<seq<Ref>>, completed: bool): seq<Poll> {
    [CleanPoll(w, [[a]], 0, true), CleanPoll(w, [[a]], 10, true), CleanPoll(w, last, 20, completed)]
  }

  lemma {:induction false} ThirdPassTwice(w: Worker, a: Ref, b: Ref)
    ensures After(ThreePasses(w, a, [[b], [b]], true)).coverage.intervals == [Interval(1, 21)]
  {
    var polls := ThreePasses(w, a, [[b], [b]], true);
    TwoCleanPasses(w, a);
    assert polls[..2] == [polls[0], polls[1]];
    var l, r := After(polls[..2]), polls[2];
    CleanScanTwice(l.windows, w, [b], 20);
    CleanSuccess(l, r, ScanAll(l.windows, r.fetched, r.mode, 20), w, Some(true));
    assert After(polls) == AfterPass(l, r);
  }

  /**
    A worker listed twice. Three passes complete; the third meets a gap, fetches the new window a second time,
    ends on that overlap and records a success: one interval covers both sides of the gap.
  */
  lemma {:induction false} ListedTwice(w: Worker, a: Ref, b: Ref)
    requires a != b
    ensures
      var polls := ThreePasses(w, a, [[b], [b]], true);
      && ClockIncreases(polls) && Gap(polls, w, 1, 2) && !EndsInGap(Before(polls, 2), polls[2], w)
      && After(polls).coverage.intervals == [Interval(1, 21)]
      && CoversBoth(After(polls).coverage, polls[1].observedAt, polls[2].observedAt)
  {
    var polls := ThreePasses(w, a, [[b], [b]], true);
    ThirdPassTwice(w, a, b);
    assert After(polls).coverage.intervals[0] == Interval(1, 21);
    OneWindow(w, polls[1], [a]);
    TwoWindows(w, polls[2], [b]);
    assert Gap(polls, w, 1, 2);
    GapVerdict(polls, w, 1, 2);
  }

  lemma {:induction false} TwoWindows(w: Worker, p: Poll, window: seq<Ref>)
    requires p.fetched == [Fetched(w, window), Fetched(w, window)] && window != []
    ensures FirstOf(p.fetched, w) == Some(0) && LastOf(p.fetched, w) == Some(1)
    ensures WindowOf(p.fetched[..1], w) == Some(window) && !Disjoint(window, window)
  {
    assert window[0] in window;
    assert p.fetched[..1] == [Fetched(w, window)];
  }

  lemma {:induction false} OneWindow(w: Worker, p: Poll, window: seq<Ref>)
    requires |p.fetched| == 1 && p.fetched[0] == Fetched(w, window)
    ensures WindowOf(p.fetched, w) == Some(window) && FirstOf(p.fetched, w) == Some(0)
  {
  }

  /** A verdict lost: the third pass meets the gap and dies, and the next overlap covers it. */
  lemma {:induction false} LostVerdictHappens(w: Worker, a: Ref, b: Ref)
    requires a != b
    ensures
      var polls := ThreePasses(w, a, [[b]], false);
      && ClockIncreases(polls) && Gap(polls, w, 1, 2)
      && OpenSince(After(polls).coverage, polls[1].observedAt) && CanBeBridged(polls, 1, 2)
  {
    var polls := ThreePasses(w, a, [[b]], false);
    TwoCleanPasses(w, a);
    assert polls[..2] == [polls[0], polls[1]];
    OneWindow(w, polls[1], [a]);
    OneWindow(w, polls[2], [b]);
    LostVerdict(polls, w, 1);
  }
}
