/** The coverage recorder: which stretches of time count as observed. */
module Coverage {
  import opened Wrappers
  import opened PointSums
  import opened Intervals
  import opened Durations

  datatype Observation = Observation(at: int, success: bool, maxGap: Option<int>)

  datatype Latest = Latest(at: int, success: bool, interval: Option<nat>)

  /** The recorder's two tables for one source: its state row, and its intervals in insertion order. */
  datatype Recorder = Recorder(latest: Option<Latest>, intervals: seq<Interval>)

  const EMPTY := Recorder(None, [])

  function CanExtend(r: Recorder, o: Observation): bool {
    && r.latest.Some? && r.latest.value.success
    && r.latest.value.interval.Some? && r.latest.value.interval.value < |r.intervals|
    && (o.maxGap == None || o.at - r.latest.value.at <= o.maxGap.value)
  }

  /** One observation. Older ones than the latest are ignored. */
  function Record(r: Recorder, o: Observation): Recorder {
    if r.latest.Some? && o.at < r.latest.value.at then r
    else if !o.success then r.(latest := Some(Latest(o.at, false, None)))
    else if CanExtend(r, o) then
      var i := r.latest.value.interval.value;
      Recorder(Some(Latest(o.at, true, Some(i))), r.intervals[i := Interval(r.intervals[i].start, o.at)])
    else
      Recorder(Some(Latest(o.at, true, Some(|r.intervals|))), r.intervals + [Interval(o.at, o.at)])
  }

  function RecordAll(log: seq<Observation>): Recorder {
    if log == [] then EMPTY else Record(RecordAll(log[..|log| - 1]), log[|log| - 1])
  }

  datatype RecordError = MaxGapNotPositive

  /** The storage rows of one source, updated in place. */
  class CoverageTable {
    var latest: Option<Latest>
    var intervals: seq<Interval>

    ghost function Rows(): Recorder reads this { Recorder(latest, intervals) }

    constructor ()
      ensures Rows() == EMPTY
    {
      latest, intervals := None, [];
    }

    /** `record_collection_coverage`. */
    method RecordCollectionCoverage(observedAt: int, success: bool, maxGap: Option<int>)
      returns (error: Option<RecordError>)
      modifies this
      ensures error == (if maxGap.Some? && maxGap.value <= 0 then Some(MaxGapNotPositive) else None)
      ensures error.Some? ==> Rows() == old(Rows())
      ensures error == None ==> Rows() == Record(old(Rows()), Observation(observedAt, success, maxGap))
    {
      if maxGap.Some? && maxGap.value <= 0 { return Some(MaxGapNotPositive); }
      error := None;
      if latest.Some? && observedAt < latest.value.at { return; }
      var interval: Option<nat> := None;
      if success {
        var canExtend := latest.Some? && latest.value.success && latest.value.interval.Some?
                         && latest.value.interval.value < |intervals|
                         && (maxGap == None || observedAt - latest.value.at <= maxGap.value);
        if canExtend {
          interval := latest.value.interval;
          intervals := intervals[interval.value := Interval(intervals[interval.value].start, observedAt)];
        } else {
          interval := Some(|intervals|);
          intervals := intervals + [Interval(observedAt, observedAt)];
        }
      }
      latest := Some(Latest(observedAt, success, interval));
    }
  }

  // ----- What the intervals mean -----

  /** The observations that are not older than all before them. */
  function Accepted(log: seq<Observation>): seq<Observation> {
    if log == [] then [] else Accept(Accepted(log[..|log| - 1]), log[|log| - 1])
  }

  /** Observation `i` continues the success before it, within the gap allowed at `i`. */
  ghost predicate Joined(s: seq<Observation>, i: int) {
    && 0 < i < |s| && s[i - 1].success && s[i].success
    && (s[i].maxGap == None || s[i].at - s[i - 1].at <= s[i].maxGap.value)
  }

  datatype Span = Span(first: int, last: int)

  /** A longest stretch of successes each joined to the one before. */
  ghost predicate MaximalRun(s: seq<Observation>, r: Span) {
    && 0 <= r.first <= r.last < |s|
    && s[r.first].success
    && (forall i :: r.first < i <= r.last ==> Joined(s, i))
    && !Joined(s, r.first) && !Joined(s, r.last + 1)
  }

  /** `runs` lists exactly the maximal runs, in order. */
  ghost predicate Enumerates(s: seq<Observation>, runs: seq<Span>) {
    && (forall k :: 0 <= k < |runs| ==> MaximalRun(s, runs[k]))
    && (forall r :: MaximalRun(s, r) ==> r in runs)
    && (forall j, k :: 0 <= j < k < |runs| ==> runs[j].last < runs[k].first)
  }

  ghost predicate InTimeOrder(s: seq<Observation>) {
    forall i, j :: 0 <= i < j < |s| ==> s[i].at <= s[j].at
  }

  /** The recorder's rows after the accepted observations `s`, whose maximal runs are `runs`. */
  ghost predicate Reflects(r: Recorder, s: seq<Observation>, runs: seq<Span>) {
    && InTimeOrder(s) && Enumerates(s, runs)
    && |r.intervals| == |runs|
    && (forall k :: 0 <= k < |runs| ==> r.intervals[k] == Interval(s[runs[k].first].at, s[runs[k].last].at))
    && (r.latest.Some? <==> s != [])
    && (s != [] ==>
          && r.latest.value.at == s[|s| - 1].at && r.latest.value.success == s[|s| - 1].success
          && (s[|s| - 1].success ==> runs != [] && runs[|runs| - 1].last == |s| - 1
                                     && r.latest.value.interval == Some(|runs| - 1)))
  }

  lemma {:induction false} JoinedPrefix(s: seq<Observation>, o: Observation)
    ensures forall i :: i < |s| ==> (Joined(s + [o], i) <==> Joined(s, i))
    ensures !Joined(s, |s|)
  {
  }

  lemma {:induction false} FailureKeepsRuns(s: seq<Observation>, runs: seq<Span>, o: Observation)
    requires Enumerates(s, runs) && !o.success
    ensures Enumerates(s + [o], runs)
  {
    JoinedPrefix(s, o);
    assert !Joined(s + [o], |s|);
    forall r ensures MaximalRun(s + [o], r) <==> MaximalRun(s, r) {}
  }

  lemma {:induction false} SuccessOpensRun(s: seq<Observation>, runs: seq<Span>, o: Observation)
    requires Enumerates(s, runs) && o.success && !Joined(s + [o], |s|)
    ensures Enumerates(s + [o], runs + [Span(|s|, |s|)])
  {
    var t, added := s + [o], Span(|s|, |s|);
    JoinedPrefix(s, o);
    assert MaximalRun(t, added);
    forall r ensures MaximalRun(t, r) <==> MaximalRun(s, r) || r == added {
      if MaximalRun(t, r) && r.last == |s| { assert r.first < |s| ==> Joined(t, |s|); }
    }
  }

  lemma {:induction false} SuccessExtendsRun(s: seq<Observation>, runs: seq<Span>, o: Observation)
    requires Enumerates(s, runs) && Joined(s + [o], |s|)
    requires runs != [] && runs[|runs| - 1].last == |s| - 1
    ensures Enumerates(s + [o], runs[..|runs| - 1] + [Span(runs[|runs| - 1].first, |s|)])
  {
    var t, last := s + [o], runs[|runs| - 1];
    var added := Span(last.first, |s|);
    JoinedPrefix(s, o);
    assert MaximalRun(t, added) by {
      forall i | added.first < i <= added.last ensures Joined(t, i) { if i < |s| { assert Joined(s, i); } }
    }
    forall r ensures MaximalRun(t, r) <==> (MaximalRun(s, r) && r != last) || r == added {
      OnlyLastChanges(s, o, last, r);
    }
    ReplaceLast(s, t, runs, last, added);
  }

  lemma {:induction false} OnlyLastChanges(s: seq<Observation>, o: Observation, last: Span, r: Span)
    requires MaximalRun(s, last) && last.last == |s| - 1 && Joined(s + [o], |s|)
    requires MaximalRun(s + [o], Span(last.first, |s|))
    ensures MaximalRun(s + [o], r) <==> (MaximalRun(s, r) && r != last) || r == Span(last.first, |s|)
  {
    var t := s + [o];
    JoinedPrefix(s, o);
    if MaximalRun(t, r) && r.last == |s| { SameRun(t, r, Span(last.first, |s|)); }
    if MaximalRun(t, r) && r.last < |s| { assert r.last != |s| - 1; assert MaximalRun(s, r); }
    if MaximalRun(s, r) && r.last == |s| - 1 { SameRun(s, r, last); }
  }

  lemma {:induction false} ReplaceLast(
    s: seq<Observation>, t: seq<Observation>, runs: seq<Span>, last: Span, added: Span)
    requires Enumerates(s, runs) && runs != [] && last == runs[|runs| - 1] && added.first == last.first
    requires forall r :: MaximalRun(t, r) <==> (MaximalRun(s, r) && r != last) || r == added
    ensures Enumerates(t, runs[..|runs| - 1] + [added])
  {
    var runs' := runs[..|runs| - 1] + [added];
    forall r | MaximalRun(t, r) ensures r in runs' {
      if r == added { assert runs'[|runs| - 1] == added; }
      if r != added { StillListed(runs, last, added, r); }
    }
    forall k | 0 <= k < |runs'| ensures MaximalRun(t, runs'[k]) {
      if k < |runs| - 1 { assert runs[k].last < last.first; }
    }
  }

  lemma {:induction false} StillListed(runs: seq<Span>, last: Span, added: Span, r: Span)
    requires runs != [] && last == runs[|runs| - 1] && r in runs && r != last
    ensures r in runs[..|runs| - 1] + [added]
  {
    var k :| 0 <= k < |runs| && runs[k] == r;
    assert (runs[..|runs| - 1] + [added])[k] == r;
  }

  /** Two maximal runs with the same last observation are the same. */
  lemma {:induction false} SameRun(s: seq<Observation>, r: Span, r': Span)
    requires MaximalRun(s, r) && MaximalRun(s, r') && r.last == r'.last
    ensures r == r'
  {
  }

  lemma {:induction false} RecordReflects(r: Recorder, s: seq<Observation>, runs: seq<Span>, o: Observation)
    returns (runs': seq<Span>)
    requires Reflects(r, s, runs) && (s != [] ==> s[|s| - 1].at <= o.at)
    ensures Reflects(Record(r, o), s + [o], runs')
  {
    if !o.success {
      FailureReflects(r, s, runs, o);
      runs' := runs;
    } else if Joined(s + [o], |s|) {
      ExtensionReflects(r, s, runs, o);
      runs' := runs[..|runs| - 1] + [Span(runs[|runs| - 1].first, |s|)];
    } else {
      OpeningReflects(r, s, runs, o);
      runs' := runs + [Span(|s|, |s|)];
    }
  }

  lemma {:induction false} FailureReflects(r: Recorder, s: seq<Observation>, runs: seq<Span>, o: Observation)
    requires Reflects(r, s, runs) && (s != [] ==> s[|s| - 1].at <= o.at) && !o.success
    ensures Reflects(Record(r, o), s + [o], runs)
  {
    FailureKeepsRuns(s, runs, o);
  }

  lemma {:induction false} ExtensionReflects(r: Recorder, s: seq<Observation>, runs: seq<Span>, o: Observation)
    requires Reflects(r, s, runs) && (s != [] ==> s[|s| - 1].at <= o.at) && Joined(s + [o], |s|)
    ensures Reflects(Record(r, o), s + [o], runs[..|runs| - 1] + [Span(runs[|runs| - 1].first, |s|)])
  {
    assert CanExtend(r, o);
    SuccessExtendsRun(s, runs, o);
  }

  lemma {:induction false} OpeningReflects(r: Recorder, s: seq<Observation>, runs: seq<Span>, o: Observation)
    requires Reflects(r, s, runs) && (s != [] ==> s[|s| - 1].at <= o.at) && o.success && !Joined(s + [o], |s|)
    ensures Reflects(Record(r, o), s + [o], runs + [Span(|s|, |s|)])
  {
    assert !CanExtend(r, o);
    SuccessOpensRun(s, runs, o);
  }

  /**
    After any observations the intervals are exactly the maximal runs of the accepted ones, in order:
    each from the first to the last observation of its run.
  */
  lemma {:induction false} IntervalsAreMaximalRuns(log: seq<Observation>) returns (runs: seq<Span>)
    ensures Reflects(RecordAll(log), Accepted(log), runs)
  {
    if log == [] {
      runs := [];
    } else {
      var before := log[..|log| - 1];
      runs := IntervalsAreMaximalRuns(before);
      runs := NextReflects(RecordAll(before), Accepted(before), runs, log[|log| - 1]);
    }
  }

  function Accept(s: seq<Observation>, o: Observation): seq<Observation> {
    if s != [] && o.at < s[|s| - 1].at then s else s + [o]
  }

  /** An observation is accepted exactly when none before it in the log is of a later time. */
  lemma {:induction false} AcceptedInTime(log: seq<Observation>, o: Observation)
    ensures Accepted(log + [o])
      == Accepted(log) + if (forall i :: 0 <= i < |log| ==> log[i].at <= o.at) then [o] else []
  {
    assert (log + [o])[..|log|] == log;
    LatestAccepted(log);
  }

  /** The last accepted observation is of the latest time in the log. */
  lemma {:induction false} LatestAccepted(log: seq<Observation>)
    ensures log == [] <==> Accepted(log) == []
    ensures log != [] ==> forall i :: 0 <= i < |log| ==> log[i].at <= Accepted(log)[|Accepted(log)| - 1].at
    ensures log != [] ==> exists i :: 0 <= i < |log| && log[i].at == Accepted(log)[|Accepted(log)| - 1].at
  {
    if log == [] {
    } else {
      var init, last := log[..|log| - 1], |log| - 1;
      LatestAccepted(init);
      forall i | 0 <= i < |log| ensures log[i].at <= Accepted(log)[|Accepted(log)| - 1].at {
        if i < last { assert init[i] == log[i]; }
      }
      if Accepted(log) == Accepted(init) {
        var i :| 0 <= i < |init| && init[i].at == Accepted(init)[|Accepted(init)| - 1].at;
        assert log[i].at == init[i].at;
      }
    }
  }

  lemma {:induction false} NextReflects(r: Recorder, s: seq<Observation>, runs: seq<Span>, o: Observation)
    returns (runs': seq<Span>)
    requires Reflects(r, s, runs)
    ensures Reflects(Record(r, o), Accept(s, o), runs')
  {
    runs' := runs;
    if s == [] || s[|s| - 1].at <= o.at { runs' := RecordReflects(r, s, runs, o); }
  }

  // ----- Consequences -----

  ghost predicate InOrder(intervals: seq<Interval>) {
    && (forall i :: 0 <= i < |intervals| ==> intervals[i].start <= intervals[i].end)
    && (forall i, j :: 0 <= i < j < |intervals| ==> intervals[i].end <= intervals[j].start)
  }

  lemma {:induction false} IntervalsInOrder(log: seq<Observation>)
    ensures InOrder(RecordAll(log).intervals)
  {
    var runs := IntervalsAreMaximalRuns(log);
    var s, intervals := Accepted(log), RecordAll(log).intervals;
    forall i, j | 0 <= i < j < |intervals| ensures intervals[i].end <= intervals[j].start {
      assert runs[i].last < runs[j].first && s[runs[i].last].at <= s[runs[j].first].at;
    }
    forall i | 0 <= i < |intervals| ensures intervals[i].start <= intervals[i].end {
      assert runs[i].first < runs[i].last ==> s[runs[i].first].at <= s[runs[i].last].at;
    }
  }

  /** No interval has an accepted failure strictly inside it. */
  lemma {:induction false} NoFailureInside(log: seq<Observation>, f: int, k: int)
    requires 0 <= f < |Accepted(log)| && !Accepted(log)[f].success
    requires 0 <= k < |RecordAll(log).intervals|
    ensures var i := RecordAll(log).intervals[k]; !(i.start < Accepted(log)[f].at < i.end)
  {
    var runs := IntervalsAreMaximalRuns(log);
    var s, run := Accepted(log), runs[k];
    forall i | run.first <= i <= run.last ensures s[i].success { assert run.first < i ==> Joined(s, i); }
    assert f < run.first || run.last < f;
  }

  // ----- Summary -----

  datatype Summary = Summary(collectionStarted: Option<int>, intervals: seq<Interval>, range: Option<RangeSummary>)

  datatype RangeSummary = RangeSummary(covered: int, complete: bool)

  datatype SummaryError = RangeHalfGiven | RangeEndNotAfterStart

  /** The one interval that fills the range, if a single clipped interval does. */
  ghost predicate FilledByOne(intervals: seq<Interval>, start: int, end: int) {
    exists k :: 0 <= k < |intervals| && intervals[k].start <= start && end <= intervals[k].end
      && forall j :: 0 <= j < |intervals| && j != k ==> OverlapLength(intervals[j], start, end) == 0
  }

  /** `_coverage_summary`. The percentage is `covered` over the length of the range. */
  method CoverageSummary(intervals: seq<Interval>, rangeStart: Option<int>, rangeEnd: Option<int>)
    returns (r: Result<Summary, SummaryError>)
    ensures r == Err(RangeHalfGiven) <==> rangeStart.Some? != rangeEnd.Some?
    ensures r == Err(RangeEndNotAfterStart) <==>
      rangeStart.Some? && rangeEnd.Some? && rangeEnd.value <= rangeStart.value
    ensures r.Ok? ==> r.value.intervals == intervals
    ensures r.Ok? ==> r.value.collectionStarted == (if intervals == [] then None else Some(intervals[0].start))
    ensures r.Ok? ==> (r.value.range.Some? <==> rangeStart.Some?)
    ensures r.Ok? && rangeStart.Some? ==>
      && r.value.range.value.covered == ClippedLength(intervals, rangeStart.value, rangeEnd.value)
      && (r.value.range.value.complete <==> FilledByOne(intervals, rangeStart.value, rangeEnd.value))
  {
    var started := if intervals == [] then None else Some(intervals[0].start);
    if rangeStart == None && rangeEnd == None { return Ok(Summary(started, intervals, None)); }
    if rangeStart == None || rangeEnd == None { return Err(RangeHalfGiven); }
    var start, end := rangeStart.value, rangeEnd.value;
    if end <= start { return Err(RangeEndNotAfterStart); }
    var covered, clipped := ClipAll(intervals, start, end);
    var complete := |clipped| == 1 && clipped[0] == Interval(start, end);
    r := Ok(Summary(started, intervals, Some(RangeSummary(covered, complete))));
  }

  /** The clipped pieces that are not empty, each with the position of its interval. */
  ghost predicate ArePieces(intervals: seq<Interval>, start: int, end: int, clipped: seq<Interval>, origin: seq<int>) {
    && |origin| == |clipped|
    && (forall p :: 0 <= p < |origin| ==>
          && 0 <= origin[p] < |intervals|
          && clipped[p] == Interval(Max(start, intervals[origin[p]].start), Min(end, intervals[origin[p]].end))
          && clipped[p].start < clipped[p].end)
    && (forall p, q :: 0 <= p < q < |origin| ==> origin[p] < origin[q])
    && (forall j :: 0 <= j < |intervals| && OverlapLength(intervals[j], start, end) != 0 ==> j in origin)
  }

  method ClipAll(intervals: seq<Interval>, start: int, end: int) returns (covered: int, clipped: seq<Interval>)
    requires start < end
    ensures covered == ClippedLength(intervals, start, end)
    ensures |clipped| == 1 && clipped[0] == Interval(start, end) <==> FilledByOne(intervals, start, end)
  {
    covered, clipped := 0, [];
    ghost var origin: seq<int> := [];
    for k := 0 to |intervals|
      invariant covered == ClippedLength(intervals[..k], start, end)
      invariant ArePieces(intervals[..k], start, end, clipped, origin)
    {
      assert intervals[..k + 1][..k] == intervals[..k];
      var from, upto := Max(start, intervals[k].start), Min(end, intervals[k].end);
      if upto > from {
        covered := covered + (upto - from);
        clipped := clipped + [Interval(from, upto)];
        origin := origin + [k];
      }
    }
    assert intervals[..|intervals|] == intervals;
    OnePiece(intervals, start, end, clipped, origin);
  }

  lemma {:induction false} PiecesInOrder(
    intervals: seq<Interval>, start: int, end: int, clipped: seq<Interval>, origin: seq<int>)
    requires ArePieces(intervals, start, end, clipped, origin)
    ensures |origin| >= 2 ==> origin[0] < origin[1]
  {
  }

  lemma {:induction false} OnePiece(
    intervals: seq<Interval>, start: int, end: int, clipped: seq<Interval>, origin: seq<int>)
    requires start < end && ArePieces(intervals, start, end, clipped, origin)
    ensures |clipped| == 1 && clipped[0] == Interval(start, end) <==> FilledByOne(intervals, start, end)
  {
    if |clipped| == 1 && clipped[0] == Interval(start, end) {
      var k := origin[0];
      assert intervals[k].start <= start && end <= intervals[k].end;
    }
    if FilledByOne(intervals, start, end) {
      var k :| 0 <= k < |intervals| && intervals[k].start <= start && end <= intervals[k].end
        && forall j :: 0 <= j < |intervals| && j != k ==> OverlapLength(intervals[j], start, end) == 0;
      PiecesInOrder(intervals, start, end, clipped, origin);
      assert OverlapLength(intervals[k], start, end) == end - start;
      assert forall p :: 0 <= p < |origin| ==> OverlapLength(intervals[origin[p]], start, end) != 0;
      assert forall p :: 0 <= p < |origin| ==> origin[p] == k;
    }
  }

  lemma {:induction false} OrderedMultiplicity(s: seq<Interval>, x: int)
    requires InOrder(s)
    ensures 0 <= Multiplicity(s, x) <= 1
    ensures Multiplicity(s, x) == 1 <==> Covers(s, x)
  {
    if s == [] {
    } else {
      var init, last := s[..|s| - 1], s[|s| - 1];
      assert s == init + [last];
      OrderedMultiplicity(init, x);
      CoversAppend(init, last);
      forall i | 0 <= i < |init| ensures init[i].end <= last.start { assert init[i] == s[i]; }
    }
  }

  /**
    Of the recorder's intervals the covered time never exceeds the range, and is all of it iff every instant is
    covered.
  */
  lemma {:induction false} NeverOverFull(s: seq<Interval>, start: int, end: int)
    requires InOrder(s) && start < end
    ensures 0 <= ClippedLength(s, start, end) <= end - start
    ensures ClippedLength(s, start, end) == end - start <==> forall x :: start <= x < end ==> Covers(s, x)
  {
    ClippedIsCount(s, start, end);
    forall x ensures 0 <= CountOf(s)(x) <= 1 && (CountOf(s)(x) == 1 <==> Covers(s, x)) { OrderedMultiplicity(s, x); }
    PointSumFull(start, end, CountOf(s));
  }

  /**
    Of the recorder's intervals a range is reported complete exactly when it is fully covered and
    no interval ends strictly inside it. Touching intervals are not merged, so full coverage alone is not enough.
  */
  lemma {:induction false} CompleteIffFullAndUnbroken(s: seq<Interval>, start: int, end: int)
    requires InOrder(s) && start < end
    ensures FilledByOne(s, start, end) <==>
              ClippedLength(s, start, end) == end - start && forall i :: 0 <= i < |s| ==> !(start < s[i].end < end)
  {
    NeverOverFull(s, start, end);
    if FilledByOne(s, start, end) {
      var k :| 0 <= k < |s| && s[k].start <= start && end <= s[k].end;
      forall x | start <= x < end ensures Covers(s, x) { assert s[k].Has(x); }
      forall i | 0 <= i < |s| ensures !(start < s[i].end < end) {
        assert i < k ==> s[i].end <= s[k].start;
        assert i > k ==> s[k].end <= s[i].start;
      }
    }
    if ClippedLength(s, start, end) == end - start && forall i :: 0 <= i < |s| ==> !(start < s[i].end < end) {
      assert Covers(s, start);
      var k :| 0 <= k < |s| && s[k].Has(start);
      assert end <= s[k].end;
      forall j | 0 <= j < |s| && j != k ensures OverlapLength(s[j], start, end) == 0 {
        assert j < k ==> s[j].end <= s[k].start;
        assert j > k ==> s[k].end <= s[j].start;
      }
    }
  }

  /** A success, a failure and a success at one instant split full coverage in two: covered, but not complete. */
  lemma {:induction false} FullButNotComplete()
    ensures var log := [Observation(0, true, None), Observation(1, true, None), Observation(1, false, None),
                        Observation(1, true, None), Observation(2, true, None)];
      && RecordAll(log).intervals == [Interval(0, 1), Interval(1, 2)]
      && ClippedLength(RecordAll(log).intervals, 0, 2) == 2
      && !FilledByOne(RecordAll(log).intervals, 0, 2)
  {
    var a, b, c := Observation(0, true, None), Observation(1, true, None), Observation(1, false, None);
    var d, e := Observation(1, true, None), Observation(2, true, None);
    var log := [a, b, c, d, e];
    assert log[..4] == [a, b, c, d] && log[..4][..3] == [a, b, c] && log[..3][..2] == [a, b] && log[..2][..1] == [a];
    assert RecordAll([]) == EMPTY && [a][..0] == [];
    assert RecordAll([a]) == Recorder(Some(Latest(0, true, Some(0))), [Interval(0, 0)]);
    assert RecordAll([a, b]) == Recorder(Some(Latest(1, true, Some(0))), [Interval(0, 1)])
        by { assert [a, b][..1] == [a]; }
    assert RecordAll([a, b, c]) == Recorder(Some(Latest(1, false, None)), [Interval(0, 1)])
        by { assert [a, b, c][..2] == [a, b]; }
    assert RecordAll([a, b, c, d]) == Recorder(Some(Latest(1, true, Some(1))), [Interval(0, 1), Interval(1, 1)]) by {
      assert [a, b, c, d][..3] == [a, b, c];
    }
    var s := RecordAll(log).intervals;
    assert s == [Interval(0, 1), Interval(1, 2)];
    assert s[..1] == [Interval(0, 1)] && s[..1][..0] == [];
    assert ClippedLength(s[..1], 0, 2) == 1;
    CompleteIffFullAndUnbroken(s, 0, 2);
    assert 0 < s[0].end < 2;
  }
}
