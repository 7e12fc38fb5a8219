/** The classify pass, step by step over storage; it only ever takes the transitions of `CollectionSteps`. */
module Collector {
  import opened Sorting
  import opened Wrappers
  import opened TaskRuns
  import opened Pool
  import opened Continuity
  import opened CollectionSteps
  import opened CoverageSafety
  import C = Coverage

  /** The label and time a terminal task is written with. */
  datatype Label = Label(category: Option<string>, at: int)

  /** Everything a pass does not decide: what it polls and when, the Queue's answers, the labels and the interrupts. */
  datatype Pass = Pass(
    poll: Poll, checkedAt: int, statuses: Statuses, appliedAt: int,
    labelOf: TerminalTask -> Label, tasksBeforeInterrupt: nat)

  ghost function Extended(r: Run, a: Action, s: State): Run { Run(r.states + [s], r.actions + [a]) }

  ghost function Last(r: Run): State
    requires r.states != []
  {
    r.states[|r.states| - 1]
  }

  ghost predicate HasState(r: Run, db: Db) { exists i :: 0 <= i < |r.states| && r.states[i].db == db }

  lemma {:induction false} ExtendRun(r: Run, a: Action, s: State)
    requires IsRun(r) && Next(Last(r), a, s)
    ensures IsRun(Extended(r, a, s)) && Last(Extended(r, a, s)) == s
    ensures HasState(Extended(r, a, s), s.db) && forall db :: HasState(r, db) ==> HasState(Extended(r, a, s), db)
  {
    var e := Extended(r, a, s);
    assert e.states[|r.states|] == s;
    forall db | HasState(r, db) ensures HasState(e, db) {
      var i :| 0 <= i < |r.states| && r.states[i].db == db;
      assert e.states[i] == r.states[i];
    }
    forall i | 0 <= i < |e.actions| ensures Next(e.states[i], e.actions[i], e.states[i + 1]) {
      if i < |r.actions| { assert Next(r.states[i], r.actions[i], r.states[i + 1]); }
    }
  }

  // ----- Preparing -----

  lemma {:induction false} ObserveKeeps(rows0: map<Ref, Row>, rows: map<Ref, Row>, ref: Ref, w: Worker, at: int)
    requires RowsKept(rows0, rows)
    ensures RowsKept(rows0, Observe(rows, ref, w, at))
  {
  }

  lemma {:induction false} CheckKeeps(rows0: map<Ref, Row>, rows: map<Ref, Row>, ref: Ref, at: int)
    requires RowsKept(rows0, rows)
    ensures RowsKept(rows0, Check(rows, ref, at))
  {
  }

  /** The references found so far all name unresolved rows listed in the windows so far. */
  ghost predicate FoundIn(rows: map<Ref, Row>, fetched: seq<Fetched>, references: seq<Reference>) {
    Distinct(references) && forall r :: r in references ==> Unresolved(rows, r.ref) && Lists(fetched, r.worker, r.ref)
  }

  lemma {:induction false} ListsAppend(fetched: seq<Fetched>, f: Fetched)
    ensures forall w, ref :: Lists(fetched + [f], w, ref) <==>
      Lists(fetched, w, ref) || (f.worker == w && ref in f.recent)
  {
    forall w, ref
      ensures Lists(fetched + [f], w, ref) <==> Lists(fetched, w, ref) || (f.worker == w && ref in f.recent)
    {
      var longer := fetched + [f];
      if Lists(fetched, w, ref) {
        var i :| 0 <= i < |fetched| && fetched[i].worker == w && ref in fetched[i].recent;
        assert longer[i] == fetched[i];
      }
      if f.worker == w && ref in f.recent { assert longer[|fetched|] == f; }
    }
  }

  lemma {:induction false} ObserveStep(
    rows0: map<Ref, Row>, rows: map<Ref, Row>, fetched: seq<Fetched>, at: int, ref: Ref, w: Worker,
    references: seq<Reference>)
    requires RowsKept(rows0, rows) && NewRowsListed(rows0, rows, fetched, at) && FoundIn(rows, fetched, references)
    requires Lists(fetched, w, ref) && !(ref in rows0 && Terminal(rows0[ref].state))
    ensures var rows' := Observe(rows, ref, w, at);
      && RowsKept(rows0, rows') && NewRowsListed(rows0, rows', fetched, at)
      && FoundIn(rows', fetched, references)
      && (Reference(ref, w) !in references ==> FoundIn(rows', fetched, references + [Reference(ref, w)]))
  {
    ObserveKeeps(rows0, rows, ref, w, at);
  }

  lemma {:induction false} ObserveTouches(
    rows0: map<Ref, Row>, rows: map<Ref, Row>, ref: Ref, w: Worker, at: int, references: seq<Reference>,
    references': seq<Reference>)
    requires TouchedAreReferenced(rows0, rows, references) && references <= references'
      && Reference(ref, w) in references'
    ensures TouchedAreReferenced(rows0, Observe(rows, ref, w, at), references')
  {
    ReferencedStays(references, references');
    var k :| 0 <= k < |references'| && references'[k] == Reference(ref, w);
    assert references'[k].ref == ref;
  }

  /** A row that is new now was not listed before by a worker whose reference is not remembered. */
  lemma {:induction false} FirstListerFound(
    rows0: map<Ref, Row>, rows: map<Ref, Row>, before: seq<Fetched>, after: seq<Fetched>, f: Fetched,
    seen: set<Reference>,
    references: seq<Reference>, references': seq<Reference>, ref: Ref, at: int)
    requires NothingListedIsMissed(rows0, before, seen, references) && references <= references'
    requires after == before + [f] && FoundIn(rows, after, references') && RowsKept(rows0, rows)
    requires NewRowsNameFirst(rows0, rows, after, seen)
    requires ref in f.recent && Reference(ref, f.worker) !in seen
    ensures NewRowsNameFirst(rows0, Observe(rows, ref, f.worker, at), after, seen)
  {
    if ref !in rows {
      forall j | 0 <= j < |before| && ref in after[j].recent ensures Reference(ref, after[j].worker) in seen {
        assert Lists(before, after[j].worker, ref);
      }
      assert after[|before|] == f;
      assert FirstLists(after, seen, f.worker, ref);
    }
  }

  /** What observing the windows so far has done to the rows and the references. */
  ghost predicate Observing(
    rows0: map<Ref, Row>, rows: map<Ref, Row>, fetched: seq<Fetched>, at: int, seen: set<Reference>,
    references: seq<Reference>)
  {
    && RowsKept(rows0, rows) && NewRowsListed(rows0, rows, fetched, at)
    && FoundIn(rows, fetched, references) && TouchedAreReferenced(rows0, rows, references)
    && NewRowsNameFirst(rows0, rows, fetched, seen)
  }

  lemma {:induction false} ObserveOne(
    rows0: map<Ref, Row>, rows: map<Ref, Row>, before: seq<Fetched>, f: Fetched, at: int, seen: set<Reference>,
    references: seq<Reference>, found: seq<Reference>, found': seq<Reference>, ref: Ref)
    requires NothingListedIsMissed(rows0, before, seen, references) && references <= found
    requires Observing(rows0, rows, before + [f], at, seen, found)
    requires ref in f.recent && Reference(ref, f.worker) !in seen && !(ref in rows0 && Terminal(rows0[ref].state))
    requires found' == if Reference(ref, f.worker) in found then found else found + [Reference(ref, f.worker)]
    ensures Observing(rows0, Observe(rows, ref, f.worker, at), before + [f], at, seen, found')
  {
    ListsAppend(before, f);
    ObserveStep(rows0, rows, before + [f], at, ref, f.worker, found);
    FirstListerFound(rows0, rows, before, before + [f], f, seen, references, found, ref, at);
    ObserveTouches(rows0, rows, ref, f.worker, at, found, found');
  }

  lemma {:induction false} StillObserving(
    rows0: map<Ref, Row>, rows: map<Ref, Row>, before: seq<Fetched>, f: Fetched, at: int, seen: set<Reference>,
    references: seq<Reference>)
    requires Observing(rows0, rows, before, at, seen, references)
    ensures Observing(rows0, rows, before + [f], at, seen, references)
  {
    ListsAppend(before, f);
    NewRowsStillFirst(rows0, rows, before, f, seen);
  }

  lemma {:induction false} NewRowsStillFirst(
    rows0: map<Ref, Row>, rows: map<Ref, Row>, before: seq<Fetched>, f: Fetched, seen: set<Reference>)
    requires NewRowsNameFirst(rows0, rows, before, seen)
    ensures NewRowsNameFirst(rows0, rows, before + [f], seen)
  {
    var after := before + [f];
    forall ref | ref in rows && ref !in rows0 ensures FirstLists(after, seen, rows[ref].worker, ref) {
      var w := rows[ref].worker;
      var i :| 0 <= i < |before| && before[i].worker == w && ref in before[i].recent && Reference(ref, w) !in seen
        && forall j :: 0 <= j < i && ref in before[j].recent ==> Reference(ref, before[j].worker) in seen;
      assert after[i] == before[i] && forall j :: 0 <= j < i ==> after[j] == before[j];
    }
  }

  lemma {:induction false} ReferencedStays(references: seq<Reference>, references': seq<Reference>)
    requires forall r :: r in references ==> r in references'
    ensures forall ref :: Referenced(references, ref) ==> Referenced(references', ref)
  {
    forall ref | Referenced(references, ref) ensures Referenced(references', ref) {
      var i :| 0 <= i < |references| && references[i].ref == ref;
      assert references[i] in references;
      var k :| 0 <= k < |references'| && references'[k] == references[i];
    }
  }

  // ----- Applying -----

  /** The reference is the first one to its run. */
  ghost predicate FirstFor(references: seq<Reference>, r: Reference) {
    exists k :: 0 <= k < |references| && references[k] == r && forall j :: 0 <= j < k ==> references[j].ref != r.ref
  }

  /** Remembered are the references whose run ended, and the first one to each run that expired just now. */
  ghost predicate Remembers(
    seen: set<Reference>, seen': set<Reference>, rows: map<Ref, Row>, references: seq<Reference>, statuses: Statuses)
  {
    forall r :: r in seen' <==>
      || r in seen
      || (r in references && exists e :: ReportsEnd(statuses, r.ref, r.worker, e))
      || (FirstFor(references, r) && Dropped(statuses, r.ref.task) && r.ref in rows && rows[r.ref].state == Observed)
  }

  lemma {:induction false} FirstForAppend(done: seq<Reference>, r: Reference, q: Reference)
    requires r !in done
    ensures FirstFor(done + [r], q) <==> FirstFor(done, q) || (q == r && !Referenced(done, r.ref))
  {
    var longer := done + [r];
    if FirstFor(done, q) {
      var k :| 0 <= k < |done| && done[k] == q && forall j :: 0 <= j < k ==> done[j].ref != q.ref;
      assert longer[k] == q && forall j :: 0 <= j < k ==> longer[j].ref != q.ref;
    }
    if q == r && !Referenced(done, r.ref) {
      assert longer[|done|] == q && forall j :: 0 <= j < |done| ==> longer[j].ref != q.ref;
    }
    if FirstFor(longer, q) {
      var k :| 0 <= k < |longer| && longer[k] == q && forall j :: 0 <= j < k ==> longer[j].ref != q.ref;
      forall j | 0 <= j < k ensures done[j].ref != q.ref { assert longer[j] == done[j]; }
      if k < |done| { assert done[k] == q; }
    }
  }

  lemma {:induction false} RemembersAppend(
    seen0: set<Reference>, seen: set<Reference>, seen': set<Reference>, rows0: map<Ref, Row>, rows: map<Ref, Row>,
    done: seq<Reference>, r: Reference, statuses: Statuses, at: int)
    requires Remembers(seen0, seen, rows0, done, statuses) && RowsExpired(rows0, rows, done, statuses, at) && r !in done
    requires var expires := Dropped(statuses, r.ref.task) && r.ref in rows && rows[r.ref].state == Observed;
      seen' == seen + if expires || EndOf(statuses, r).Some? then {r} else {}
    ensures Remembers(seen0, seen', rows0, done + [r], statuses)
  {
    forall q ensures FirstFor(done + [r], q) <==> FirstFor(done, q) || (q == r && !Referenced(done, r.ref)) {
      FirstForAppend(done, r, q);
    }
    assert EndOf(statuses, r).Some? ==> ReportsEnd(statuses, r.ref, r.worker, EndOf(statuses, r).value);
  }

  class Collector {
    const storage: Storage
    const mode: Mode
    /** Terminal runs resolved during this scan. */
    var seen: set<Reference>
    ghost var trace: Run

    /** What the collector has committed so far is a run of the protocol. */
    ghost predicate Recoverable() reads this, storage {
      && IsRun(trace) && storage.commits != []
      && Last(trace).db == storage.Durable()
      && forall c :: c in storage.commits ==> HasState(trace, c)
    }

    /** And nothing is uncommitted. */
    ghost predicate Valid() reads this, storage {
      Recoverable() && storage.View() == storage.Durable()
    }

    constructor (storage: Storage, mode: Mode)
      requires storage.View() == NEW_DB && storage.commits == [NEW_DB]
      ensures Valid() && this.storage == storage && this.mode == mode && Last(trace).phase.Idle?
    {
      this.storage, this.mode, seen := storage, mode, {};
      trace := Run([State(NEW_DB, Idle)], []);
      new;
      assert trace.states[0].db == NEW_DB;
    }

    /**
      A process that opens a store after another one died: whatever phase that one was in and whatever it had not
      committed, this one starts idle from the durable database, and its history goes on from there.
    */
    constructor Reopen(storage: Storage, mode: Mode, ghost past: Run)
      requires IsRun(past) && storage.commits != [] && storage.View() == storage.Durable() == Last(past).db
      requires forall c :: c in storage.commits ==> HasState(past, c)
      ensures Valid() && this.storage == storage && this.mode == mode && seen == {}
      ensures trace == Extended(past, Stop, State(storage.View(), Idle)) && Last(trace).phase.Idle?
    {
      this.storage, this.mode, seen := storage, mode, {};
      trace := Extended(past, Stop, State(storage.Durable(), Idle));
      new;
      ExtendRun(past, Stop, State(storage.Durable(), Idle));
    }

    /** Notes the transition just committed, or the end of a pass. */
    ghost method Advance(a: Action, s: State)
      requires IsRun(trace) && Next(Last(trace), a, s)
      requires storage.commits != [] && s.db == storage.Durable() == storage.View()
      requires forall c :: c in storage.commits ==> c == s.db || HasState(trace, c)
      modifies this`trace
      ensures Valid() && trace == Extended(old(trace), a, s) && Last(trace) == s
    {
      ExtendRun(trace, a, s);
      trace := Extended(trace, a, s);
    }

    /** One worker's window: unsettled listed runs become durable-to-be rows and references. */
    method ObserveWindow(
      w: Worker, window: seq<Ref>, terminal: set<Ref>, at: int, references: seq<Reference>,
      ghost rows0: map<Ref, Row>, ghost before: seq<Fetched>) returns (references': seq<Reference>)
      requires Observing(rows0, storage.rows, before, at, seen, references)
      requires NothingListedIsMissed(rows0, before, seen, references)
      requires forall ref :: ref in window ==> (ref in terminal <==> ref in rows0 && Terminal(rows0[ref].state))
      modifies storage`rows
      ensures Observing(rows0, storage.rows, before + [Fetched(w, window)], at, seen, references')
      ensures NothingListedIsMissed(rows0, before + [Fetched(w, window)], seen, references')
    {
      references' := references;
      ghost var f := Fetched(w, window);
      StillObserving(rows0, storage.rows, before, f, at, seen, references);
      for k := 0 to |window|
        invariant Observing(rows0, storage.rows, before + [f], at, seen, references') && references <= references'
        invariant forall j :: 0 <= j < k && window[j] !in terminal && Reference(window[j], w) !in seen
                    ==> Reference(window[j], w) in references'
      {
        var ref := window[k];
        if ref !in terminal && Reference(ref, w) !in seen {
          ghost var rows, found := storage.rows, references';
          storage.RecordObservedTaskRun(ref, w, at);
          if Reference(ref, w) !in references' { references' := references' + [Reference(ref, w)]; }
          ObserveOne(rows0, rows, before, f, at, seen, references, found, references', ref);
        }
      }
      ListsAppend(before, f);
    }

    /** The windows of a pass: stored, judged, and their unsettled runs observed. */
    method ObserveWindows(fetched: seq<Fetched>, at: int) returns (references: seq<Reference>, scan: Scan)
      modifies storage`rows, storage`windows
      ensures Observing(old(storage.rows), storage.rows, fetched, at, seen, references)
      ensures NothingListedIsMissed(old(storage.rows), fetched, seen, references)
      ensures scan == ScanAll(old(storage.windows), fetched, mode, at) && storage.windows == scan.windows
    {
      ghost var rows0, windows0 := storage.rows, storage.windows;
      var listed := AllListed(fetched);
      var terminal := storage.GetTerminalTaskRuns(listed);
      references := [];
      scan := Scan(storage.windows, map[], {}, false);
      ghost var done: seq<Fetched> := [];
      for k := 0 to |fetched|
        invariant done == fetched[..k]
        invariant Observing(rows0, storage.rows, done, at, seen, references)
        invariant NothingListedIsMissed(rows0, done, seen, references)
        invariant scan == ScanAll(windows0, done, mode, at) && storage.windows == scan.windows
      {
        var f := fetched[k];
        assert (done + [f])[..k] == done;
        scan := ScanOne(scan, f, mode, at);
        storage.RecordRecentTaskWindow(f.worker, f.recent, at);
        references := ObserveWindow(f.worker, f.recent, terminal, at, references, rows0, done);
        done := done + [f];
      }
      assert done == fetched;
    }

    /** Every listed run, in order. */
    static method AllListed(fetched: seq<Fetched>) returns (listed: seq<Ref>)
      ensures forall i :: 0 <= i < |fetched| ==> forall ref :: ref in fetched[i].recent ==> ref in listed
    {
      listed := [];
      for k := 0 to |fetched|
        invariant forall i :: 0 <= i < k ==> forall ref :: ref in fetched[i].recent ==> ref in listed
      {
        listed := listed + fetched[k].recent;
      }
    }

    /** Adds the oldest unresolved rows, whatever process they came from. */
    method MergeBacklog(references: seq<Reference>) returns (references': seq<Reference>, ghost backlog: seq<Ref>)
      requires Distinct(references) && forall r :: r in references ==> Unresolved(storage.rows, r.ref)
      ensures Distinct(references') && forall r :: r in references' ==> Unresolved(storage.rows, r.ref)
      ensures IsOldest(storage.rows, UNRESOLVED_BATCH_SIZE, backlog)
      ensures Merged(storage.rows, references, references', backlog)
    {
      var oldest := storage.ListUnresolvedTaskRuns(UNRESOLVED_BATCH_SIZE);
      references' := references;
      for k := 0 to |oldest|
        invariant Distinct(references') && Merged(storage.rows, references, references', oldest[..k])
      {
        assert oldest[k] in oldest && oldest[..k + 1] == oldest[..k] + [oldest[k]];
        var r := Reference(oldest[k], storage.rows[oldest[k]].worker);
        if r !in references' { references' := references' + [r]; }
      }
      assert oldest[..|oldest|] == oldest;
      backlog := oldest;
    }

    /** Marks every reference as attempted. */
    method MarkChecked(references: seq<Reference>, at: int)
      requires forall r :: r in references ==> Unresolved(storage.rows, r.ref)
      modifies storage`rows
      ensures RowsKept(old(storage.rows), storage.rows) && storage.rows.Keys == old(storage.rows).Keys
      ensures forall r :: r in references ==> Unresolved(storage.rows, r.ref) && storage.rows[r.ref].lastCheckedAt == at
      ensures forall ref :: ref in storage.rows ==> storage.rows[ref].state == old(storage.rows)[ref].state
      ensures TouchedAreReferenced(old(storage.rows), storage.rows, references)
    {
      ghost var rows0 := storage.rows;
      for k := 0 to |references|
        invariant RowsKept(rows0, storage.rows) && storage.rows.Keys == rows0.Keys
        invariant forall ref :: ref in storage.rows ==> storage.rows[ref].state == rows0[ref].state
        invariant forall j :: 0 <= j < k ==> storage.rows[references[j].ref].lastCheckedAt == at
        invariant TouchedAreReferenced(rows0, storage.rows, references)
      {
        assert references[k] in references;
        CheckKeeps(rows0, storage.rows, references[k].ref, at);
        var _ := storage.RecordTaskRunCheck(references[k].ref, at);
      }
    }

    /** What is to be committed before the Queue is asked. */
    method PrepareRows(fetched: seq<Fetched>, observedAt: int, checkedAt: int)
      returns (references: seq<Reference>, scan: Scan)
      modifies storage`rows, storage`windows
      ensures RowsKept(old(storage.rows), storage.rows)
      ensures NewRowsListed(old(storage.rows), storage.rows, fetched, observedAt)
      ensures ReferencesPrepared(storage.rows, fetched, checkedAt, references)
      ensures TouchedAreReferenced(old(storage.rows), storage.rows, references)
      ensures NothingListedIsMissed(old(storage.rows), fetched, seen, references)
      ensures NewRowsNameFirst(old(storage.rows), storage.rows, fetched, seen)
      ensures OldestReferenced(storage.rows, fetched, references)
      ensures scan == ScanAll(old(storage.windows), fetched, mode, observedAt) && storage.windows == scan.windows
    {
      ghost var rows0 := storage.rows;
      references, scan := ObserveWindows(fetched, observedAt);
      ghost var listed, observed := references, storage.rows;
      ghost var backlog;
      references, backlog := MergeBacklog(references);
      MarkChecked(references, checkedAt);
      StillMerged(observed, storage.rows, fetched, listed, references, backlog);
      PreparedRows(rows0, observed, storage.rows, fetched, observedAt, checkedAt, listed, references, backlog);
    }

    /** `_prepare_observed_task_run_batch`: when it returns, every reference is durable and unresolved. */
    method PrepareObservedTaskRunBatch(fetched: seq<Fetched>, observedAt: int, checkedAt: int)
      returns (references: seq<Reference>, verdicts: map<Worker, Option<bool>>, windowObserved: bool)
      requires Valid() && Last(trace).phase.Idle?
      modifies this`trace, storage
      ensures Valid() && storage.commits == old(storage.commits) + [storage.View()]
      ensures Prepares(old(storage.View()), storage.View(), fetched, mode, observedAt, checkedAt, references)
      ensures NothingListedIsMissed(old(storage.rows), fetched, seen, references)
      ensures NewRowsNameFirst(old(storage.rows), storage.rows, fetched, seen)
      ensures OldestReferenced(storage.rows, fetched, references)
      ensures verdicts == Verdicts(ScanAll(old(storage.windows), fetched, mode, observedAt))
      ensures windowObserved == ScanAll(old(storage.windows), fetched, mode, observedAt).observed
      ensures trace == Extended(old(trace), Prepare(fetched, mode, observedAt, checkedAt),
        State(storage.View(), Fetching(references)))
    {
      ghost var db := storage.View();
      var scan;
      references, scan := PrepareRows(fetched, observedAt, checkedAt);
      verdicts, windowObserved := Verdicts(scan), scan.observed;
      assert storage.View() == db.(rows := storage.rows, windows := storage.windows);
      storage.Commit();
      Advance(Prepare(fetched, mode, observedAt, checkedAt), State(storage.View(), Fetching(references)));
    }

    /** One reference: expired, ended, still running, or not answered. */
    method ApplyOne(
      r: Reference, statuses: Statuses, at: int, terminal: seq<TerminalTask>, ghost rows0: map<Ref, Row>,
      ghost seen0: set<Reference>, ghost done: seq<Reference>)
      returns (terminal': seq<TerminalTask>)
      requires RowsExpired(rows0, storage.rows, done, statuses, at) && TerminalsFound(done, statuses, terminal)
        && r !in done
      requires Remembers(seen0, seen, rows0, done, statuses)
      modifies this`seen, storage`rows
      ensures RowsExpired(rows0, storage.rows, done + [r], statuses, at)
        && TerminalsFound(done + [r], statuses, terminal')
      ensures Remembers(seen0, seen, rows0, done + [r], statuses)
    {
      ghost var seen1, rows := seen, storage.rows;
      terminal' := terminal;
      ReferencedAppend(done, r);
      if OutcomeOf(statuses, r.ref.task) == Gone {
        ExpireOne(rows0, storage.rows, done, r, statuses, at);
        var changed := storage.ExpireTaskRun(r.ref, at);
        if changed { seen := seen + {r}; }
      }
      var end := EndOf(statuses, r);
      if end.Some? {
        seen := seen + {r};
        FoundOne(done, r, end.value, statuses, terminal);
        terminal' := terminal + [TerminalTask(r.ref, r.worker, end.value)];
      }
      RemembersAppend(seen0, seen1, seen, rows0, rows, done, r, statuses, at);
    }

    /** `_apply_prepared_task_statuses`. */
    method ApplyPreparedTaskStatuses(references: seq<Reference>, statuses: Statuses, at: int)
      returns (terminal: seq<TerminalTask>, complete: bool)
      requires Valid() && Last(trace).phase == Fetching(references) && Distinct(references)
      modifies this, storage
      ensures Valid() && storage.commits == old(storage.commits) + [storage.View()]
      ensures Applies(old(storage.View()), storage.View(), references, statuses, at, terminal)
      ensures complete <==>
        forall r :: r in references ==> Dropped(statuses, r.ref.task) || NamesWorker(statuses, r.ref, r.worker)
      ensures Remembers(old(seen), seen, old(storage.rows), references, statuses)
      ensures trace == Extended(old(trace), Apply(statuses, at), State(storage.View(), Writing(terminal)))
    {
      terminal, complete := [], true;
      ghost var db, done := storage.View(), [];
      for k := 0 to |references|
        invariant done == references[..k]
        invariant RowsExpired(db.rows, storage.rows, done, statuses, at)
        invariant TerminalsFound(done, statuses, terminal)
        invariant complete <==>
          forall r :: r in done ==> Dropped(statuses, r.ref.task) || NamesWorker(statuses, r.ref, r.worker)
        invariant storage.View() == db.(rows := storage.rows) && storage.commits == old(storage.commits)
        invariant trace == old(trace) && Remembers(old(seen), seen, db.rows, done, statuses)
      {
        terminal := ApplyOne(references[k], statuses, at, terminal, db.rows, old(seen), done);
        if Unanswered(statuses, references[k]) { complete := false; }
        done := done + [references[k]];
      }
      assert done == references;
      storage.Commit();
      Advance(Apply(statuses, at), State(storage.View(), Writing(terminal)));
    }

    // ----- Writing -----

    /** Writes the next ended run and commits. */
    method PersistNext(t: TerminalTask, l: Label, ghost rest: seq<TerminalTask>)
      requires Valid() && Last(trace).phase == Writing(rest) && rest != [] && rest[0] == t && CanEnd(t)
      modifies this`trace, storage
      ensures Valid() && Last(trace).phase == Writing(rest[1..])
      ensures storage.View() == Written(old(storage.View()), t, l)
      ensures storage.commits == old(storage.commits) + [storage.View()]
    {
      WriteOne(t, l);
      Advance(Persist(CategoryOf(t, l), l.at), State(storage.View(), Writing(rest[1..])));
    }

    /** The first `k` ended runs are written, from the database `db` and the commits `commits` on. */
    ghost predicate WroteFirst(db: Db, commits: seq<Db>, terminal: seq<TerminalTask>, labels: seq<Label>, k: nat)
      reads this, storage
    {
      && k <= |terminal| == |labels|
      && Valid() && Last(trace).phase == Writing(terminal[k..])
      && storage.commits == commits + Writes(db, terminal, labels, k)
      && storage.View() == WrittenUpTo(db, terminal, labels, k)
    }

    method PersistNumber(
      terminal: seq<TerminalTask>, labels: seq<Label>, k: nat, ghost db: Db, ghost commits: seq<Db>)
      requires WroteFirst(db, commits, terminal, labels, k) && k < |terminal| && CanEnd(terminal[k])
      modifies this`trace, storage
      ensures WroteFirst(db, commits, terminal, labels, k + 1)
      ensures storage.windows == old(storage.windows) && storage.coverage == old(storage.coverage)
    {
      PersistNext(terminal[k], labels[k], terminal[k..]);
      assert terminal[k..][1..] == terminal[k + 1..];
    }

    /** `_process_results`, with an interrupt before some task. Each task is written in one transaction. */
    method ProcessResults(terminal: seq<TerminalTask>, labels: seq<Label>, tasksBeforeInterrupt: nat)
      returns (counts: multiset<Option<string>>)
      requires Valid() && Last(trace).phase == Writing(terminal) && |labels| == |terminal|
      requires forall t :: t in terminal ==> CanEnd(t)
      modifies this`trace, storage
      ensures Valid() && Last(trace).phase.Writing?
      ensures storage.windows == old(storage.windows) && storage.coverage == old(storage.coverage)
      ensures storage.commits == old(storage.commits)
                                 + Writes(old(storage.View()), terminal, labels, Min(|terminal|, tasksBeforeInterrupt))
      ensures CountsFailures(terminal, labels, Min(|terminal|, tasksBeforeInterrupt), counts)
      ensures ResultsWritten(old(storage.rows), storage.rows, terminal, labels, Min(|terminal|, tasksBeforeInterrupt))
    {
      TerminalsAreUnresolved(trace, terminal);
      WrittenRows(storage.View(), terminal, labels, Min(|terminal|, tasksBeforeInterrupt));
      counts := WriteResults(terminal, labels, tasksBeforeInterrupt);
    }

    method WriteResults(terminal: seq<TerminalTask>, labels: seq<Label>, tasksBeforeInterrupt: nat)
      returns (counts: multiset<Option<string>>)
      requires WroteFirst(storage.View(), storage.commits, terminal, labels, 0)
      requires forall t :: t in terminal ==> CanEnd(t)
      modifies this`trace, storage
      ensures storage.windows == old(storage.windows) && storage.coverage == old(storage.coverage)
      ensures WroteFirst(old(storage.View()), old(storage.commits), terminal, labels,
                         Min(|terminal|, tasksBeforeInterrupt))
      ensures CountsFailures(terminal, labels, Min(|terminal|, tasksBeforeInterrupt), counts)
    {
      ghost var db, commits := storage.View(), storage.commits;
      counts := multiset{};
      assert CountsFailures(terminal, labels, 0, counts);
      var k := 0;
      while k < |terminal|
        invariant k <= Min(|terminal|, tasksBeforeInterrupt) && WroteFirst(db, commits, terminal, labels, k)
        invariant storage.windows == old(storage.windows) && storage.coverage == old(storage.coverage)
        invariant CountsFailures(terminal, labels, k, counts)
      {
        if k == tasksBeforeInterrupt { break; }
        PersistNumber(terminal, labels, k, db, commits);
        OneMoreCounted(terminal, labels, k, counts);
        if terminal[k].ended.state != Completed { counts := counts + multiset{labels[k].category}; }
        k := k + 1;
      }
    }

    // ----- The pass -----

    /** `_record_collection_coverage` for task runs. */
    method RecordCoverage(at: int, success: bool)
      requires Valid()
      modifies this`trace, storage
      ensures Valid() && Last(trace).phase == old(Last(trace).phase)
      ensures storage.commits == old(storage.commits) + [storage.View()]
      ensures storage.coverage == C.Record(old(storage.coverage), C.Observation(at, success, None))
      ensures storage.View() == old(storage.View()).(coverage := storage.coverage)
    {
      storage.RecordTaskRunCoverage(at, success);
      storage.Commit();
      Advance(Cover(storage.coverage), State(storage.View(), Last(trace).phase));
    }

    /** The part of a pass that asks the Queue and decides coverage. */
    method CollectTerminals(p: Pass) returns (terminal: seq<TerminalTask>, ghost work: Work)
      requires Valid() && Last(trace).phase.Idle? && p.poll.mode == mode && p.poll.completed
      modifies this, storage
      ensures Valid() && Last(trace).phase == Writing(terminal) && forall t :: t in terminal ==> CanEnd(t)
      ensures Does(old(storage.View()), old(seen), mode, p, work) && terminal == work.terminal
      ensures storage.View() == Covered(old(storage.View()), p, work)
      ensures storage.commits == old(storage.commits) + CollectionCommits(old(storage.View()), p, work)
    {
      ghost var db := storage.View();
      var decision;
      terminal, decision, work := AskQueue(p);
      CoveredIsRecorded(db, old(seen), mode, p, work);
      FoundCanEnd(work.references, p.statuses, terminal);
      if decision.Some? { RecordCoverage(p.poll.recordedAt, decision.value); }
    }

    /** The first two commits of a pass, and its decision. */
    method AskQueue(p: Pass) returns (terminal: seq<TerminalTask>, decision: Option<bool>, ghost work: Work)
      requires Valid() && Last(trace).phase.Idle? && p.poll.mode == mode
      modifies this, storage
      ensures Valid() && Last(trace).phase == Writing(terminal)
      ensures Does(old(storage.View()), old(seen), mode, p, work) && terminal == work.terminal
      ensures decision == Decision(old(storage.windows), p.poll)
      ensures storage.View() == work.applied
      ensures storage.commits == old(storage.commits) + [work.prepared, work.applied]
    {
      var references, verdicts, windowObserved :=
          PrepareObservedTaskRunBatch(p.poll.fetched, p.poll.observedAt, p.checkedAt);
      decision := DecideCoverage(p.poll, windowObserved, verdicts, old(storage.windows));
      ghost var prepared := storage.View();
      var complete;
      terminal, complete := ApplyPreparedTaskStatuses(references, p.statuses, p.appliedAt);
      work := Work(references, prepared, storage.View(), terminal);
    }

    /** Whether a pass records coverage, and what. */
    method DecideCoverage(
      poll: Poll, windowObserved: bool, verdicts: map<Worker, Option<bool>>, ghost windows: map<Worker, StoredWindow>)
      returns (decision: Option<bool>)
      requires windowObserved == ScanAll(windows, poll.fetched, poll.mode, poll.observedAt).observed
      requires verdicts == PassVerdicts(windows, poll)
      ensures decision == Decision(windows, poll)
    {
      var observed := poll.pollError || windowObserved;
      var continuous := !poll.pollError;
      if windowObserved { continuous := continuous && Continuous(verdicts); }
      decision := None;
      if observed && (!poll.fetchFailed || !continuous) { decision := Some(continuous && poll.scannedAll); }
    }

    /**
      `classify_cycle`, from the polled windows on. Whatever the Queue answers and wherever an interrupt falls,
      every commit it makes counts each settled run once, and the windows and the coverage advance as one pass.
    */
    method ClassifyCycle(p: Pass) returns (counts: multiset<Option<string>>, ghost work: Work)
      requires Valid() && Last(trace).phase.Idle? && p.poll.mode == mode && p.poll.completed
      modifies this, storage
      ensures Valid() && Last(trace).phase.Idle?
      ensures Does(old(storage.View()), {}, mode, p, work)
      ensures storage.commits == old(storage.commits) + CollectionCommits(old(storage.View()), p, work)
                                 + Writes(Covered(old(storage.View()), p, work), work.terminal,
                                          LabelsOf(p, work.terminal), Min(|work.terminal|, p.tasksBeforeInterrupt))
      ensures CountsFailures(
                work.terminal, LabelsOf(p, work.terminal), Min(|work.terminal|, p.tasksBeforeInterrupt), counts)
      ensures forall c :: c in storage.commits ==> CountedOnce(c) && Extends(c, storage.View())
      ensures ReportedEndsSettled(p, work, storage.rows)
      ensures Ledger(storage.windows, storage.coverage)
        == AfterPass(old(Ledger(storage.windows, storage.coverage)), p.poll)
      ensures storage.coverage == CoverageAfter(old(storage.windows), p.poll, old(storage.coverage))
    {
      ghost var db := storage.View();
      seen := {};
      var terminal;
      terminal, work := CollectTerminals(p);
      CoveredIsRecorded(db, {}, mode, p, work);
      var labels := LabelsOf(p, terminal);
      counts := ProcessResults(terminal, labels, p.tasksBeforeInterrupt);
      EndsAreSettled(p, work, storage.rows);
      PassCoverage(Ledger(db.windows, db.coverage), p.poll);
      Advance(Stop, State(storage.View(), Idle));
      CommitsAreCounted(trace, storage.commits);
    }

    method WriteOne(t: TerminalTask, l: Label)
      requires CanEnd(t)
      modifies storage
      ensures storage.View() == Written(old(storage.View()), t, l)
      ensures storage.commits == old(storage.commits) + [storage.View()]
    {
      storage.RecordTaskResult(t.ref, t.worker, t.ended, CategoryOf(t, l), l.at);
      storage.UpsertWorker(t.worker);
      if t.ended.state == Completed { storage.IncrementSuccess(t.worker); } else { storage.IncrementFailure(t.worker); }
      storage.Commit();
    }
  }

  // ----- What a pass does -----

  function LabelsOf(p: Pass, terminal: seq<TerminalTask>): (labels: seq<Label>) {
    seq(|terminal|, i requires 0 <= i < |terminal| => p.labelOf(terminal[i]))
  }

  /** The references of a pass, the databases its first two commits leave, and the ended runs it found. */
  datatype Work = Work(references: seq<Reference>, prepared: Db, applied: Db, terminal: seq<TerminalTask>)

  /** The pass prepares everything listed, and applies every answer. */
  ghost predicate Does(db: Db, seen: set<Reference>, mode: Mode, p: Pass, work: Work) {
    && Prepares(db, work.prepared, p.poll.fetched, mode, p.poll.observedAt, p.checkedAt, work.references)
    && NothingListedIsMissed(db.rows, p.poll.fetched, seen, work.references)
    && NewRowsNameFirst(db.rows, work.prepared.rows, p.poll.fetched, seen)
    && OldestReferenced(work.prepared.rows, p.poll.fetched, work.references)
    && Applies(work.prepared, work.applied, work.references, p.statuses, p.appliedAt, work.terminal)
  }

  /** The database once the pass has recorded its coverage, if it records any. */
  ghost function Covered(db: Db, p: Pass, work: Work): Db {
    work.applied.(coverage := AfterPass(Ledger(db.windows, db.coverage), p.poll).coverage)
  }

  ghost function CollectionCommits(db: Db, p: Pass, work: Work): seq<Db> {
    [work.prepared, work.applied] + if Decision(db.windows, p.poll).Some? then [Covered(db, p, work)] else []
  }

  lemma {:induction false} CoveredIsRecorded(db: Db, seen: set<Reference>, mode: Mode, p: Pass, work: Work)
    requires Does(db, seen, mode, p, work) && p.poll.completed && p.poll.mode == mode
    ensures var decision := Decision(db.windows, p.poll);
      Covered(db, p, work) == if decision.Some?
        then work.applied.(coverage := C.Record(work.applied.coverage,
            C.Observation(p.poll.recordedAt, decision.value, None)))
        else work.applied
    ensures Ledger(Covered(db, p, work).windows, Covered(db, p, work).coverage)
      == AfterPass(Ledger(db.windows, db.coverage), p.poll)
  {
  }

  lemma {:induction false} FoundCanEnd(references: seq<Reference>, statuses: Statuses, terminal: seq<TerminalTask>)
    requires TerminalsFound(references, statuses, terminal)
    ensures forall t :: t in terminal ==> CanEnd(t)
  {
    forall t | t in terminal ensures CanEnd(t) {
      assert ReportsEnd(statuses, t.ref, t.worker, t.ended);
    }
  }

  /**
    The first `n` ended runs were unresolved and now have the worker, the state and the reason the Queue gave, its
    times where none were known, and a category if they did not complete; every other row is as before.
  */
  ghost predicate ResultsWritten(
    rows: map<Ref, Row>, rows': map<Ref, Row>, terminal: seq<TerminalTask>, labels: seq<Label>, n: nat)
  {
    && n <= |terminal| == |labels|
    && (forall k :: 0 <= k < n ==> EndWritten(rows, rows', terminal[k], labels[k]))
    && (forall ref :: (forall k :: 0 <= k < n ==> terminal[k].ref != ref) ==> RowAt(rows', ref) == RowAt(rows, ref))
  }

  ghost predicate EndWritten(rows: map<Ref, Row>, rows': map<Ref, Row>, t: TerminalTask, l: Label) {
    && t.ref in rows && rows[t.ref].state == Observed && t.ref in rows'
    && ResultWritten(Some(rows[t.ref]), rows'[t.ref], t.worker, t.ended,
                     if t.ended.state == Completed then None else l.category, l.at)
  }

  /** Each ended run names an unresolved row, and no two the same. */
  ghost predicate UnresolvedOnce(rows: map<Ref, Row>, terminal: seq<TerminalTask>) {
    && (forall i, j :: 0 <= i < j < |terminal| ==> terminal[i].ref != terminal[j].ref)
    && (forall t :: t in terminal ==> t.ref in rows && rows[t.ref].state == Observed)
  }

  lemma {:induction false} TerminalsAreUnresolved(r: Run, terminal: seq<TerminalTask>)
    requires IsRun(r) && Last(r).phase == Writing(terminal)
    ensures UnresolvedOnce(Last(r).db.rows, terminal)
  {
    RunIsGood(r, |r.states| - 1);
  }

  lemma {:induction false} WrittenRows(db: Db, terminal: seq<TerminalTask>, labels: seq<Label>, n: nat)
    requires n <= |terminal| == |labels|
    requires UnresolvedOnce(db.rows, terminal)
    ensures ResultsWritten(db.rows, WrittenUpTo(db, terminal, labels, n).rows, terminal, labels, n)
  {
    if n == 0 {
    } else {
      var last := n - 1;
      WrittenRows(db, terminal, labels, last);
      WriteAddsResult(db.rows, WrittenUpTo(db, terminal, labels, last).rows, terminal, labels, last);
      WrittenStep(db, terminal, labels, last);
    }
  }

  lemma {:induction false} WrittenStep(db: Db, terminal: seq<TerminalTask>, labels: seq<Label>, k: nat)
    requires k < |terminal| == |labels|
    ensures WrittenUpTo(db, terminal, labels, k + 1).rows
      == SettledRows(WrittenUpTo(db, terminal, labels, k).rows, terminal[k], labels[k])
  {
  }

  ghost function SettledRows(rows: map<Ref, Row>, t: TerminalTask, l: Label): map<Ref, Row> {
    Settle(rows, t.ref, t.worker, t.ended, CategoryOf(t, l), l.at)
  }

  lemma {:induction false} WriteAddsResult(
    rows: map<Ref, Row>, before: map<Ref, Row>, terminal: seq<TerminalTask>, labels: seq<Label>, k: nat)
    requires ResultsWritten(rows, before, terminal, labels, k) && k < |terminal|
    requires UnresolvedOnce(rows, terminal)
    ensures ResultsWritten(rows, SettledRows(before, terminal[k], labels[k]), terminal, labels, k + 1)
  {
    var t, l, next := terminal[k], labels[k], k + 1;
    var after := SettledRows(before, t, l);
    assert t in terminal && RowAt(before, t.ref) == RowAt(rows, t.ref);
    assert EndWritten(rows, after, t, l);
    forall i | 0 <= i < next ensures EndWritten(rows, after, terminal[i], labels[i]) {
      if i < k { assert EndWritten(rows, before, terminal[i], labels[i]) && terminal[i].ref != t.ref; }
    }
    forall ref | forall i :: 0 <= i < next ==> terminal[i].ref != ref ensures RowAt(after, ref) == RowAt(rows, ref) {
      assert ref != t.ref;
    }
  }

  /** Every end the Queue reported for a reference is written as reported, unless the pass was interrupted first. */
  ghost predicate ReportedEndsSettled(p: Pass, work: Work, rows: map<Ref, Row>) {
    forall r, e :: r in work.references && ReportsEnd(p.statuses, r.ref, r.worker, e) ==>
      exists k :: FoundAndSettled(p, work, rows, r, e, k)
  }

  ghost predicate FoundAndSettled(p: Pass, work: Work, rows: map<Ref, Row>, r: Reference, e: Ended, k: nat) {
    && k < |work.terminal| && work.terminal[k] == TerminalTask(r.ref, r.worker, e)
    && (k < p.tasksBeforeInterrupt ==> SettledAs(work.applied.rows, rows, r.ref, r.worker, e))
  }

  /** The run was unresolved, and now is this worker's, ended as the Queue said, with its times if it had none. */
  ghost predicate SettledAs(rows: map<Ref, Row>, rows': map<Ref, Row>, ref: Ref, w: Worker, e: Ended) {
    && ref in rows && rows[ref].state == Observed && ref in rows'
    && rows'[ref].worker == w && rows'[ref].state == e.state && rows'[ref].reasonResolved == e.reasonResolved
    && FilledFrom(rows[ref], rows'[ref], e)
  }

  lemma {:induction false} EndsAreSettled(p: Pass, work: Work, rows: map<Ref, Row>)
    requires Applies(work.prepared, work.applied, work.references, p.statuses, p.appliedAt, work.terminal)
    requires ResultsWritten(work.applied.rows, rows, work.terminal, LabelsOf(p, work.terminal),
                            Min(|work.terminal|, p.tasksBeforeInterrupt))
    ensures ReportedEndsSettled(p, work, rows)
  {
    forall r, e | r in work.references && ReportsEnd(p.statuses, r.ref, r.worker, e)
      ensures exists k :: FoundAndSettled(p, work, rows, r, e, k)
    {
      var t := TerminalTask(r.ref, r.worker, e);
      assert t in work.terminal;
      var k :| 0 <= k < |work.terminal| && work.terminal[k] == t;
      if k < p.tasksBeforeInterrupt {
        assert EndWritten(work.applied.rows, rows, work.terminal[k], LabelsOf(p, work.terminal)[k]);
      }
      assert FoundAndSettled(p, work, rows, r, e, k);
    }
  }

  /** The failed and exceptional runs among the first `n`, counted by category. */
  ghost predicate CountsFailures(
    terminal: seq<TerminalTask>, labels: seq<Label>, n: nat, counts: multiset<Option<string>>)
  {
    n <= |terminal| == |labels| && forall c :: counts[c] == |FailuresIn(terminal, labels, n, c)|
  }

  ghost function FailuresIn(terminal: seq<TerminalTask>, labels: seq<Label>, n: nat, c: Option<string>): set<nat>
    requires n <= |terminal| == |labels|
  {
    set k: nat | k < n && terminal[k].ended.state != Completed && labels[k].category == c
  }

  lemma {:induction false} OneMoreCounted(
    terminal: seq<TerminalTask>, labels: seq<Label>, n: nat, counts: multiset<Option<string>>)
    requires n < |terminal| && CountsFailures(terminal, labels, n, counts)
    ensures var fails := terminal[n].ended.state != Completed;
      CountsFailures(terminal, labels, n + 1, if fails then counts + multiset{labels[n].category} else counts)
  {
    var m := n + 1;
    var counts' := if terminal[n].ended.state != Completed then counts + multiset{labels[n].category} else counts;
    forall c ensures counts'[c] == |FailuresIn(terminal, labels, m, c)| {
      var here := terminal[n].ended.state != Completed && labels[n].category == c;
      assert FailuresIn(terminal, labels, m, c) == FailuresIn(terminal, labels, n, c) + if here then {n} else {};
    }
  }

  // ----- Lemmas used above -----

  /** Every commit of a collector's history is a state of a run, so its counts are exact and what it settled stays. */
  lemma {:induction false} CommitsAreCounted(r: Run, commits: seq<Db>)
    requires IsRun(r) && forall c :: c in commits ==> HasState(r, c)
    ensures forall c :: c in commits ==> CountedOnce(c) && Extends(c, Last(r).db)
  {
    forall c | c in commits ensures CountedOnce(c) && Extends(c, Last(r).db) {
      var i :| 0 <= i < |r.states| && r.states[i].db == c;
      AlwaysCountedOnce(r, i);
      SettledForGood(r, i, |r.states| - 1);
    }
  }

  lemma {:induction false} StillMerged(
    observed: map<Ref, Row>, rows: map<Ref, Row>, fetched: seq<Fetched>, listed: seq<Reference>,
    references: seq<Reference>,
    backlog: seq<Ref>)
    requires IsOldest(observed, UNRESOLVED_BATCH_SIZE, backlog) && Merged(observed, listed, references, backlog)
    requires RowsKept(observed, rows) && rows.Keys == observed.Keys && FoundIn(observed, fetched, listed)
    ensures OldestReferenced(rows, fetched, references)
  {
    OldestKept(observed, rows, UNRESOLVED_BATCH_SIZE, backlog);
    assert Merged(rows, listed, references, backlog);
  }

  /** Observing, merging the backlog and marking together prepare. */
  lemma {:induction false} PreparedRows(
    rows0: map<Ref, Row>, observed: map<Ref, Row>, rows: map<Ref, Row>, fetched: seq<Fetched>,
    observedAt: int, checkedAt: int, listed: seq<Reference>, references: seq<Reference>, backlog: seq<Ref>)
    requires RowsKept(rows0, observed) && NewRowsListed(rows0, observed, fetched, observedAt)
    requires FoundIn(observed, fetched, listed) && Distinct(references)
    requires Merged(observed, listed, references, backlog)
    requires RowsKept(observed, rows) && rows.Keys == observed.Keys
    requires forall r :: r in references ==> Unresolved(rows, r.ref) && rows[r.ref].lastCheckedAt == checkedAt
    requires TouchedAreReferenced(rows0, observed, listed) && TouchedAreReferenced(observed, rows, references)
    ensures RowsKept(rows0, rows) && NewRowsListed(rows0, rows, fetched, observedAt)
    ensures ReferencesPrepared(rows, fetched, checkedAt, references) && TouchedAreReferenced(rows0, rows, references)
  {
    ReferencedStays(listed, references);
  }

  lemma {:induction false} ReferencedAppend(done: seq<Reference>, r: Reference)
    ensures forall ref :: Referenced(done + [r], ref) <==> Referenced(done, ref) || r.ref == ref
  {
    forall ref ensures Referenced(done + [r], ref) <==> Referenced(done, ref) || r.ref == ref {
      var longer := done + [r];
      if Referenced(done, ref) {
        var i :| 0 <= i < |done| && done[i].ref == ref;
        assert longer[i].ref == ref;
      }
      if r.ref == ref { assert longer[|done|].ref == ref; }
    }
  }

  lemma {:induction false} ExpireOne(
    rows0: map<Ref, Row>, rows: map<Ref, Row>, done: seq<Reference>, r: Reference, statuses: Statuses, at: int)
    requires RowsExpired(rows0, rows, done, statuses, at) && Dropped(statuses, r.ref.task)
    ensures RowsExpired(rows0, Expire(rows, r.ref, at), done + [r], statuses, at)
  {
    ReferencedAppend(done, r);
  }

  lemma {:induction false} FoundOne(
    done: seq<Reference>, r: Reference, e: Ended, statuses: Statuses, terminal: seq<TerminalTask>)
    requires TerminalsFound(done, statuses, terminal) && r !in done && ReportsEnd(statuses, r.ref, r.worker, e)
    ensures TerminalsFound(done + [r], statuses, terminal + [TerminalTask(r.ref, r.worker, e)])
  {
    forall i | 0 <= i < |terminal| ensures terminal[i].ref != r.ref {
      assert terminal[i] in terminal;
    }
  }

  function Written(db: Db, t: TerminalTask, l: Label): Db {
    Persisted(db, t, CategoryOf(t, l), l.at)
  }

  /** Only failures are classified. */
  function CategoryOf(t: TerminalTask, l: Label): Option<string> {
    if t.ended.state == Completed then None else l.category
  }

  ghost function WrittenUpTo(db: Db, terminal: seq<TerminalTask>, labels: seq<Label>, n: nat): Db
    requires n <= |terminal| == |labels|
  {
    if n == 0 then db else Written(WrittenUpTo(db, terminal, labels, n - 1), terminal[n - 1], labels[n - 1])
  }

  /** The commits made by writing the first `n` tasks. */
  ghost function Writes(db: Db, terminal: seq<TerminalTask>, labels: seq<Label>, n: nat): seq<Db>
    requires n <= |terminal| == |labels|
  {
    if n == 0 then [] else Writes(db, terminal, labels, n - 1) + [WrittenUpTo(db, terminal, labels, n)]
  }
}
