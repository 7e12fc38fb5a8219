/** The rows of observed task runs, the worker counters, and the transactions around them. */
module TaskRuns {
  import opened Sorting
  import opened Wrappers
  import opened Pool
  import opened Coverage

  /** A task run; a missing run id is `None`. */
  datatype Ref = Ref(task: nat, run: Option<nat>)

  datatype RunState = Observed | Completed | Failed | Exception | Expired

  predicate Terminal(s: RunState) { s != Observed }

  datatype Row = Row(
    worker: Worker, state: RunState, category: Option<string>, reasonResolved: Option<string>,
    reasonCreated: Option<string>, scheduled: Option<int>, started: Option<int>, resolved: Option<int>,
    classifiedAt: int, observedAt: int, lastCheckedAt: int)

  datatype Counters = Counters(successes: nat, failures: nat, consecutiveFailures: nat)

  datatype StoredWindow = StoredWindow(observedAt: int, recent: seq<Ref>)

  datatype Db = Db(
    rows: map<Ref, Row>, workers: map<Worker, Counters>, windows: map<Worker, StoredWindow>, coverage: Recorder)

  const NEW_DB := Db(map[], map[], map[], EMPTY)

  /** What the Queue says of a run that has ended. */
  datatype Ended = Ended(
    state: RunState, started: Option<int>, resolved: Option<int>, reasonResolved: Option<string>,
    scheduled: Option<int>, reasonCreated: Option<string>)

  function Coalesce<T>(a: Option<T>, b: Option<T>): Option<T> { if a.Some? then a else b }

  // ----- Row transitions -----

  function Observe(rows: map<Ref, Row>, ref: Ref, worker: Worker, at: int): map<Ref, Row> {
    if ref !in rows then rows[ref := Row(worker, Observed, None, None, None, None, None, None, at, at, at)]
    else Check(rows, ref, at)
  }

  function Check(rows: map<Ref, Row>, ref: Ref, at: int): map<Ref, Row> {
    if ref in rows && !Terminal(rows[ref].state) then rows[ref := rows[ref].(lastCheckedAt := at)] else rows
  }

  function Expire(rows: map<Ref, Row>, ref: Ref, at: int): map<Ref, Row> {
    if ref in rows && !Terminal(rows[ref].state)
    then rows[ref := rows[ref].(state := Expired, lastCheckedAt := at)]
    else rows
  }

  function Settle(
    rows: map<Ref, Row>, ref: Ref, worker: Worker, e: Ended, category: Option<string>, at: int): map<Ref, Row> {
    if ref !in rows then
      rows[ref := Row(worker, e.state, category, e.reasonResolved, e.reasonCreated, e.scheduled, e.started, e.resolved,
          at, at, at)]
    else
      var row := rows[ref];
      var keep := Terminal(row.state);
      rows[ref := Row(
        if keep then row.worker else worker,
        if keep then row.state else e.state,
        if keep then row.category else category,
        if keep then row.reasonResolved else e.reasonResolved,
        Coalesce(row.reasonCreated, e.reasonCreated),
        Coalesce(row.scheduled, e.scheduled),
        Coalesce(row.started, e.started),
        Coalesce(row.resolved, e.resolved),
        if keep then row.classifiedAt else at,
        row.observedAt,
        at)]
  }

  function Upsert(workers: map<Worker, Counters>, w: Worker): map<Worker, Counters> {
    if w in workers then workers else workers[w := Counters(0, 0, 0)]
  }

  function Count(workers: map<Worker, Counters>, w: Worker, success: bool): map<Worker, Counters> {
    if w !in workers then workers
    else
      var c := workers[w];
      workers[w := if success then Counters(c.successes + 1, c.failures, 0)
                   else Counters(c.successes, c.failures + 1, c.consecutiveFailures + 1)]
  }

  // ----- What a write means for the rows -----

  ghost predicate OthersKept(rows: map<Ref, Row>, rows': map<Ref, Row>, ref: Ref) {
    forall r :: r != ref ==> (r in rows' <==> r in rows) && (r in rows ==> rows'[r] == rows[r])
  }

  ghost predicate FreshRow(row: Row, worker: Worker, at: int) {
    && row.worker == worker && row.state == Observed
    && row.classifiedAt == row.observedAt == row.lastCheckedAt == at
    && row.category == None && row.reasonResolved == None
    && row.reasonCreated == None && row.scheduled == None && row.started == None && row.resolved == None
  }

  /** An unresolved row is marked as checked; a settled one is left alone. */
  ghost predicate OnlyChecked(row: Row, row': Row, at: int) {
    row' == if row.state == Observed then row.(lastCheckedAt := at) else row
  }

  ghost predicate HasVerdict(row: Row, worker: Worker, e: Ended, category: Option<string>, at: int) {
    && row.worker == worker && row.state == e.state && row.category == category
    && row.reasonResolved == e.reasonResolved && row.classifiedAt == at
  }

  /** Each field of the Queue's is the one the row had, and the end's where it had none. */
  ghost predicate FilledFrom(row: Row, row': Row, e: Ended) {
    && row'.reasonCreated == (if row.reasonCreated == None then e.reasonCreated else row.reasonCreated)
    && row'.scheduled == (if row.scheduled == None then e.scheduled else row.scheduled)
    && row'.started == (if row.started == None then e.started else row.started)
    && row'.resolved == (if row.resolved == None then e.resolved else row.resolved)
  }

  ghost predicate TakenFrom(row: Row, e: Ended) {
    && row.reasonCreated == e.reasonCreated && row.scheduled == e.scheduled
    && row.started == e.started && row.resolved == e.resolved
  }

  /** What writing an end leaves of one row, which may not have existed. */
  ghost predicate ResultWritten(
    before: Option<Row>, row: Row, worker: Worker, e: Ended, category: Option<string>, at: int)
  {
    && row.lastCheckedAt == at
    && (before == None ==> TakenFrom(row, e) && row.observedAt == at)
    && (before.Some? ==> FilledFrom(before.value, row, e) && row.observedAt == before.value.observedAt)
    && (if before.Some? && before.value.state != Observed then SameVerdict(before.value, row)
        else HasVerdict(row, worker, e, category, at))
  }

  function RowAt(rows: map<Ref, Row>, ref: Ref): Option<Row> { if ref in rows then Some(rows[ref]) else None }

  // ----- Exactly-once counting -----

  ghost function RowsOf(rows: map<Ref, Row>, w: Worker, states: set<RunState>): set<Ref> {
    set ref | ref in rows && rows[ref].worker == w && rows[ref].state in states
  }

  ghost function Successes(workers: map<Worker, Counters>, w: Worker): nat {
    if w in workers then workers[w].successes else 0
  }

  ghost function Failures(workers: map<Worker, Counters>, w: Worker): nat {
    if w in workers then workers[w].failures else 0
  }

  /** Each worker's successes are its completed rows, and its failures its failed and exception rows. */
  ghost predicate CountedOnce(db: Db) {
    forall w ::
      && Successes(db.workers, w) == |RowsOf(db.rows, w, {Completed})|
      && Failures(db.workers, w) == |RowsOf(db.rows, w, {Failed, Exception})|
  }

  /** What no collection step may change: rows stay, a settled verdict stays, and a first observation stays. */
  ghost predicate Extends(before: Db, after: Db) {
    forall ref :: ref in before.rows ==>
      && ref in after.rows
      && after.rows[ref].observedAt == before.rows[ref].observedAt
      && (Terminal(before.rows[ref].state) ==> SameVerdict(before.rows[ref], after.rows[ref]))
  }

  ghost predicate SameVerdict(r: Row, r': Row) {
    && r'.worker == r.worker && r'.state == r.state && r'.category == r.category
    && r'.reasonResolved == r.reasonResolved && r'.classifiedAt == r.classifiedAt
  }

  lemma {:induction false} ExtendsTransitive(a: Db, b: Db, c: Db)
    requires Extends(a, b) && Extends(b, c)
    ensures Extends(a, c)
  {
  }

  /** Rows that change only while they are unresolved, and end unresolved or expired, leave the counts as they were. */
  lemma {:induction false} CountsUntouched(db: Db, db': Db)
    requires CountedOnce(db) && db'.workers == db.workers && Extends(db, db')
    requires forall ref :: ref in db'.rows && (ref in db.rows ==> !Terminal(db.rows[ref].state))
               ==> db'.rows[ref].state in {Observed, Expired}
    ensures CountedOnce(db')
  {
    forall w, states | states <= {Completed, Failed, Exception}
      ensures RowsOf(db'.rows, w, states) == RowsOf(db.rows, w, states)
    {
      forall ref ensures ref in RowsOf(db'.rows, w, states) <==> ref in RowsOf(db.rows, w, states) {}
    }
  }

  /** One ended run to be written: its row, its worker, and what the Queue said. */
  datatype TerminalTask = TerminalTask(ref: Ref, worker: Worker, ended: Ended)

  predicate CanEnd(t: TerminalTask) { t.ended.state in {Completed, Failed, Exception} }

  function Persisted(db: Db, t: TerminalTask, category: Option<string>, at: int): Db {
    db.(rows := Settle(db.rows, t.ref, t.worker, t.ended, category, at),
        workers := Count(Upsert(db.workers, t.worker), t.worker, t.ended.state == Completed))
  }

  /** Writing an unresolved row's end counts it once, for the worker the row then names. */
  lemma {:induction false} PersistCounts(db: Db, t: TerminalTask, category: Option<string>, at: int)
    requires CountedOnce(db) && CanEnd(t)
    requires t.ref in db.rows && !Terminal(db.rows[t.ref].state)
    ensures CountedOnce(Persisted(db, t, category, at)) && Extends(db, Persisted(db, t, category, at))
  {
    forall w
      ensures Successes(Persisted(db, t, category, at).workers, w)
        == |RowsOf(Persisted(db, t, category, at).rows, w, {Completed})|
      ensures Failures(Persisted(db, t, category, at).workers, w)
        == |RowsOf(Persisted(db, t, category, at).rows, w, {Failed, Exception})|
    {
      SettleAddsRow(db.rows, t, category, at, w, {Completed});
      SettleAddsRow(db.rows, t, category, at, w, {Failed, Exception});
    }
  }

  lemma {:induction false} SettleAddsRow(
    rows: map<Ref, Row>, t: TerminalTask, category: Option<string>, at: int, w: Worker, states: set<RunState>)
    requires Unresolved(rows, t.ref) && Observed !in states
    ensures var rows' := Settle(rows, t.ref, t.worker, t.ended, category, at);
      |RowsOf(rows', w, states)|
        == |RowsOf(rows, w, states)| + if w == t.worker && t.ended.state in states then 1 else 0
  {
    var rows' := Settle(rows, t.ref, t.worker, t.ended, category, at);
    assert t.ref !in RowsOf(rows, w, states);
    assert RowsOf(rows', w, states) ==
      RowsOf(rows, w, states) + if w == t.worker && t.ended.state in states then {t.ref} else {};
  }

  /** Writing the end of a settled row again would count it twice: the row stays and the counter moves. */
  lemma {:induction false} PersistTwiceMiscounts(db: Db, t: TerminalTask, category: Option<string>, at: int)
    requires CountedOnce(db) && CanEnd(t) && t.ref in db.rows && Terminal(db.rows[t.ref].state)
    ensures !CountedOnce(Persisted(db, t, category, at))
  {
    var db' := Persisted(db, t, category, at);
    assert RowsOf(db'.rows, t.worker, {Completed}) == RowsOf(db.rows, t.worker, {Completed});
    assert RowsOf(db'.rows, t.worker, {Failed, Exception}) == RowsOf(db.rows, t.worker, {Failed, Exception});
    assert Successes(db'.workers, t.worker) + Failures(db'.workers, t.worker)
        == Successes(db.workers, t.worker) + Failures(db.workers, t.worker) + 1;
  }

  // ----- Storage -----

  /** Backlog order: first observation, then task, then run, with a missing run first. */
  datatype Entry = Entry(ref: Ref, observedAt: int)

  function RunKey(r: Option<nat>): int { if r.Some? then r.value else -1 }

  predicate EntryLeq(a: Entry, b: Entry) {
    || a.observedAt < b.observedAt
    || (a.observedAt == b.observedAt && a.ref.task < b.ref.task)
    || (a.observedAt == b.observedAt && a.ref.task == b.ref.task && RunKey(a.ref.run) <= RunKey(b.ref.run))
  }

  predicate Unresolved(rows: map<Ref, Row>, ref: Ref) { ref in rows && !Terminal(rows[ref].state) }

  function EntryOf(rows: map<Ref, Row>, ref: Ref): Entry
    requires ref in rows
  {
    Entry(ref, rows[ref].observedAt)
  }

  /**
    One open transaction over the durable database. The fields are the transaction's view;
    `commits` holds every durable state so far, so its last element is what a crash leaves.
  */
  class Storage {
    var rows: map<Ref, Row>
    var workers: map<Worker, Counters>
    var windows: map<Worker, StoredWindow>
    var coverage: Recorder
    var commits: seq<Db>

    function View(): Db reads this { Db(rows, workers, windows, coverage) }

    /** What survives a crash. */
    function Durable(): Db
      reads this
      requires commits != []
    {
      commits[|commits| - 1]
    }

    constructor ()
      ensures View() == NEW_DB && commits == [NEW_DB]
    {
      rows, workers, windows, coverage := map[], map[], map[], EMPTY;
      commits := [NEW_DB];
    }

    method Commit()
      modifies this`commits
      ensures commits == old(commits) + [View()]
    {
      commits := commits + [View()];
    }

    /** The process dies: everything since the last commit is gone. */
    method Crash()
      requires commits != []
      modifies this
      ensures View() == old(Durable()) && commits == old(commits)
    {
      var last := Durable();
      rows, workers, windows, coverage := last.rows, last.workers, last.windows, last.coverage;
    }

    method RecordObservedTaskRun(ref: Ref, worker: Worker, at: int)
      modifies this`rows
      ensures rows == Observe(old(rows), ref, worker, at) && OthersKept(old(rows), rows, ref)
      ensures ref in rows && (ref !in old(rows) ==> FreshRow(rows[ref], worker, at))
      ensures ref in old(rows) ==> OnlyChecked(old(rows)[ref], rows[ref], at)
    {
      if ref !in rows {
        rows := rows[ref := Row(worker, Observed, None, None, None, None, None, None, at, at, at)];
      } else if !Terminal(rows[ref].state) {
        rows := rows[ref := rows[ref].(lastCheckedAt := at)];
      }
    }

    method RecordTaskRunCheck(ref: Ref, at: int) returns (changed: bool)
      modifies this`rows
      ensures rows == Check(old(rows), ref, at) && OthersKept(old(rows), rows, ref)
      ensures changed == (ref in old(rows) && old(rows)[ref].state == Observed) && rows.Keys == old(rows).Keys
      ensures ref in old(rows) ==> OnlyChecked(old(rows)[ref], rows[ref], at)
    {
      changed := Unresolved(rows, ref);
      if changed { rows := rows[ref := rows[ref].(lastCheckedAt := at)]; }
    }

    method ExpireTaskRun(ref: Ref, at: int) returns (changed: bool)
      modifies this`rows
      ensures rows == Expire(old(rows), ref, at) && OthersKept(old(rows), rows, ref)
      ensures changed == (ref in old(rows) && old(rows)[ref].state == Observed) && rows.Keys == old(rows).Keys
      ensures changed ==> rows[ref] == old(rows)[ref].(state := Expired, lastCheckedAt := at)
      ensures !changed ==> rows == old(rows)
    {
      changed := Unresolved(rows, ref);
      if changed { rows := rows[ref := rows[ref].(state := Expired, lastCheckedAt := at)]; }
    }

    method RecordTaskResult(ref: Ref, worker: Worker, e: Ended, category: Option<string>, at: int)
      modifies this`rows
      ensures rows == Settle(old(rows), ref, worker, e, category, at) && OthersKept(old(rows), rows, ref)
      ensures ref in rows && ResultWritten(RowAt(old(rows), ref), rows[ref], worker, e, category, at)
    {
      if ref !in rows {
        rows := rows[ref := Row(worker, e.state, category, e.reasonResolved, e.reasonCreated, e.scheduled,
                                e.started, e.resolved, at, at, at)];
      } else {
        var row := rows[ref];
        if !Terminal(row.state) {
          row := row.(worker := worker, state := e.state, category := category,
                      reasonResolved := e.reasonResolved, classifiedAt := at);
        }
        rows := rows[ref := row.(reasonCreated := Coalesce(row.reasonCreated, e.reasonCreated),
                                 scheduled := Coalesce(row.scheduled, e.scheduled),
                                 started := Coalesce(row.started, e.started),
                                 resolved := Coalesce(row.resolved, e.resolved),
                                 lastCheckedAt := at)];
      }
    }

    method UpsertWorker(w: Worker)
      modifies this`workers
      ensures workers == Upsert(old(workers), w)
      ensures workers == if w in old(workers) then old(workers) else old(workers)[w := Counters(0, 0, 0)]
    {
      if w !in workers { workers := workers[w := Counters(0, 0, 0)]; }
    }

    method IncrementSuccess(w: Worker)
      modifies this`workers
      ensures workers == Count(old(workers), w, true) && workers.Keys == old(workers).Keys
      ensures forall v :: v in workers && v != w ==> workers[v] == old(workers)[v]
      ensures w in workers ==> workers[w] == Counters(old(workers)[w].successes + 1, old(workers)[w].failures, 0)
    {
      if w in workers {
        workers := workers[w := Counters(workers[w].successes + 1, workers[w].failures, 0)];
      }
    }

    method IncrementFailure(w: Worker)
      modifies this`workers
      ensures workers == Count(old(workers), w, false) && workers.Keys == old(workers).Keys
      ensures forall v :: v in workers && v != w ==> workers[v] == old(workers)[v]
      ensures w in workers ==>
        && workers[w].successes == old(workers)[w].successes && workers[w].failures == old(workers)[w].failures + 1
        && workers[w].consecutiveFailures == old(workers)[w].consecutiveFailures + 1
    {
      if w in workers {
        var c := workers[w];
        workers := workers[w := Counters(c.successes, c.failures + 1, c.consecutiveFailures + 1)];
      }
    }

    method RecordRecentTaskWindow(w: Worker, recent: seq<Ref>, at: int)
      modifies this`windows
      ensures windows == old(windows)[w := StoredWindow(at, recent)]
    {
      windows := windows[w := StoredWindow(at, recent)];
    }

    /** Task-run coverage has no gap bound. */
    method RecordTaskRunCoverage(at: int, success: bool)
      modifies this`coverage
      ensures coverage == Record(old(coverage), Observation(at, success, None))
    {
      coverage := Record(coverage, Observation(at, success, None));
    }

    /** `get_terminal_task_runs`. */
    method GetTerminalTaskRuns(refs: seq<Ref>) returns (found: set<Ref>)
      ensures forall ref :: ref in found <==>
                ref in refs && ref in rows && rows[ref].state in {Completed, Failed, Exception, Expired}
    {
      found := set ref | ref in refs && ref in rows && Terminal(rows[ref].state);
    }

    /** `list_unresolved_task_runs`. */
    method ListUnresolvedTaskRuns(limit: nat) returns (backlog: seq<Ref>)
      ensures IsOldest(rows, limit, backlog)
    {
      var sorted := SortedBacklog(rows);
      var n := Min(limit, |sorted|);
      backlog := seq(n, i requires 0 <= i < n => sorted[i].ref);
      FirstAreOldest(rows, limit, sorted, backlog);
    }
  }

  /** The first row does not come after the second in the backlog. */
  ghost predicate NoLater(rows: map<Ref, Row>, a: Ref, b: Ref) {
    && a in rows && b in rows && rows[a].observedAt <= rows[b].observedAt
    && (rows[a].observedAt == rows[b].observedAt ==>
          && a.task <= b.task
          && (a.task == b.task ==> a.run == None || (b.run.Some? && a.run.value <= b.run.value)))
  }

  /**
    The first `limit` unresolved rows, each once: by first observation, then task, then run, a missing run first.
  */
  ghost predicate IsOldest(rows: map<Ref, Row>, limit: nat, backlog: seq<Ref>) {
    && |backlog| <= limit && Distinct(backlog)
    && (forall ref :: ref in backlog ==> ref in rows && rows[ref].state == Observed)
    && (forall i, j :: 0 <= i < j < |backlog| ==> NoLater(rows, backlog[i], backlog[j]))
    && (forall ref :: ref in rows && rows[ref].state == Observed && ref !in backlog ==>
          |backlog| == limit && forall b :: b in backlog ==> NoLater(rows, b, ref))
  }

  lemma {:induction false} FirstAreOldest(rows: map<Ref, Row>, limit: nat, sorted: seq<Entry>, backlog: seq<Ref>)
    requires SortedBy(sorted, EntryLeq) && Distinct(sorted)
    requires forall e :: e in sorted <==> Unresolved(rows, e.ref) && e == EntryOf(rows, e.ref)
    requires |backlog| == Min(limit, |sorted|) && forall i :: 0 <= i < |backlog| ==> backlog[i] == sorted[i].ref
    ensures IsOldest(rows, limit, backlog)
  {
    forall i | 0 <= i < |backlog| ensures Unresolved(rows, backlog[i]) && sorted[i] == EntryOf(rows, backlog[i]) {
      assert sorted[i] in sorted;
    }
    assert forall i :: 0 <= i < |backlog| ==> backlog[i] in backlog;
    forall ref | Unresolved(rows, ref) && ref !in backlog
      ensures |backlog| == limit && forall b :: b in backlog ==> NoLater(rows, b, ref)
    {
      assert EntryOf(rows, ref) in sorted;
      var i :| 0 <= i < |sorted| && sorted[i] == EntryOf(rows, ref);
    }
  }

  /** Marking rows as checked moves none of them. */
  lemma {:induction false} OldestKept(rows: map<Ref, Row>, rows': map<Ref, Row>, limit: nat, backlog: seq<Ref>)
    requires IsOldest(rows, limit, backlog) && rows'.Keys == rows.Keys
    requires forall ref :: ref in rows ==>
      rows'[ref].state == rows[ref].state && rows'[ref].observedAt == rows[ref].observedAt
    ensures IsOldest(rows', limit, backlog)
  {
    forall ref ensures Unresolved(rows', ref) <==> Unresolved(rows, ref) {}
    forall a, b ensures NoLater(rows', a, b) <==> NoLater(rows, a, b) {}
  }

  method SortedBacklog(rows: map<Ref, Row>) returns (sorted: seq<Entry>)
    ensures SortedBy(sorted, EntryLeq) && Distinct(sorted)
    ensures forall e :: e in sorted <==> Unresolved(rows, e.ref) && e == EntryOf(rows, e.ref)
  {
    var entries: seq<Entry> := [];
    var todo := rows.Keys;
    while todo != {}
      invariant todo <= rows.Keys && Distinct(entries)
      invariant forall e :: e in entries <==> e.ref !in todo && Unresolved(rows, e.ref) && e == EntryOf(rows, e.ref)
      decreases todo
    {
      var ref := Pick(todo);
      if !Terminal(rows[ref].state) { entries := entries + [EntryOf(rows, ref)]; }
      todo := todo - {ref};
    }
    sorted := Sort(entries, EntryLeq);
    SortMembers(entries, EntryLeq);
    SortDistinct(entries, EntryLeq);
    EntryLeqTotal();
    SortSorted(entries, EntryLeq);
  }

  lemma {:induction false} EntryLeqTotal()
    ensures TotalOrder(EntryLeq)
  {
  }
}
