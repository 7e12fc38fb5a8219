/**
  The collection protocol as a transition system over commit points. Every state's database is durable;
  whatever a process does between two commits is lost if it dies, so a crash is a return to `Idle`.
*/
module CollectionSteps {
  import opened Sorting
  import opened Wrappers
  import opened TaskRuns
  import opened Pool
  import opened Continuity
  import opened Coverage

  datatype Reference = Reference(ref: Ref, worker: Worker)

  /** What the Queue may say of a run; one that has not ended has no end. */
  datatype RunInfo = RunInfo(worker: Option<Worker>, ended: Option<Ended>)

  /** The Queue's answer for a task; the answer is arbitrary. */
  datatype Outcome = Failure | Gone | Answer(runs: map<Option<nat>, RunInfo>)

  type Statuses = map<nat, Outcome>

  /** The Queue has dropped the task. */
  ghost predicate Dropped(statuses: Statuses, task: nat) { task in statuses && statuses[task].Gone? }

  /** The Queue's answer lists the run as one of this worker's. */
  ghost predicate NamesWorker(statuses: Statuses, ref: Ref, w: Worker) {
    && ref.task in statuses && statuses[ref.task].Answer?
    && ref.run in statuses[ref.task].runs && statuses[ref.task].runs[ref.run].worker == Some(w)
  }

  /** And says that it completed, failed or ended in an exception, with this end. */
  ghost predicate ReportsEnd(statuses: Statuses, ref: Ref, w: Worker, e: Ended) {
    && NamesWorker(statuses, ref, w) && statuses[ref.task].runs[ref.run].ended == Some(e)
    && (e.state == Completed || e.state == Failed || e.state == Exception)
  }

  /** A task without an answer is treated as a failed request. */
  function OutcomeOf(statuses: Statuses, task: nat): (o: Outcome)
    ensures o == Gone <==> Dropped(statuses, task)
  {
    if task in statuses then statuses[task] else Failure
  }

  /** The end the Queue reports for a reference, if it names that worker. */
  function EndOf(statuses: Statuses, r: Reference): (end: Option<Ended>)
    ensures forall e :: end == Some(e) <==> ReportsEnd(statuses, r.ref, r.worker, e)
  {
    match OutcomeOf(statuses, r.ref.task)
    case Answer(runs) =>
      if r.ref.run in runs && runs[r.ref.run].worker == Some(r.worker) && runs[r.ref.run].ended.Some?
         && runs[r.ref.run].ended.value.state in {Completed, Failed, Exception}
      then runs[r.ref.run].ended else None
    case _ => None
  }

  /** The answer settles nothing about the reference: it failed, or does not name the worker. */
  predicate Unanswered(statuses: Statuses, r: Reference): (u: bool)
    ensures u <==> !Dropped(statuses, r.ref.task) && !NamesWorker(statuses, r.ref, r.worker)
  {
    match OutcomeOf(statuses, r.ref.task)
    case Failure => true
    case Gone => false
    case Answer(runs) => r.ref.run !in runs || runs[r.ref.run].worker != Some(r.worker)
  }

  // ----- Phase relations -----

  /** Existing rows change at most their check time, and only while unresolved. */
  ghost predicate RowsKept(rows: map<Ref, Row>, rows': map<Ref, Row>) {
    forall ref :: ref in rows ==>
      && ref in rows'
      && rows'[ref] == rows[ref].(lastCheckedAt := rows'[ref].lastCheckedAt)
      && (Terminal(rows[ref].state) ==> rows'[ref] == rows[ref])
  }

  ghost predicate Lists(fetched: seq<Fetched>, w: Worker, ref: Ref) {
    exists i :: 0 <= i < |fetched| && fetched[i].worker == w && ref in fetched[i].recent
  }

  /** New rows are fresh observations of a worker that lists them. */
  ghost predicate NewRowsListed(rows: map<Ref, Row>, rows': map<Ref, Row>, fetched: seq<Fetched>, at: int) {
    forall ref :: ref in rows' && ref !in rows ==>
      rows'[ref].state == Observed && rows'[ref].observedAt == at && Lists(fetched, rows'[ref].worker, ref)
  }

  /** Every reference is unresolved, marked as checked, and comes from a window or from the backlog. */
  ghost predicate ReferencesPrepared(
    rows': map<Ref, Row>, fetched: seq<Fetched>, checkedAt: int, references: seq<Reference>)
  {
    && Distinct(references)
    && forall r :: r in references ==>
         && Unresolved(rows', r.ref) && rows'[r.ref].lastCheckedAt == checkedAt
         && (Lists(fetched, r.worker, r.ref) || rows'[r.ref].worker == r.worker)
  }

  /** Every listed run that was not settled before has a reference for each worker listing it. */
  ghost predicate NothingListedIsMissed(
    rows: map<Ref, Row>, fetched: seq<Fetched>, seen: set<Reference>, references: seq<Reference>)
  {
    forall w, ref :: Lists(fetched, w, ref) && !(ref in rows && Terminal(rows[ref].state)) && Reference(ref, w) !in seen
      ==> Reference(ref, w) in references
  }

  ghost predicate Referenced(references: seq<Reference>, ref: Ref) {
    exists i :: 0 <= i < |references| && references[i].ref == ref
  }

  /** The first fetched window that lists the run, of those whose reference is not remembered, is this worker's. */
  ghost predicate FirstLists(fetched: seq<Fetched>, seen: set<Reference>, w: Worker, ref: Ref) {
    exists i :: 0 <= i < |fetched| && fetched[i].worker == w && ref in fetched[i].recent && Reference(ref, w) !in seen
      && forall j :: 0 <= j < i && ref in fetched[j].recent ==> Reference(ref, fetched[j].worker) in seen
  }

  /** A new row names the first worker that lists the run. */
  ghost predicate NewRowsNameFirst(
    rows: map<Ref, Row>, rows': map<Ref, Row>, fetched: seq<Fetched>, seen: set<Reference>)
  {
    forall ref :: ref in rows' && ref !in rows ==> FirstLists(fetched, seen, rows'[ref].worker, ref)
  }

  const UNRESOLVED_BATCH_SIZE := 1000

  ghost predicate Merged(
    rows: map<Ref, Row>, references: seq<Reference>, references': seq<Reference>, backlog: seq<Ref>)
  {
    && references <= references'
    && (forall ref :: ref in backlog ==> ref in rows && Reference(ref, rows[ref].worker) in references')
    && (forall r :: r in references' && r !in references ==>
          r.ref in backlog && r.ref in rows && rows[r.ref].worker == r.worker)
  }

  /** The references include the oldest unresolved rows, and beyond the listed ones nothing else. */
  ghost predicate OldestReferenced(rows': map<Ref, Row>, fetched: seq<Fetched>, references: seq<Reference>) {
    exists listed: seq<Reference>, backlog: seq<Ref> :: IsOldest(rows', 1000, backlog)
      && Merged(rows', listed, references, backlog)
      && forall r :: r in listed ==> Lists(fetched, r.worker, r.ref)
  }

  /** Every row that is new or changed has a reference. */
  ghost predicate TouchedAreReferenced(rows: map<Ref, Row>, rows': map<Ref, Row>, references: seq<Reference>) {
    forall ref :: ref in rows' && !Referenced(references, ref) ==> ref in rows && rows'[ref] == rows[ref]
  }

  ghost predicate Prepares(
    db: Db, db': Db, fetched: seq<Fetched>, mode: Mode, observedAt: int, checkedAt: int, references: seq<Reference>)
  {
    && RowsKept(db.rows, db'.rows)
    && NewRowsListed(db.rows, db'.rows, fetched, observedAt)
    && ReferencesPrepared(db'.rows, fetched, checkedAt, references)
    && TouchedAreReferenced(db.rows, db'.rows, references)
    && db'.workers == db.workers && db'.coverage == db.coverage
    && db'.windows == ScanAll(db.windows, fetched, mode, observedAt).windows
  }

  /** Expired references end as expired; every other row is as it was. */
  ghost predicate RowsExpired(
    rows: map<Ref, Row>, rows': map<Ref, Row>, references: seq<Reference>, statuses: Statuses, at: int)
  {
    && rows'.Keys == rows.Keys
    && forall ref :: ref in rows ==>
         rows'[ref] == if Referenced(references, ref) && Dropped(statuses, ref.task) && rows[ref].state == Observed
                       then rows[ref].(state := Expired, lastCheckedAt := at) else rows[ref]
  }

  /** The ended runs are exactly those the Queue reports for a referenced worker, each run once. */
  ghost predicate TerminalsFound(references: seq<Reference>, statuses: Statuses, terminal: seq<TerminalTask>) {
    && (forall t :: t in terminal ==>
          && Reference(t.ref, t.worker) in references && ReportsEnd(statuses, t.ref, t.worker, t.ended))
    && (forall r, e :: r in references && ReportsEnd(statuses, r.ref, r.worker, e) ==>
          TerminalTask(r.ref, r.worker, e) in terminal)
    && (forall i, j :: 0 <= i < j < |terminal| ==> terminal[i].ref != terminal[j].ref)
  }

  ghost predicate Applies(
    db: Db, db': Db, references: seq<Reference>, statuses: Statuses, at: int, terminal: seq<TerminalTask>)
  {
    && RowsExpired(db.rows, db'.rows, references, statuses, at)
    && TerminalsFound(references, statuses, terminal)
    && db' == db.(rows := db'.rows)
  }

  // ----- The transition system -----

  datatype Phase = Idle | Fetching(references: seq<Reference>) | Writing(terminal: seq<TerminalTask>)

  datatype State = State(db: Db, phase: Phase)

  datatype Action =
    | Prepare(fetched: seq<Fetched>, mode: Mode, observedAt: int, checkedAt: int)
    | Apply(statuses: Statuses, at: int)
    | Cover(coverage: Recorder)
    | Persist(category: Option<string>, at: int)
    | Stop

  /** One commit, or the end of a pass: by finishing, by an interrupt or by a crash. */
  ghost predicate Next(s: State, a: Action, s': State) {
    match a
    case Prepare(fetched, mode, observedAt, checkedAt) =>
      s.phase.Idle? && s'.phase.Fetching?
          && Prepares(s.db, s'.db, fetched, mode, observedAt, checkedAt, s'.phase.references)
    case Apply(statuses, at) =>
      s.phase.Fetching? && s'.phase.Writing?
          && Applies(s.db, s'.db, s.phase.references, statuses, at, s'.phase.terminal)
    case Cover(coverage) =>
      s' == State(s.db.(coverage := coverage), s.phase)
    case Persist(category, at) =>
      && s.phase.Writing? && s.phase.terminal != []
      && s' == State(Persisted(s.db, s.phase.terminal[0], category, at), Writing(s.phase.terminal[1..]))
    case Stop =>
      s' == State(s.db, Idle)
  }

  datatype Run = Run(states: seq<State>, actions: seq<Action>)

  ghost predicate IsRun(r: Run) {
    && |r.states| == |r.actions| + 1
    && r.states[0] == State(NEW_DB, Idle)
    && forall i :: 0 <= i < |r.actions| ==> Next(r.states[i], r.actions[i], r.states[i + 1])
  }

  // ----- Invariants -----

  /** Counts are exact, and what is in memory still refers to durable, unresolved rows. */
  ghost predicate Good(s: State) {
    && CountedOnce(s.db)
    && match s.phase
       case Idle => true
       case Fetching(references) => Distinct(references) && forall r :: r in references ==> Unresolved(s.db.rows, r.ref)
       case Writing(terminal) =>
         && (forall i, j :: 0 <= i < j < |terminal| ==> terminal[i].ref != terminal[j].ref)
         && forall t :: t in terminal ==> CanEnd(t) && Unresolved(s.db.rows, t.ref)
  }

  lemma {:induction false} NewDbIsGood()
    ensures Good(State(NEW_DB, Idle))
  {
    forall w, states ensures RowsOf(NEW_DB.rows, w, states) == {} {}
  }

  lemma {:induction false} StepIsGood(s: State, a: Action, s': State)
    requires Good(s) && Next(s, a, s')
    ensures Good(s') && Extends(s.db, s'.db)
  {
    match a
    case Prepare(_, _, _, _) => CountsUntouched(s.db, s'.db);
    case Apply(statuses, at) => ApplyIsGood(s, statuses, at, s');
    case Cover(_) => CountsUntouched(s.db, s'.db);
    case Persist(category, at) =>
      var t := s.phase.terminal[0];
      assert t in s.phase.terminal;
      PersistCounts(s.db, t, category, at);
      forall u | u in s.phase.terminal[1..] ensures CanEnd(u) && Unresolved(s'.db.rows, u.ref) {
        assert u in s.phase.terminal && u.ref != t.ref;
      }
    case Stop =>
  }

  lemma {:induction false} ApplyIsGood(s: State, statuses: Statuses, at: int, s': State)
    requires Good(s) && Next(s, Apply(statuses, at), s')
    ensures Good(s') && Extends(s.db, s'.db)
  {
    CountsUntouched(s.db, s'.db);
    forall t | t in s'.phase.terminal ensures CanEnd(t) && Unresolved(s'.db.rows, t.ref) {
      assert Reference(t.ref, t.worker) in s.phase.references;
      assert ReportsEnd(statuses, t.ref, t.worker, t.ended);
    }
  }

  /**
    Exactly-once counting, over every run: whatever the Queue answers, and wherever passes are interrupted or
    processes die and restart, at every commit each worker's counters equal its rows.
  */
  lemma {:induction false} AlwaysCountedOnce(r: Run, i: nat)
    requires IsRun(r) && i < |r.states|
    ensures CountedOnce(r.states[i].db)
  {
    RunIsGood(r, i);
  }

  lemma {:induction false} RunIsGood(r: Run, i: nat)
    requires IsRun(r) && i < |r.states|
    ensures Good(r.states[i])
  {
    if i == 0 {
      NewDbIsGood();
    } else {
      RunIsGood(r, i - 1);
      StepIsGood(r.states[i - 1], r.actions[i - 1], r.states[i]);
    }
  }

  /** Over every run no row disappears, no first observation moves, and no verdict changes once it is settled. */
  lemma {:induction false} SettledForGood(r: Run, i: nat, j: nat)
    requires IsRun(r) && i <= j < |r.states|
    ensures Extends(r.states[i].db, r.states[j].db)
  {
    if i == j {
    } else {
      var last := j - 1;
      SettledForGood(r, i, last);
      StepExtends(r, last);
      ExtendsTransitive(r.states[i].db, r.states[last].db, r.states[j].db);
    }
  }

  lemma {:induction false} StepExtends(r: Run, i: nat)
    requires IsRun(r) && i < |r.actions|
    ensures Extends(r.states[i].db, r.states[i + 1].db)
  {
    RunIsGood(r, i);
    StepIsGood(r.states[i], r.actions[i], r.states[i + 1]);
  }

  /** Whenever the Queue is asked, every run asked about is already durable and unresolved. */
  lemma {:induction false} DurableBeforeAsking(r: Run, i: nat, reference: Reference)
    requires IsRun(r) && i < |r.states| && r.states[i].phase.Fetching? && reference in r.states[i].phase.references
    ensures Unresolved(r.states[i].db.rows, reference.ref)
  {
    RunIsGood(r, i);
  }
}
