/** Processes that die at any point of a pass, and the ones that take over: the collector over a store's whole life. */
module Lifetimes {
  import opened TaskRuns
  import opened Pool
  import opened CoverageSafety
  import opened Collector

  /**
    Where a pass dies: with windows noted but not committed; while asking the Queue; with answers applied but not
    committed; with answers committed but no verdict; or while writing a result, which is then lost.
  */
  datatype Death = Noting | Asking | Applying | Undecided | WritingResults

  datatype Event = Completes(pass: Pass) | Dies(pass: Pass, death: Death)

  /** What the coverage history sees of a pass: nothing, its windows only, or its windows and its verdict. */
  function PollsOf(e: Event): seq<Poll> {
    match e
    case Completes(p) => [p.poll.(completed := true)]
    case Dies(p, Noting) => []
    case Dies(p, WritingResults) => [p.poll.(completed := true)]
    case Dies(p, _) => [p.poll.(completed := false)]
  }

  function PollHistory(events: seq<Event>): seq<Poll> {
    if events == [] then [] else PollHistory(events[..|events| - 1]) + PollsOf(events[|events| - 1])
  }

  function LedgerOf(db: Db): Ledger { Ledger(db.windows, db.coverage) }

  ghost function AfterPolls(l: Ledger, polls: seq<Poll>): Ledger {
    if polls == [] then l else AfterPass(AfterPolls(l, polls[..|polls| - 1]), polls[|polls| - 1])
  }

  lemma {:induction false} AfterAppend(polls: seq<Poll>, more: seq<Poll>)
    requires |more| <= 1
    ensures After(polls + more) == AfterPolls(After(polls), more)
  {
    if more == [] {
      assert polls + more == polls;
    } else {
      assert (polls + more)[..|polls|] == polls && more[..0] == [];
    }
  }

  /** The pass as it goes if nothing cuts it off. */
  function Uncut(p: Pass): Pass { p.(poll := p.poll.(completed := true)) }

  ghost predicate Starts(c: Collector, p: Pass)
    reads c, c.storage
  {
    c.Valid() && Last(c.trace).phase.Idle? && p.poll.mode == c.mode && p.poll.completed
  }

  /** A pass that dies; what it leaves durable is a point of the protocol. */
  method DyingPass(c: Collector, p: Pass, death: Death)
    requires Starts(c, p)
    modifies c, c.storage
    ensures c.Recoverable()
    ensures LedgerOf(c.storage.Durable()) == AfterPolls(old(LedgerOf(c.storage.View())), PollsOf(Dies(p, death)))
  {
    c.seen := {};
    if death == Undecided {
      var _, _, _ := c.AskQueue(p);
    } else if death == WritingResults {
      DiesWriting(c, p);
    } else if death == Noting {
      DiesNoting(c, p);
    } else {
      DiesAsking(c, p, death == Applying);
    }
  }

  /** Everything is still uncommitted. */
  method DiesNoting(c: Collector, p: Pass)
    requires Starts(c, p)
    modifies c, c.storage
    ensures c.Recoverable()
    ensures LedgerOf(c.storage.Durable()) == old(LedgerOf(c.storage.View()))
  {
    var _, _ := c.ObserveWindows(p.poll.fetched, p.poll.observedAt);
  }

  /** The rows and the windows are durable, and some answers may be applied but not committed. */
  method DiesAsking(c: Collector, p: Pass, applying: bool)
    requires Starts(c, p)
    modifies c, c.storage
    ensures c.Recoverable()
    ensures LedgerOf(c.storage.Durable())
      == AfterPass(old(LedgerOf(c.storage.View())), p.poll.(completed := false))
  {
    var references, _, _ := c.PrepareObservedTaskRunBatch(p.poll.fetched, p.poll.observedAt, p.checkedAt);
    if applying && references != [] {
      var _ := c.ApplyOne(references[0], p.statuses, p.appliedAt, [], c.storage.rows, c.seen, []);
    }
  }

  /** The results before the interrupt are durable, and the next one is cut off halfway. */
  method DiesWriting(c: Collector, p: Pass)
    requires Starts(c, p)
    modifies c, c.storage
    ensures c.Recoverable()
    ensures LedgerOf(c.storage.Durable()) == AfterPass(old(LedgerOf(c.storage.View())), p.poll)
  {
    ghost var db := c.storage.View();
    var terminal, work := c.CollectTerminals(p);
    CoveredIsRecorded(db, old(c.seen), c.mode, p, work);
    var labels := LabelsOf(p, terminal);
    var _ := c.ProcessResults(terminal, labels, p.tasksBeforeInterrupt);
    if p.tasksBeforeInterrupt < |terminal| {
      var t, l := terminal[p.tasksBeforeInterrupt], labels[p.tasksBeforeInterrupt];
      c.storage.RecordTaskResult(t.ref, t.worker, t.ended, l.category, l.at);
    }
  }

  /**
    One pass, or one that dies and the process that takes over from what is durable.
    A pass in another mode is one of a new process, configured so.
  */
  method Live(c: Collector, e: Event) returns (c': Collector)
    requires c.Valid() && Last(c.trace).phase.Idle?
    modifies c, c.storage
    ensures c' == c || fresh(c')
    ensures c'.Valid() && Last(c'.trace).phase.Idle? && c'.storage == c.storage && c'.mode == e.pass.poll.mode
    ensures LedgerOf(c.storage.View()) == AfterPolls(old(LedgerOf(c.storage.View())), PollsOf(e))
  {
    c' := c;
    if c.mode != e.pass.poll.mode { c' := new Collector.Reopen(c.storage, e.pass.poll.mode, c.trace); }
    c' := LiveOn(c', e);
  }

  method LiveOn(c: Collector, e: Event) returns (c': Collector)
    requires c.Valid() && Last(c.trace).phase.Idle? && c.mode == e.pass.poll.mode
    modifies c, c.storage
    ensures c' == c || fresh(c')
    ensures c'.Valid() && Last(c'.trace).phase.Idle? && c'.storage == c.storage && c'.mode == c.mode
    ensures LedgerOf(c.storage.View()) == AfterPolls(old(LedgerOf(c.storage.View())), PollsOf(e))
  {
    c' := c;
    if e.Completes? {
      var _, _ := c.ClassifyCycle(Uncut(e.pass));
    } else {
      DyingPass(c, Uncut(e.pass), e.death);
      c' := TakeOver(c);
    }
  }

  /** Another process opens the store that a dead one left. */
  method TakeOver(c: Collector) returns (c': Collector)
    requires c.Recoverable()
    modifies c.storage
    ensures fresh(c') && c'.Valid() && Last(c'.trace).phase.Idle? && c'.storage == c.storage && c'.mode == c.mode
    ensures c.storage.View() == old(c.storage.Durable()) && c.storage.commits == old(c.storage.commits)
  {
    c.storage.Crash();
    c' := new Collector.Reopen(c.storage, c.mode, c.trace);
  }

  /**
    A store's whole life, from empty: whatever passes complete or die in it, every commit counts each settled run
    once and loses nothing settled before, and its windows and coverage are those of the passes' observations.
  */
  method Serve(storage: Storage, mode: Mode, events: seq<Event>)
    requires storage.View() == NEW_DB && storage.commits == [NEW_DB]
    modifies storage
    ensures storage.commits != [] && storage.View() == storage.Durable()
    ensures forall db :: db in storage.commits ==> CountedOnce(db) && Extends(db, storage.View())
    ensures LedgerOf(storage.View()) == After(PollHistory(events))
  {
    var c := new Collector(storage, mode);
    for k := 0 to |events|
      invariant fresh(c) && c.storage == storage && c.Valid() && Last(c.trace).phase.Idle?
      invariant LedgerOf(storage.View()) == After(PollHistory(events[..k]))
    {
      assert events[..k + 1][..k] == events[..k];
      AfterAppend(PollHistory(events[..k]), PollsOf(events[k]));
      c := Live(c, events[k]);
    }
    assert events[..|events|] == events;
    CommitsAreCounted(c.trace, storage.commits);
  }
}
