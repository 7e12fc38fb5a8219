/** Draining the runs that lack schedule metadata, batch by batch. */
module Backfill {
  import opened Sorting
  import opened Wrappers
  import opened TaskRuns

  // ----- What is to be done -----

  /** References that are not asked about again: tasks the Queue has dropped, and runs it does not report. */
  datatype Skips = Skips(expiredTasks: set<nat>, unmatchedRuns: set<Ref>)

  predicate Skipped(s: Skips, ref: Ref) { ref.task in s.expiredTasks || ref in s.unmatchedRuns }

  predicate Eligible(rows: map<Ref, Row>, notBefore: Option<int>, ref: Ref) {
    && ref in rows && ref.run.Some?
    && rows[ref].scheduled == None && rows[ref].started.Some?
    && (notBefore.Some? ==> notBefore.value <= rows[ref].started.value)
  }

  ghost predicate Pending(rows: map<Ref, Row>, skips: Skips, notBefore: Option<int>, ref: Ref) {
    Eligible(rows, notBefore, ref) && !Skipped(skips, ref)
  }

  ghost function PendingSet(rows: map<Ref, Row>, skips: Skips, notBefore: Option<int>): set<Ref> {
    set ref | ref in rows && Pending(rows, skips, notBefore, ref)
  }

  // ----- The ordered backlog -----

  /** Newest end first, then task, then run. */
  datatype Item = Item(ref: Ref, at: int)

  function ItemOf(rows: map<Ref, Row>, ref: Ref): Item
    requires ref in rows
  {
    Item(ref, if rows[ref].resolved.Some? then rows[ref].resolved.value else rows[ref].classifiedAt)
  }

  predicate ItemLeq(a: Item, b: Item) {
    || a.at > b.at
    || (a.at == b.at && a.ref.task < b.ref.task)
    || (a.at == b.at && a.ref.task == b.ref.task && RunKey(a.ref.run) <= RunKey(b.ref.run))
  }

  lemma {:induction false} ItemLeqOrders()
    ensures TotalOrder(ItemLeq) && Antisymmetric(ItemLeq)
  {
  }

  /** The eligible runs, each once, in query order. */
  ghost predicate IsBacklog(rows: map<Ref, Row>, notBefore: Option<int>, items: seq<Item>) {
    && SortedBy(items, ItemLeq) && Distinct(items)
    && forall i :: i in items <==> Eligible(rows, notBefore, i.ref) && i == ItemOf(rows, i.ref)
  }

  method Backlog(rows: map<Ref, Row>, notBefore: Option<int>) returns (items: seq<Item>)
    ensures IsBacklog(rows, notBefore, items)
  {
    var found: seq<Item> := [];
    var todo := rows.Keys;
    while todo != {}
      invariant todo <= rows.Keys && Distinct(found)
      invariant forall i :: i in found <==>
        i.ref !in todo && Eligible(rows, notBefore, i.ref) && i == ItemOf(rows, i.ref)
      decreases todo
    {
      var ref := Pick(todo);
      if Eligible(rows, notBefore, ref) { found := found + [ItemOf(rows, ref)]; }
      todo := todo - {ref};
    }
    items := Sort(found, ItemLeq);
    SortMembers(found, ItemLeq);
    SortDistinct(found, ItemLeq);
    ItemLeqOrders();
    SortSorted(found, ItemLeq);
  }

  /** `list_task_runs_missing_schedule`: one page. Every page is cut from the same order. */
  method ListMissingSchedule(
    rows: map<Ref, Row>, notBefore: Option<int>, limit: nat, offset: nat, ghost backlog: seq<Item>)
    returns (page: seq<Item>)
    requires IsBacklog(rows, notBefore, backlog) && offset <= |backlog|
    ensures page == backlog[offset..Min(|backlog|, offset + limit)]
  {
    var items := Backlog(rows, notBefore);
    ItemLeqOrders();
    SortedUnique(items, backlog, ItemLeq);
    page := items[offset..Min(|items|, offset + limit)];
  }

  ghost function Kept(items: seq<Item>, skips: Skips): seq<Ref> {
    if items == [] then []
    else Kept(items[..|items| - 1], skips) + if Skipped(skips, items[|items| - 1].ref) then []
        else [items[|items| - 1].ref]
  }

  lemma {:induction false} KeptSplit(items: seq<Item>, skips: Skips, n: nat)
    requires n <= |items|
    ensures Kept(items[..n], skips) <= Kept(items, skips)
  {
    if n == |items| {
      assert items[..n] == items;
    } else {
      KeptSplit(items[..|items| - 1], skips, n);
      assert items[..|items| - 1][..n] == items[..n];
    }
  }

  lemma {:induction false} KeptMembers(items: seq<Item>, skips: Skips)
    ensures forall ref :: ref in Kept(items, skips) <==> !Skipped(skips, ref) && exists i :: i in items && i.ref == ref
  {
    if items == [] {
    } else {
      var init, last := items[..|items| - 1], items[|items| - 1];
      assert items == init + [last];
      KeptMembers(init, skips);
      assert last in items;
    }
  }

  /** The first batch of the backlog that is not skipped. */
  ghost predicate IsBatch(rows: map<Ref, Row>, skips: Skips, notBefore: Option<int>, size: nat, selected: seq<Ref>) {
    exists backlog :: IsBacklog(rows, notBefore, backlog)
      && selected == Kept(backlog, skips)[..Min(size, |Kept(backlog, skips)|)]
  }

  /** The paging loop of `backfill_start_lag`. */
  method SelectBatch(rows: map<Ref, Row>, skips: Skips, notBefore: Option<int>, size: nat) returns (selected: seq<Ref>)
    requires 0 < size
    ensures IsBatch(rows, skips, notBefore, size, selected)
  {
    ghost var backlog := Backlog(rows, notBefore);
    selected := [];
    var offset := 0;
    ghost var taken := 0;
    while |selected| < size
      invariant 0 <= taken <= offset <= |backlog| && selected == Kept(backlog[..taken], skips) && |selected| <= size
      invariant |selected| < size ==> taken == offset
      decreases |backlog| - offset
    {
      var page := ListMissingSchedule(rows, notBefore, size, offset, backlog);
      if page == [] { break; }
      var n;
      selected, n := TakePage(page, skips, size, selected, backlog, offset);
      taken := offset + n;
      offset := offset + |page|;
      if |page| < size { break; }
    }
    IsPrefixBatch(backlog, skips, taken, size, selected);
  }

  lemma {:induction false} IsPrefixBatch(backlog: seq<Item>, skips: Skips, taken: nat, size: nat, selected: seq<Ref>)
    requires taken <= |backlog| && selected == Kept(backlog[..taken], skips) && |selected| <= size
    requires |selected| < size ==> taken == |backlog|
    ensures selected == Kept(backlog, skips)[..Min(size, |Kept(backlog, skips)|)]
  {
    KeptSplit(backlog, skips, taken);
    assert taken == |backlog| ==> backlog[..taken] == backlog;
  }

  /** Takes what is not skipped from one page, up to the batch size. */
  method TakePage(
    page: seq<Item>, skips: Skips, size: nat, selected: seq<Ref>, ghost backlog: seq<Item>, ghost offset: nat)
    returns (selected': seq<Ref>, n: nat)
    requires offset + |page| <= |backlog| && page == backlog[offset..offset + |page|]
    requires selected == Kept(backlog[..offset], skips) && |selected| < size
    ensures n <= |page| && selected' == Kept(backlog[..offset + n], skips) && |selected'| <= size
    ensures |selected'| < size ==> n == |page|
  {
    selected', n := selected, 0;
    while n < |page| && |selected'| < size
      invariant 0 <= n <= |page| && |selected'| <= size
      invariant selected' == Kept(backlog[..offset + n], skips)
    {
      assert backlog[..offset + n + 1][..offset + n] == backlog[..offset + n];
      assert backlog[..offset + n + 1][offset + n] == page[n];
      if !Skipped(skips, page[n].ref) { selected' := selected' + [page[n].ref]; }
      n := n + 1;
    }
  }

  lemma {:induction false} BatchIsPending(
    rows: map<Ref, Row>, skips: Skips, notBefore: Option<int>, size: nat, selected: seq<Ref>)
    requires IsBatch(rows, skips, notBefore, size, selected) && 0 < size
    ensures forall ref :: ref in selected ==> Pending(rows, skips, notBefore, ref)
    ensures selected == [] ==> PendingSet(rows, skips, notBefore) == {}
  {
    var backlog :| IsBacklog(rows, notBefore, backlog)
      && selected == Kept(backlog, skips)[..Min(size, |Kept(backlog, skips)|)];
    KeptMembers(backlog, skips);
    forall ref | ref in selected ensures Pending(rows, skips, notBefore, ref) {
      assert ref in Kept(backlog, skips);
    }
    if selected == [] {
      forall ref | ref in rows ensures !Pending(rows, skips, notBefore, ref) {
        assert ItemOf(rows, ref) in backlog <==> Eligible(rows, notBefore, ref);
        assert ref !in Kept(backlog, skips);
      }
    }
  }

  // ----- One batch -----

  /** What the Queue says of a run: its schedule time, if any, and why it was created. */
  datatype Reported = Reported(scheduled: Option<int>, reasonCreated: Option<string>)

  /** The Queue's reply for a task: none in time, no such task, or the runs it reports. */
  datatype Reply = Transient | Gone | Runs(runs: map<Option<nat>, Reported>)

  type Replies = map<nat, Reply>

  function ReplyOf(replies: Replies, task: nat): Reply { if task in replies then replies[task] else Transient }

  /** What the reply says of a run it schedules. */
  function MetadataOf(replies: Replies, ref: Ref): Option<Reported> {
    match ReplyOf(replies, ref.task)
    case Runs(runs) => if ref.run in runs && runs[ref.run].scheduled.Some? then Some(runs[ref.run]) else None
    case _ => None
  }

  /** Both columns are written, also when the reply gives no reason. */
  function WithMetadata(row: Row, m: Reported): Row {
    row.(scheduled := m.scheduled, reasonCreated := m.reasonCreated)
  }

  /** What a batch does to the rows: each selected run that the Queue schedules is enriched, nothing else changes. */
  ghost predicate Enriched(rows: map<Ref, Row>, rows': map<Ref, Row>, selected: seq<Ref>, replies: Replies) {
    && rows'.Keys == rows.Keys
    && forall ref :: ref in rows ==>
         rows'[ref] == if ref in selected && rows[ref].scheduled == None && MetadataOf(replies, ref).Some?
                       then WithMetadata(rows[ref], MetadataOf(replies, ref).value) else rows[ref]
  }

  /** What a batch adds to the skips: tasks that are gone, and runs of answered tasks without a schedule. */
  ghost predicate SkipsGrow(skips: Skips, skips': Skips, selected: seq<Ref>, replies: Replies) {
    && (forall task :: task in skips'.expiredTasks <==>
          || task in skips.expiredTasks
          || (ReplyOf(replies, task) == Gone && exists ref :: ref in selected && ref.task == task))
    && (forall ref :: ref in skips'.unmatchedRuns <==>
          || ref in skips.unmatchedRuns
          || (ref in selected && ReplyOf(replies, ref.task).Runs? && MetadataOf(replies, ref) == None))
  }

  datatype Stats = Stats(selectedRuns: nat, transientFailures: nat)

  ghost predicate AllAnswered(selected: seq<Ref>, replies: Replies) {
    forall ref :: ref in selected ==> !ReplyOf(replies, ref.task).Transient?
  }

  /** A finished batch: what it selected, did to the rows, learned to skip and reported. */
  ghost predicate BatchDone(
    rows: map<Ref, Row>, rows': map<Ref, Row>, skips: Skips, skips': Skips, notBefore: Option<int>, size: int,
    selected: seq<Ref>, replies: Replies, stats: Stats)
  {
    && 0 < size && IsBatch(rows, skips, notBefore, size, selected)
    && Enriched(rows, rows', selected, replies)
    && SkipsGrow(skips, skips', selected, replies)
    && stats.selectedRuns == |selected|
    && (stats.transientFailures == 0 <==> AllAnswered(selected, replies))
  }

  datatype BatchError = BatchSizeNotPositive | LockBusy

  method ApplyReply(
    ghost rows0: map<Ref, Row>, rows: map<Ref, Row>, ghost skips0: Skips, skips: Skips, ghost done: seq<Ref>, ref: Ref,
    replies: Replies)
    returns (rows': map<Ref, Row>, skips': Skips)
    requires Enriched(rows0, rows, done, replies) && SkipsGrow(skips0, skips, done, replies)
    ensures Enriched(rows0, rows', done + [ref], replies) && SkipsGrow(skips0, skips', done + [ref], replies)
  {
    rows', skips' := rows, skips;
    match ReplyOf(replies, ref.task) {
      case Transient =>
      case Gone => skips' := skips.(expiredTasks := skips.expiredTasks + {ref.task});
      case Runs(_) =>
        var metadata := MetadataOf(replies, ref);
        if metadata == None {
          skips' := skips.(unmatchedRuns := skips.unmatchedRuns + {ref});
        } else if ref in rows && rows[ref].scheduled == None {
          rows' := rows[ref := WithMetadata(rows[ref], metadata.value)];
        }
    }
    AppendSelects(done, ref);
  }

  /** The replies, applied to the selected runs in order. */
  method ApplyReplies(rows: map<Ref, Row>, skips: Skips, selected: seq<Ref>, replies: Replies)
    returns (rows': map<Ref, Row>, skips': Skips)
    ensures Enriched(rows, rows', selected, replies) && SkipsGrow(skips, skips', selected, replies)
  {
    rows', skips' := rows, skips;
    for k := 0 to |selected|
      invariant Enriched(rows, rows', selected[..k], replies)
      invariant SkipsGrow(skips, skips', selected[..k], replies)
    {
      assert selected[..k + 1] == selected[..k] + [selected[k]];
      rows', skips' := ApplyReply(rows, rows', skips, skips', selected[..k], selected[k], replies);
    }
    assert selected[..|selected|] == selected;
  }

  /**
    `backfill_start_lag`: selects, asks, writes and saves the skips. With no transient failure
    every selected run leaves the pending set, and none ever enters it.
  */
  method BackfillBatch(
    rows: map<Ref, Row>, skips: Skips, notBefore: Option<int>, size: int, lockBusy: bool, replies: Replies)
    returns (rows': map<Ref, Row>, skips': Skips, r: Result<Stats, BatchError>)
    ensures r == Err(BatchSizeNotPositive) <==> size <= 0
    ensures r == Err(LockBusy) <==> 0 < size && lockBusy
    ensures r.Err? ==> rows' == rows && skips' == skips
    ensures r.Ok? ==>
      exists selected :: BatchDone(rows, rows', skips, skips', notBefore, size, selected, replies, r.value)
  {
    rows', skips' := rows, skips;
    if size <= 0 { return rows', skips', Err(BatchSizeNotPositive); }
    if lockBusy { return rows', skips', Err(LockBusy); }
    var selected := SelectBatch(rows, skips, notBefore, size);
    var failed := set ref | ref in selected && ReplyOf(replies, ref.task).Transient? :: ref.task;
    rows', skips' := ApplyReplies(rows, skips, selected, replies);
    assert failed == {} <==> AllAnswered(selected, replies) by {
      forall ref | ref in selected && ReplyOf(replies, ref.task).Transient? ensures ref.task in failed {}
    }
    r := Ok(Stats(|selected|, |failed|));
    assert BatchDone(rows, rows', skips, skips', notBefore, size, selected, replies, r.value);
  }

  lemma {:induction false} AppendSelects(done: seq<Ref>, ref: Ref)
    ensures forall r :: r in done + [ref] <==> r in done || r == ref
  {
  }

  /**
    Progress: what a batch settles was pending, nothing becomes pending, and without failures all it selects is
    settled.
  */
  lemma {:induction false} BatchProgress(
    rows: map<Ref, Row>, rows': map<Ref, Row>, skips: Skips, skips': Skips, notBefore: Option<int>, size: nat,
    selected: seq<Ref>, replies: Replies)
    requires IsBatch(rows, skips, notBefore, size, selected) && 0 < size
    requires Enriched(rows, rows', selected, replies) && SkipsGrow(skips, skips', selected, replies)
    ensures PendingSet(rows', skips', notBefore) <= PendingSet(rows, skips, notBefore)
    ensures forall ref :: ref in selected && !ReplyOf(replies, ref.task).Transient? ==>
              ref in PendingSet(rows, skips, notBefore) && ref !in PendingSet(rows', skips', notBefore)
  {
    BatchIsPending(rows, skips, notBefore, size, selected);
  }

  /** The pending count falls with every batch that selects something and has every reply. */
  lemma {:induction false} PendingCountFalls(
    rows: map<Ref, Row>, rows': map<Ref, Row>, skips: Skips, skips': Skips, notBefore: Option<int>, size: nat,
    selected: seq<Ref>, replies: Replies)
    requires IsBatch(rows, skips, notBefore, size, selected) && 0 < size
    requires Enriched(rows, rows', selected, replies) && SkipsGrow(skips, skips', selected, replies)
    requires selected != [] && AllAnswered(selected, replies)
    ensures |PendingSet(rows', skips', notBefore)| < |PendingSet(rows, skips, notBefore)|
  {
    BatchProgress(rows, rows', skips, skips', notBefore, size, selected, replies);
    var before, after := PendingSet(rows, skips, notBefore), PendingSet(rows', skips', notBefore);
    assert selected[0] in before - after;
    assert before == after + (before - after);
  }

  /**
    A batch overwrites the creation reason a row already has exactly when it selects the run
    and the reply that schedules it gives another reason or none.
  */
  lemma {:induction false} ReasonLost(
    rows: map<Ref, Row>, rows': map<Ref, Row>, skips: Skips, notBefore: Option<int>, size: nat, selected: seq<Ref>,
    replies: Replies, ref: Ref)
    requires IsBatch(rows, skips, notBefore, size, selected) && 0 < size && Enriched(rows, rows', selected, replies)
    requires ref in rows && rows[ref].reasonCreated.Some?
    ensures rows'[ref].reasonCreated != rows[ref].reasonCreated <==>
      && ref in selected && MetadataOf(replies, ref).Some?
      && MetadataOf(replies, ref).value.reasonCreated != rows[ref].reasonCreated
  {
    BatchIsPending(rows, skips, notBefore, size, selected);
  }

  /** One eligible run with a creation reason, and a reply that schedules it and gives none: the reason is erased. */
  lemma {:induction false} ReasonErased(row: Row, ref: Ref, at: int, rows': map<Ref, Row>)
    requires row.scheduled == None && row.started.Some? && row.reasonCreated.Some? && ref.run.Some?
    requires Enriched(map[ref := row], rows', [ref], map[ref.task := Runs(map[ref.run := Reported(Some(at), None)])])
    ensures Eligible(map[ref := row], None, ref)
    ensures rows'[ref].scheduled == Some(at) && rows'[ref].reasonCreated == None
  {
    assert ref in [ref];
  }

  // ----- A batch, told by the rows, the skips and the replies -----

  /** A run is pending when it has an id, a start in time and no schedule, and neither it nor its task is skipped. */
  lemma {:induction false} PendingMeans(rows: map<Ref, Row>, skips: Skips, notBefore: Option<int>, ref: Ref)
    ensures ref in PendingSet(rows, skips, notBefore) <==>
      && ref in rows && ref.run.Some? && rows[ref].scheduled == None && rows[ref].started.Some?
      && (notBefore == None || notBefore.value <= rows[ref].started.value)
      && ref.task !in skips.expiredTasks && ref !in skips.unmatchedRuns
  {
  }

  /** When a run ended, or was classified if its end is not known. */
  ghost function EndedAt(row: Row): int { if row.resolved == None then row.classifiedAt else row.resolved.value }

  /** The first run ended later, or at the same time and has the smaller task, or the smaller run of the same task. */
  ghost predicate ComesFirst(rows: map<Ref, Row>, a: Ref, b: Ref) {
    && a in rows && b in rows && EndedAt(rows[b]) <= EndedAt(rows[a])
    && (EndedAt(rows[a]) == EndedAt(rows[b]) ==>
          && a.task <= b.task
          && (a.task == b.task ==> a.run.Some? && b.run.Some? && a.run.value <= b.run.value))
  }

  lemma {:induction false} BacklogIsNewestFirst(
    rows: map<Ref, Row>, notBefore: Option<int>, items: seq<Item>, i: nat, j: nat)
    requires IsBacklog(rows, notBefore, items) && i < j < |items|
    ensures ComesFirst(rows, items[i].ref, items[j].ref) && items[i].ref != items[j].ref
  {
    assert items[i] in items && items[j] in items;
  }

  /** The batch takes pending runs only, each before every pending run it leaves, and leaves none unless it is full. */
  lemma {:induction false} BatchIsFirst(
    rows: map<Ref, Row>, skips: Skips, notBefore: Option<int>, size: nat, selected: seq<Ref>, a: Ref, b: Ref)
    requires IsBatch(rows, skips, notBefore, size, selected) && 0 < size
    requires a in selected && b in PendingSet(rows, skips, notBefore) && b !in selected
    ensures a in PendingSet(rows, skips, notBefore) && ComesFirst(rows, a, b) && |selected| == size
  {
    BatchIsPending(rows, skips, notBefore, size, selected);
    var backlog :| IsBacklog(rows, notBefore, backlog)
      && selected == Kept(backlog, skips)[..Min(size, |Kept(backlog, skips)|)];
    var kept := Kept(backlog, skips);
    KeptMembers(backlog, skips);
    assert ItemOf(rows, b) in backlog;
    var i :| 0 <= i < |selected| && selected[i] == a;
    var j :| 0 <= j < |kept| && kept[j] == b;
    assert |selected| <= j by { assert forall k :: 0 <= k < |selected| ==> selected[k] in selected; }
    KeptInOrder(rows, notBefore, backlog, skips, i, j);
  }

  lemma {:induction false} KeptInOrder(
    rows: map<Ref, Row>, notBefore: Option<int>, backlog: seq<Item>, skips: Skips, i: nat, j: nat)
    requires IsBacklog(rows, notBefore, backlog) && i < j < |Kept(backlog, skips)|
    ensures ComesFirst(rows, Kept(backlog, skips)[i], Kept(backlog, skips)[j])
  {
    var positions := KeptPositions(backlog, skips);
    BacklogIsNewestFirst(rows, notBefore, backlog, positions[i], positions[j]);
  }

  /** Where in the backlog the kept runs are. */
  lemma {:induction false} KeptPositions(items: seq<Item>, skips: Skips) returns (positions: seq<nat>)
    ensures |positions| == |Kept(items, skips)|
    ensures forall i :: 0 <= i < |positions| ==>
      positions[i] < |items| && items[positions[i]].ref == Kept(items, skips)[i]
    ensures forall i, j :: 0 <= i < j < |positions| ==> positions[i] < positions[j]
  {
    if items == [] {
      positions := [];
    } else {
      var init, last := items[..|items| - 1], |items| - 1;
      positions := KeptPositions(init, skips);
      if !Skipped(skips, items[last].ref) { positions := positions + [last]; }
    }
  }

  /** The reply reports this of the run. */
  ghost predicate Reports(replies: Replies, ref: Ref, m: Reported) {
    && ref.task in replies && replies[ref.task].Runs?
    && ref.run in replies[ref.task].runs && replies[ref.task].runs[ref.run] == m
  }

  /**
    A selected run without a schedule that the reply schedules gets the schedule and the reason; any other row stays.
  */
  lemma {:induction false} EnrichedMeans(
    rows: map<Ref, Row>, rows': map<Ref, Row>, selected: seq<Ref>, replies: Replies, ref: Ref)
    requires Enriched(rows, rows', selected, replies) && ref in rows
    ensures forall m :: ref in selected && rows[ref].scheduled == None && Reports(replies, ref, m) && m.scheduled.Some?
              ==> rows'[ref] == rows[ref].(scheduled := m.scheduled, reasonCreated := m.reasonCreated)
    ensures rows'[ref] != rows[ref] ==>
      ref in selected && rows[ref].scheduled == None && exists m :: Reports(replies, ref, m) && m.scheduled.Some?
  {
    if MetadataOf(replies, ref).Some? { assert Reports(replies, ref, MetadataOf(replies, ref).value); }
  }

  /**
    Skipped from now on are the tasks replied as gone, and the runs of answered tasks that the reply does not
    schedule.
  */
  lemma {:induction false} SkipsMeans(skips: Skips, skips': Skips, selected: seq<Ref>, replies: Replies, ref: Ref)
    requires SkipsGrow(skips, skips', selected, replies) && ref in selected
    ensures ref.task in skips'.expiredTasks <==>
      ref.task in skips.expiredTasks || (ref.task in replies && replies[ref.task].Gone?)
    ensures ref in skips'.unmatchedRuns <==>
      || ref in skips.unmatchedRuns
      || (ref.task in replies && replies[ref.task].Runs? && !exists m :: Reports(replies, ref, m) && m.scheduled.Some?)
  {
    if MetadataOf(replies, ref).Some? { assert Reports(replies, ref, MetadataOf(replies, ref).value); }
  }

  // ----- The drain -----

  datatype Drained = Finished | Stopped | TransientFailures | LockedOut | Rejected

  /** What the drain meets in its batches: stop requests before and after, a held lock, and the Queue's replies. */
  datatype World = World(
    stopBefore: nat -> bool, lockBusy: nat -> bool, replies: nat -> Replies, stopAfter: nat -> bool)

  /** No row disappears, and a row changes at most by getting its schedule metadata while it is eligible. */
  ghost predicate Accounted(rows: map<Ref, Row>, rows': map<Ref, Row>, notBefore: Option<int>) {
    && rows'.Keys == rows.Keys
    && forall ref :: ref in rows && rows'[ref] != rows[ref] ==>
         && Eligible(rows, notBefore, ref) && rows'[ref].scheduled.Some?
         && rows'[ref] == rows[ref].(scheduled := rows'[ref].scheduled, reasonCreated := rows'[ref].reasonCreated)
  }

  /** In one of the first `n` batches the Queue reported the run so, dropped the task, or reported no schedule. */
  ghost predicate EnrichedBy(replies: nat -> Replies, n: nat, ref: Ref, row: Row, row': Row) {
    exists k :: 0 <= k < n && MetadataOf(replies(k), ref).Some?
      && row' == WithMetadata(row, MetadataOf(replies(k), ref).value)
  }

  ghost predicate Dropped(replies: nat -> Replies, n: nat, task: nat) {
    exists k :: 0 <= k < n && ReplyOf(replies(k), task) == Gone
  }

  ghost predicate Unmatched(replies: nat -> Replies, n: nat, ref: Ref) {
    exists k :: 0 <= k < n && ReplyOf(replies(k), ref.task).Runs? && MetadataOf(replies(k), ref) == None
  }

  /** What the drain wrote and what it learned to skip is what the Queue said. */
  ghost predicate SaidByQueue(
    rows: map<Ref, Row>, rows': map<Ref, Row>, skips: Skips, skips': Skips, replies: nat -> Replies, n: nat)
  {
    && rows'.Keys == rows.Keys
    && skips.expiredTasks <= skips'.expiredTasks && skips.unmatchedRuns <= skips'.unmatchedRuns
    && (forall ref :: ref in rows && rows'[ref] != rows[ref] ==> EnrichedBy(replies, n, ref, rows[ref], rows'[ref]))
    && (forall task :: task in skips'.expiredTasks - skips.expiredTasks ==> Dropped(replies, n, task))
    && (forall ref :: ref in skips'.unmatchedRuns - skips.unmatchedRuns ==> Unmatched(replies, n, ref))
  }

  lemma {:induction false} SaidOnceMore(
    rows: map<Ref, Row>, before: map<Ref, Row>, rows': map<Ref, Row>, skips: Skips, beforeSkips: Skips, skips': Skips,
    notBefore: Option<int>, selected: seq<Ref>, replies: nat -> Replies, n: nat)
    requires Accounted(rows, before, notBefore) && SaidByQueue(rows, before, skips, beforeSkips, replies, n)
    requires Enriched(before, rows', selected, replies(n)) && SkipsGrow(beforeSkips, skips', selected, replies(n))
    ensures SaidByQueue(rows, rows', skips, skips', replies, n + 1)
  {
    var m := n + 1;
    forall ref | ref in rows && rows'[ref] != rows[ref] ensures EnrichedBy(replies, m, ref, rows[ref], rows'[ref]) {
      if before[ref] != rows[ref] { assert EnrichedBy(replies, n, ref, rows[ref], before[ref]); }
    }
    forall task | task in skips'.expiredTasks - skips.expiredTasks ensures Dropped(replies, m, task) {
      if task in beforeSkips.expiredTasks { assert Dropped(replies, n, task); }
    }
    forall ref | ref in skips'.unmatchedRuns - skips.unmatchedRuns ensures Unmatched(replies, m, ref) {
      if ref in beforeSkips.unmatchedRuns { assert Unmatched(replies, n, ref); }
    }
  }

  /** Some batch got no reply for a run that was pending from the start. */
  ghost predicate MissedReply(pending: set<Ref>, replies: nat -> Replies) {
    exists k: nat, ref: Ref :: ref in pending && ReplyOf(replies(k), ref.task).Transient?
  }

  lemma {:induction false} MissedInBatch(
    pending: set<Ref>, rows: map<Ref, Row>, skips: Skips, notBefore: Option<int>, size: nat, selected: seq<Ref>,
    replies: nat -> Replies, k: nat)
    requires IsBatch(rows, skips, notBefore, size, selected) && 0 < size
      && PendingSet(rows, skips, notBefore) <= pending
    requires !AllAnswered(selected, replies(k))
    ensures MissedReply(pending, replies)
  {
    BatchIsPending(rows, skips, notBefore, size, selected);
    var ref :| ref in selected && ReplyOf(replies(k), ref.task).Transient?;
    assert ref in PendingSet(rows, skips, notBefore);
  }

  /** Nothing stops the drain: no stop, no held lock, and a reply for every run that is pending. */
  ghost predicate Undisturbed(pending: set<Ref>, world: World) {
    && (forall k :: !world.stopBefore(k) && !world.lockBusy(k) && !world.stopAfter(k))
    && !MissedReply(pending, world.replies)
  }

  /**
    `backfill_pool`: repeats batches until nothing is selected, a reply is missing, the lock is held or a stop is
    asked for. It always terminates, because without failures each batch shrinks the pending set.
  */
  method BackfillPool(rows: map<Ref, Row>, skips: Skips, notBefore: Option<int>, size: int, world: World)
    returns (rows': map<Ref, Row>, skips': Skips, outcome: Drained)
    ensures outcome == Rejected ==> size <= 0
    ensures size <= 0 ==> outcome in {Rejected, Stopped} && rows' == rows && skips' == skips
    ensures exists n :: SaidByQueue(rows, rows', skips, skips', world.replies, n)
    ensures Accounted(rows, rows', notBefore)
    ensures PendingSet(rows', skips', notBefore) <= PendingSet(rows, skips, notBefore)
    ensures outcome == Finished ==> PendingSet(rows', skips', notBefore) == {}
    ensures 0 < size && Undisturbed(PendingSet(rows, skips, notBefore), world) ==> outcome == Finished
    ensures outcome == TransientFailures ==> MissedReply(PendingSet(rows, skips, notBefore), world.replies)
    ensures outcome == Stopped ==> exists k :: world.stopBefore(k) || world.stopAfter(k)
    ensures outcome == LockedOut ==> exists k :: world.lockBusy(k)
  {
    rows', skips' := rows, skips;
    var tick := 0;
    while true
      invariant Accounted(rows, rows', notBefore) && SaidByQueue(rows, rows', skips, skips', world.replies, tick)
      invariant size <= 0 ==> rows' == rows && skips' == skips
      invariant PendingSet(rows', skips', notBefore) <= PendingSet(rows, skips, notBefore)
      decreases PendingSet(rows', skips', notBefore)
    {
      if world.stopBefore(tick) { return rows', skips', Stopped; }
      ghost var before, beforeSkips := rows', skips';
      var result;
      rows', skips', result :=
        BackfillBatch(rows', skips', notBefore, size, world.lockBusy(tick), world.replies(tick));
      if result.Err? { return rows', skips', if result.error == LockBusy then LockedOut else Rejected; }
      ghost var selected :|
        BatchDone(before, rows', beforeSkips, skips', notBefore, size, selected, world.replies(tick), result.value);
      BatchProgress(before, rows', beforeSkips, skips', notBefore, size, selected, world.replies(tick));
      StillAccounted(rows, before, rows', beforeSkips, notBefore, size, selected, world.replies(tick));
      SaidOnceMore(rows, before, rows', skips, beforeSkips, skips', notBefore, selected, world.replies, tick);
      if world.stopAfter(tick) { return rows', skips', Stopped; }
      if result.value.transientFailures != 0 {
        ghost var pending := PendingSet(rows, skips, notBefore);
        MissedInBatch(pending, before, beforeSkips, notBefore, size, selected, world.replies, tick);
        return rows', skips', TransientFailures;
      }
      if result.value.selectedRuns == 0 {
        BatchIsPending(before, beforeSkips, notBefore, size, selected);
        return rows', skips', Finished;
      }
      assert selected[0] in selected;
      tick := tick + 1;
    }
  }

  /**
    When nothing is pending any more, every run that was pending is enriched as the Queue said,
    its task is skipped because the Queue dropped it, or it is skipped because the Queue reported no schedule.
  */
  lemma {:induction false} NothingLost(
    rows: map<Ref, Row>, rows': map<Ref, Row>, skips: Skips, skips': Skips, notBefore: Option<int>,
    replies: nat -> Replies, n: nat, ref: Ref)
    requires SaidByQueue(rows, rows', skips, skips', replies, n) && PendingSet(rows', skips', notBefore) == {}
    requires ref in PendingSet(rows, skips, notBefore)
    ensures
      || (rows'[ref].scheduled.Some? && EnrichedBy(replies, n, ref, rows[ref], rows'[ref]))
      || (ref.task in skips'.expiredTasks && Dropped(replies, n, ref.task))
      || (ref in skips'.unmatchedRuns && Unmatched(replies, n, ref))
  {
    assert ref !in PendingSet(rows', skips', notBefore);
    if rows'[ref] != rows[ref] { assert EnrichedBy(replies, n, ref, rows[ref], rows'[ref]); }
  }

  lemma {:induction false} StillAccounted(
    rows: map<Ref, Row>, before: map<Ref, Row>, rows': map<Ref, Row>, skips: Skips, notBefore: Option<int>,
    size: nat, selected: seq<Ref>, replies: Replies)
    requires Accounted(rows, before, notBefore) && 0 < size
    requires IsBatch(before, skips, notBefore, size, selected) && Enriched(before, rows', selected, replies)
    ensures Accounted(rows, rows', notBefore)
  {
    BatchIsPending(before, skips, notBefore, size, selected);
  }
}
