/**
 Whole runs of an open folder: any sequence of listings, deletions, edits and flushes,
 with arbitrary server answers.
 */
module FolderRuns {
  import opened Basics
  import opened FolderState
  import opened FolderIndex
  import opened PendingQueue
  import opened UnreadCounter
  import opened PendingAgreement
  import opened SearchOrder
  import opened UidOrder
  import opened ArrivalOrder

  /** Everything the folder promises, the counter being `drift` off. */
  ghost predicate Good(f: Folder, drift: int) {
    Indexed(f) && Queued(f) && Counted(f, drift)
  }

  /** Removing a tag must leave something to send; every other event is admissible. */
  ghost predicate Admissible(f: Folder, e: Event) {
    e.TagSet? ==>
      var m := Find(f, e.uid);
      m.None? || e.value.Some? || m.value.changeMask != {} || m.value.tags.Keys - {e.name} != {}
  }

  ghost predicate AdmissibleRun(f: Folder, events: seq<Event>)
    decreases events
  {
    events == [] || (Admissible(f, events[0]) && AdmissibleRun(Step(f, events[0]), events[1..]))
  }

  /** How far the flushes of a run put the unread counter off. */
  function StepDrift(f: Folder, e: Event): int {
    if e.FlagsSent? then FlushDrift(f) else 0
  }

  function RunDrift(f: Folder, events: seq<Event>): int
    decreases events
  {
    if events == [] then 0 else StepDrift(f, events[0]) + RunDrift(Step(f, events[0]), events[1..])
  }

  // ---- steps ---------------------------------------------------------------

  lemma RefreshGood(f: Folder, rows: seq<Item>, ok: bool, drift: int)
    requires Good(f, drift)
    ensures Good(Refresh(f, rows, ok), drift)
  {
    hide Indexed, Queued, Counted, RefreshItems;
    var items := SortItems(FolderState.Usable(rows));
    RefreshItemsIndexed(f, items);
    RefreshItemsQueued(f, items);
    RefreshItemsCounted(f, items, drift);
  }

  lemma SyncDeletionsGood(f: Folder, deleted: int, visible: int, listed: seq<Listed>, drift: int)
    requires Good(f, drift)
    ensures Good(SyncDeletions(f, deleted, visible, listed), drift)
  {
    hide Indexed, Queued, Counted, MarkListed, RemoveUnknown, Known, U32;
    var marked := MarkListed(f, listed);
    MarkListedIndexed(f, listed);
    MarkListedQueued(f, listed);
    MarkListedCounted(f, listed, drift);
    RemoveUnknownIndexed(marked, Known(f, listed), |marked.messages| - 1);
    RemoveUnknownQueued(marked, Known(f, listed), |marked.messages| - 1);
    RemoveUnknownCounted(marked, Known(f, listed), |marked.messages| - 1, drift);
    CounterGood(f, U32(deleted), drift);
  }

  lemma CounterGood(f: Folder, n: nat, drift: int)
    requires Good(f, drift)
    ensures Good(f.(deletedCount := n), drift)
  {
    SameIndex(f, f.(deletedCount := n));
  }

  lemma ReconnectGood(f: Folder, total: Option<nat>, drift: int)
    requires Good(f, drift)
    ensures Good(Reconnect(f, total), drift)
  {
    SameIndex(f, Reconnect(f, total));
  }

  lemma StepGood(f: Folder, e: Event, drift: int)
    requires Good(f, drift) && Admissible(f, e)
    ensures Good(Step(f, e), drift + StepDrift(f, e))
  {
    hide Indexed, Queued, Counted, FlushDrift, GetContents, Refresh, Removals, MessageRemoved, SyncDeletions,
         SetFlags, SetTag, Flush, Find;
    match e
    case Refreshed(rows, ok) => RefreshGood(f, rows, ok, drift);
    case Opened(listing, ok) =>
      GetContentsIndexed(f, listing, ok);
      GetContentsQueued(f, listing, ok);
      GetContentsCounted(f, listing, ok, drift);
    case Synced(deleted, visible, listed) => SyncDeletionsGood(f, deleted, visible, listed, drift);
    case Removed(hrefs) =>
      RemovalsIndexed(f, hrefs);
      RemovalsQueued(f, hrefs);
      RemovalsCounted(f, hrefs, drift);
    case Vanished(href) =>
      MessageRemovedIndexed(f, href);
      MessageRemovedQueued(f, href);
      MessageRemovedCounted(f, href, drift);
    case FlagsSet(uid, flags, mask) =>
      SetFlagsIndexed(f, uid, flags, mask);
      SetFlagsQueued(f, uid, flags, mask);
      SetFlagsCounted(f, uid, flags, mask, drift);
    case TagSet(uid, name, value) =>
      SetTagIndexed(f, uid, name, value);
      SetTagQueuedIff(f, uid, name, value);
      SetTagCounted(f, uid, name, value, drift);
    case FlagsSent(gone) =>
      FlushIndexed(f, gone);
      FlushQueued(f, gone);
      QueuedFlushable(f);
      FlushCounted(f, gone, drift);
    case Reconnected(total) => ReconnectGood(f, total, drift);
  }

  // ---- runs ----------------------------------------------------------------

  /**
   The folder invariants over any admissible run: index agreement, an orderly queue of
   unsent edits, and an unread counter that is off by exactly the accumulated drift.
   */
  lemma {:induction false} RunGood(f: Folder, events: seq<Event>, drift: int)
    requires Good(f, drift) && AdmissibleRun(f, events)
    ensures Good(Run(f, events), drift + RunDrift(f, events))
    decreases events
  {
    hide Good, Step, StepDrift, Admissible;
    if events != [] {
      StepGood(f, events[0], drift);
      RunGood(Step(f, events[0]), events[1..], drift + StepDrift(f, events[0]));
    }
  }

  /** Every state the run goes through has an orderly queue. */
  ghost predicate QueuedThroughout(f: Folder, events: seq<Event>)
    decreases events
  {
    Queued(f) && (events == [] || QueuedThroughout(Step(f, events[0]), events[1..]))
  }

  /** An event keeps the queue orderly exactly when it is admissible. */
  lemma StepQueuedIff(f: Folder, e: Event, drift: int)
    requires Good(f, drift)
    ensures Queued(Step(f, e)) <==> Admissible(f, e)
  {
    hide Step, Find, Indexed, Queued, Counted;
    if Admissible(f, e) {
      StepGood(f, e, drift);
    } else {
      TagStep(f, e);
      SetTagQueuedIff(f, e.uid, e.name, e.value);
    }
  }

  lemma TagStep(f: Folder, e: Event)
    requires e.TagSet?
    ensures Step(f, e) == SetTag(f, e.uid, e.name, e.value)
  {
  }

  /** The queue stays orderly through a run exactly when the run is admissible. */
  lemma {:induction false} RunQueuedIff(f: Folder, events: seq<Event>, drift: int)
    requires Good(f, drift)
    ensures QueuedThroughout(f, events) <==> AdmissibleRun(f, events)
    decreases events
  {
    hide Step, StepDrift, Admissible, Indexed, Queued, Counted;
    if events != [] {
      var g := Step(f, events[0]);
      StepQueuedIff(f, events[0], drift);
      if Admissible(f, events[0]) {
        StepGood(f, events[0], drift);
        RunQueuedIff(g, events[1..], drift + StepDrift(f, events[0]));
      } else {
        assert !QueuedThroughout(g, events[1..]);
      }
    }
  }

  lemma LoadGood(rows: seq<Row>, highArticle: nat)
    requires DistinctUids(rows)
    ensures Good(Load(rows, highArticle), 0)
  {
    assert Indexed(EMPTY);
    LoadIndexed(EMPTY, rows);
    LoadQueued(EMPTY, rows);
    LoadCounted(EMPTY, rows, 0);
    SameIndex(LoadRows(EMPTY, rows), Load(rows, highArticle));
  }

  /** No flush of the run meets a queued message with a conflicting read-state edit. */
  ghost predicate ConflictFree(f: Folder, events: seq<Event>)
    decreases events
  {
    events == []
    || (&& (events[0].FlagsSent? ==> forall m <- f.messages :: m.serial in f.changed ==> !m.Conflicting())
        && ConflictFree(Step(f, events[0]), events[1..]))
  }

  lemma {:induction false} ConflictFreeNoDrift(f: Folder, events: seq<Event>)
    requires ConflictFree(f, events)
    ensures RunDrift(f, events) == 0
    decreases events
  {
    hide Step;
    if events != [] {
      NoConflicts(f.messages, set s <- f.changed);
      ConflictFreeNoDrift(Step(f, events[0]), events[1..]);
    }
  }

  /** In each event of the run what the server sends contradicts no pending read-state edit. */
  ghost predicate HeedfulRun(f: Folder, events: seq<Event>)
    decreases events
  {
    events == [] || (Heeds(f, events[0]) && HeedfulRun(Step(f, events[0]), events[1..]))
  }

  /**
   Over any run in which the server contradicts no pending read-state edit, every pending
   edit agrees with the stored read state, and no flush meets a conflict.
   */
  lemma {:induction false} RunAgrees(f: Folder, events: seq<Event>)
    requires Indexed(f) && Agreeing(f) && HeedfulRun(f, events)
    ensures Agreeing(Run(f, events)) && ConflictFree(f, events)
    decreases events
  {
    hide Indexed, Step, Heeds;
    if events != [] {
      StepIndexed(f, events[0]);
      StepAgrees(f, events[0]);
      RunAgrees(Step(f, events[0]), events[1..]);
    }
  }

  /** A folder just loaded has no pending edit at all. */
  lemma LoadedAgrees(rows: seq<Row>, highArticle: nat)
    requires DistinctUids(rows)
    ensures Agreeing(Load(rows, highArticle)) && Indexed(Load(rows, highArticle))
  {
    LoadGood(rows, highArticle);
    LoadAgrees(EMPTY, rows);
  }

  /**
   From loading on, the unread counter is the number of messages without SEEN, as long as
   the server contradicts no pending read-state edit.
   */
  lemma UnreadCountExact(rows: seq<Row>, highArticle: nat, events: seq<Event>)
    requires DistinctUids(rows)
    requires var f := Load(rows, highArticle); AdmissibleRun(f, events) && HeedfulRun(f, events)
    ensures var g := Run(Load(rows, highArticle), events);
            |g.messages| < 0x1_0000_0000 ==> g.unread == Unseen(g.messages)
  {
    hide Run, Load, AdmissibleRun, HeedfulRun, ConflictFree, Indexed, Agreeing, Unseen;
    LoadedAgrees(rows, highArticle);
    RunAgrees(Load(rows, highArticle), events);
    UnreadCountConflictFree(rows, highArticle, events);
  }

  /** It is enough that no flush meets a conflict. */
  lemma UnreadCountConflictFree(rows: seq<Row>, highArticle: nat, events: seq<Event>)
    requires DistinctUids(rows)
    requires var f := Load(rows, highArticle); AdmissibleRun(f, events) && ConflictFree(f, events)
    ensures var g := Run(Load(rows, highArticle), events);
            |g.messages| < 0x1_0000_0000 ==> g.unread == Unseen(g.messages)
  {
    hide Run, Load, AdmissibleRun, ConflictFree, Indexed, Queued, Counted, Unseen;
    var f := Load(rows, highArticle);
    LoadGood(rows, highArticle);
    RunGood(f, events, 0);
    ConflictFreeNoDrift(f, events);
    var g := Run(f, events);
    if |g.messages| < 0x1_0000_0000 { CountedExactly(g); }
  }

  /**
   For every admissible run, conflicts or not: the counter ends up right exactly when the
   drift of its flushes cancels out.
   */
  lemma RunCountIff(rows: seq<Row>, highArticle: nat, events: seq<Event>)
    requires DistinctUids(rows) && AdmissibleRun(Load(rows, highArticle), events)
    ensures var g := Run(Load(rows, highArticle), events);
            |g.messages| < 0x1_0000_0000 ==>
              (g.unread == Unseen(g.messages) <==> U32(RunDrift(Load(rows, highArticle), events)) == 0)
  {
    hide Run, Load, AdmissibleRun, Indexed, Queued, Unseen, RunDrift;
    var f := Load(rows, highArticle);
    LoadGood(rows, highArticle);
    RunGood(f, events, 0);
    UnseenBounded(Run(f, events).messages);
  }

  lemma CountedExactly(f: Folder)
    requires Counted(f, 0) && |f.messages| < 0x1_0000_0000
    ensures f.unread == Unseen(f.messages)
  {
    UnseenBounded(f.messages);
  }

  lemma UnseenBounded(ms: seq<Message>)
    ensures Unseen(ms) <= |ms|
  {
  }

  // ---- serial order --------------------------------------------------------

  /** A full listing meets an array whose uids are in order of arrival. */
  ghost predicate Orderly(f: Folder, e: Event) {
    e.Opened? ==> MessagesSorted(f.messages)
  }

  ghost predicate OrderlyRun(f: Folder, events: seq<Event>)
    decreases events
  {
    events == [] || (Orderly(f, events[0]) && OrderlyRun(Step(f, events[0]), events[1..]))
  }

  /** An event keeps serial order exactly when it is no full listing of disordered uids. */
  lemma StepInOrderIff(f: Folder, e: Event)
    requires InOrder(f)
    ensures InOrder(Step(f, e)) <==> Orderly(f, e)
  {
    hide InOrder, MessagesSorted, Step, GetContents;
    if e.Opened? {
      ListingStep(f, e);
    } else {
      StepInOrder(f, e);
    }
  }

  lemma ListingStep(f: Folder, e: Event)
    requires InOrder(f) && e.Opened?
    ensures InOrder(Step(f, e)) <==> MessagesSorted(f.messages)
  {
    hide InOrder, MessagesSorted, GetContents;
    ListingKeepsOrderIff(f, e.listing, e.ok);
  }

  lemma StepInOrder(f: Folder, e: Event)
    requires InOrder(f) && !e.Opened?
    ensures InOrder(Step(f, e))
  {
    hide InOrder, RefreshItems, MarkListed, RemoveUnknown, Known, Removals, MessageRemoved, FlushLoop, Find, Edited,
         Replace, U32, SortItems;
    match e {
      case Refreshed(rows, ok) => RefreshItemsInOrder(f, SortItems(FolderState.Usable(rows)));
      case Synced(deleted, visible, listed) =>
        var marked := MarkListed(f, listed);
        MarkListedInOrder(f, listed);
        RemoveUnknownInOrder(marked, Known(f, listed), |marked.messages| - 1);
        if Step(f, e).messages == f.messages && Step(f, e).nextSerial == f.nextSerial { SameOrder(f, Step(f, e)); }
      case Removed(hrefs) => RemovalsInOrder(f, hrefs);
      case Vanished(href) => MessageRemovedInOrder(f, href);
      case FlagsSet(uid, flags, mask) =>
        match Find(f, uid) {
          case None =>
          case Some(m) => ReplaceInOrder(f, Edited(m, flags, mask), Step(f, e));
        }
      case TagSet(uid, name, value) =>
        match Find(f, uid) {
          case None =>
          case Some(m) =>
            var tags := if value.Some? then m.tags[name := value.value] else Without(m.tags, name);
            ReplaceInOrder(f, m.(tags := tags), Step(f, e));
        }
      case FlagsSent(gone) =>
        var g := FlushLoop(f, 0);
        FlushLoopInOrder(f, 0);
        RemovalsInOrder(g, gone);
        SameOrder(Removals(g, gone), Removals(g, gone).(changed := []));
        SameOrder(g, g.(changed := []));
      case Reconnected(total) => SameOrder(f, Reconnect(f, total));
      case Opened(_, _) =>
    }
  }

  lemma SameOrder(f: Folder, g: Folder)
    requires InOrder(f) && g.messages == f.messages && g.nextSerial == f.nextSerial
    ensures InOrder(g)
  {
  }

  /** Every state the run goes through is in serial order. */
  ghost predicate InOrderThroughout(f: Folder, events: seq<Event>)
    decreases events
  {
    InOrder(f) && (events == [] || InOrderThroughout(Step(f, events[0]), events[1..]))
  }

  /** The array stays in serial order exactly when every full listing meets uids in order of arrival. */
  lemma {:induction false} RunInOrderIff(f: Folder, events: seq<Event>)
    requires InOrder(f)
    ensures InOrderThroughout(f, events) <==> OrderlyRun(f, events)
    decreases events
  {
    hide InOrder, Step, Orderly;
    if events != [] {
      StepInOrderIff(f, events[0]);
      if InOrder(Step(f, events[0])) {
        RunInOrderIff(Step(f, events[0]), events[1..]);
      } else {
        assert !InOrderThroughout(Step(f, events[0]), events[1..]);
      }
    }
  }

  lemma {:induction false} RunInOrder(f: Folder, events: seq<Event>)
    requires InOrderThroughout(f, events)
    ensures InOrder(Run(f, events))
    decreases events
  {
    hide InOrder, Step;
    if events != [] { RunInOrder(Step(f, events[0]), events[1..]); }
  }

  lemma {:induction false} RunIndexed(f: Folder, events: seq<Event>)
    requires Indexed(f)
    ensures Indexed(Run(f, events))
    decreases events
  {
    hide Indexed, Step;
    if events != [] {
      StepIndexed(f, events[0]);
      RunIndexed(Step(f, events[0]), events[1..]);
    }
  }

  /**
   Over a run whose full listings meet uids in order of arrival, reporting an href gone
   always removes the message registered under it.
   */
  lemma {:induction false} RunRemoves(f: Folder, events: seq<Event>, href: string)
    requires Indexed(f) && InOrder(f) && OrderlyRun(f, events)
    ensures var g := Run(f, events);
            && InOrder(g)
            && (href in g.byHref ==> href !in MessageRemoved(g, href).byHref)
  {
    hide OrderlyRun, InOrderThroughout, InOrder, Indexed, FolderState.MessageRemoved, Position, Run;
    RunInOrderIff(f, events);
    RunInOrder(f, events);
    RunIndexed(f, events);
    MessageRemovedExact(Run(f, events), href);
  }

  // ---- uids in order of arrival --------------------------------------------

  /** Every message the refreshes of the run bring in has a uid after all known ones. */
  ghost predicate ArrivingRun(f: Folder, events: seq<Event>)
    decreases events
  {
    events == [] || (Arriving(f, events[0]) && ArrivingRun(Step(f, events[0]), events[1..]))
  }

  /** With uids that grow with time every full listing finds its array already sorted. */
  lemma {:induction false} ArrivingRunOrderly(f: Folder, events: seq<Event>)
    requires Indexed(f) && InOrder(f) && UidsArrive(f) && ArrivingRun(f, events)
    ensures OrderlyRun(f, events)
    decreases events
  {
    hide Indexed, InOrder, UidsArrive, Arriving, Step, MessagesSorted;
    if events != [] {
      var g := Step(f, events[0]);
      UidsArriveIff(f);
      StepIndexed(f, events[0]);
      StepArrives(f, events[0]);
      StepInOrderIff(f, events[0]);
      ArrivingRunOrderly(g, events[1..]);
    }
  }

  ghost predicate RowsSorted(rows: seq<Row>) {
    forall i, j :: 0 <= i < j < |rows| ==> StrLe(rows[i].uid, rows[j].uid)
  }

  lemma {:induction false} LoadedArrives(f: Folder, rows: seq<Row>)
    requires MessagesSorted(f.messages) && RowsSorted(rows)
    requires forall m <- f.messages, r <- rows :: StrLe(m.uid, r.uid)
    ensures MessagesSorted(LoadRows(f, rows).messages)
    decreases rows
  {
    hide StrLe;
    if rows != [] {
      var href := if rows[0].href == Some("") then None else rows[0].href;
      var g := Add(f, rows[0].uid, href, rows[0].flags);
      assert rows[0] in rows && forall i :: 0 <= i < |f.messages| ==> f.messages[i] in f.messages;
      assert forall r <- rows[1..] :: r in rows && StrLe(rows[0].uid, r.uid);
      LoadedArrives(g, rows[1..]);
    }
  }

  /**
   From loading a summary in uid order on, with full listings wherever they happen: as long
   as new messages arrive with later uids, a reported href is always removed.
   */
  lemma LoadedRunRemoves(rows: seq<Row>, highArticle: nat, events: seq<Event>, href: string)
    requires DistinctUids(rows) && RowsSorted(rows) && ArrivingRun(Load(rows, highArticle), events)
    ensures var g := Run(Load(rows, highArticle), events);
            InOrder(g) && (href in g.byHref ==> href !in MessageRemoved(g, href).byHref)
  {
    hide Indexed, InOrder, UidsArrive, MessagesSorted, ArrivingRun, OrderlyRun, Run, FolderState.MessageRemoved,
         LoadRows;
    var f := Load(rows, highArticle);
    LoadedAgrees(rows, highArticle);
    EmptyInOrder();
    LoadInOrder(EMPTY, rows);
    SameOrder(LoadRows(EMPTY, rows), f);
    LoadedArrives(EMPTY, rows);
    UidsArriveIff(f);
    ArrivingRunOrderly(f, events);
    RunRemoves(f, events, href);
  }

  lemma EmptyInOrder()
    ensures InOrder(EMPTY) && MessagesSorted(EMPTY.messages)
  {
  }
}
