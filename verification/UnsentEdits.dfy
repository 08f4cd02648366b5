/**
 Where unsent edits leave the queue.  An edit the flusher does not send, such as a deletion
 the server refuses, stays on its message; whether the message stays queued depends on what
 else was queued.
 */
module UnsentEdits {
  import opened Basics
  import opened MessageFlags
  import opened FolderState
  import opened FolderIndex
  import opened PendingQueue
  import opened RefreshCompleteness

  /** Removals leave every message that is still registered as it was. */
  lemma {:induction false} RemovalsKeep(f: Folder, hrefs: seq<string>, u: string)
    requires Indexed(f) && u in Removals(f, hrefs).byUid
    ensures Find(Removals(f, hrefs), u) == Find(f, u) && u in f.byUid
    decreases hrefs
  {
    hide Indexed, MessageRemoved, Find;
    if hrefs != [] {
      var g := CountDeleted(MessageRemoved(f, hrefs[0]));
      MessageRemovedIndexed(f, hrefs[0]);
      SameTables(MessageRemoved(f, hrefs[0]), g);
      RemovalsKeep(g, hrefs[1..], u);
      RemovalKeeps(f, hrefs[0], u);
      assert Find(g, u) == Find(MessageRemoved(f, hrefs[0]), u) by { CounterAside(MessageRemoved(f, hrefs[0]), u); }
    }
  }

  lemma CounterAside(f: Folder, u: string)
    ensures Find(CountDeleted(f), u) == Find(f, u)
  {
  }

  lemma RemovalKeeps(f: Folder, href: string, u: string)
    requires Indexed(f) && u in MessageRemoved(f, href).byUid
    ensures u in f.byUid && Find(MessageRemoved(f, href), u) == Find(f, u)
  {
    hide Fetch, BinarySearch, RemoveAt, Indexed;
    match FindByHref(f, href)
    case None =>
    case Some(m) =>
      var k := BinarySearch(f.messages, 0, |f.messages| - 1, m.serial);
      if k != -1 { TakenOutKeeps(f, k, u); }
  }

  lemma TakenOutKeeps(f: Folder, k: nat, u: string)
    requires Indexed(f) && k < |f.messages| && u in RemoveAt(f, k).byUid
    ensures u in f.byUid && Find(RemoveAt(f, k), u) == Find(f, u)
  {
    hide Fetch, RemoveFast;
    RemoveAtIndexed(f, k);
    FindNone(RemoveAt(f, k), u);
    FetchRemoved(f.messages, k, f.byUid[u]);
  }

  /** The loop sends each queued message's edits once. */
  lemma LoopSends(f: Folder, m: Message)
    requires Indexed(f) && Flushable(f) && m in f.messages && m.serial in f.changed
    ensures var g := FlushLoop(f, 0);
            && g.byUid == f.byUid && Find(g, m.uid) == Some(Flushed(m))
            && (m.serial in g.changed <==> FlushedMask(m.changeMask) != {})
  {
    hide Flushed, Fetch, FlushLoop, Flushable;
    var g := FlushLoop(f, 0);
    FlushLoopOutcome(f, 0);
    FlushLoopIndexed(f, 0);
    assert f.changed[0..] == f.changed && g.changed[0..] == g.changed;
    assert m.serial in Elements(f.changed);
    assert m.serial in g.changed <==> m.serial in Elements(g.changed);
    FetchMember(f.messages, m);
    SentMask(f.messages, m);
    FlushedSame(m);
    var k :| 0 <= k < |f.messages| && f.messages[k] == m;
    assert g.messages[k] == Flushed(m);
    FetchMember(g.messages, g.messages[k]);
  }

  lemma SentMask(ms: seq<Message>, m: Message)
    requires Fetch(ms, m.serial) == Some(m)
    ensures Unfinished(ms, m.serial) <==> FlushedMask(m.changeMask) != {}
    ensures Flushed(m).Pending() <==> FlushedMask(m.changeMask) != {}
  {
    UnfinishedSelf(ms, m);
  }

  /**
   A queued message that is still there after a run of the flusher has had its edits sent.
   What could not be sent stays pending, and it is pending but no longer queued exactly when
   no read-state edit was queued anywhere.
   */
  lemma FlushForgetsIff(f: Folder, gone: seq<string>, m: Message)
    requires Indexed(f) && Flushable(f) && m in f.messages && m.serial in f.changed
    requires m.uid in Flush(f, gone).byUid
    ensures Find(Flush(f, gone), m.uid) == Some(Flushed(m))
    ensures Flushed(m).Pending() && m.serial !in Flush(f, gone).changed
            <==> FlushedMask(m.changeMask) != {} && !AnyReadEdit(f)
  {
    hide Indexed, Flushable, Flushed, FlushLoop, Removals, AnyReadEdit, AnyDelete, Find;
    var g := FlushLoop(f, 0);
    FlushLoopIndexed(f, 0);
    LoopSends(f, m);
    FetchIs(f, m);
    SentMask(f.messages, m);
    if !AnyReadEdit(f) {
      if AnyDelete(g) { RemovalsKeep(g, gone, m.uid); }
      QueueAside(Removals(g, gone), m.uid);
      QueueAside(g, m.uid);
    }
  }

  lemma QueueAside(f: Folder, u: string)
    ensures Find(f.(changed := []), u) == Find(f, u)
  {
  }
}
