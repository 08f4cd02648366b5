/**
 Offline states that only appended and transferred messages since the client was last
 in sync: what their journals say about the server, and that every such run keeps it.
 */
module JournalReady {
  import opened Basics
  import opened JournalState
  import opened JournalProvenance

  /** A queued transfer names an original that is on the server with that content. */
  ghost predicate Backed(server: seq<map<Uid, string>>, content: string, e: Entry) {
    e.Transfer? ==>
      && e.original.Server? && e.source < |server|
      && e.original in server[e.source] && server[e.source][e.original] == content
  }

  ghost predicate EntryReady(server: seq<map<Uid, string>>, l: Local, e: Entry) {
    && (e.Append? || e.Transfer?) && e.uid.Offline?
    && e.uid in l.summary && e.uid in l.cache && l.cache[e.uid] == l.summary[e.uid]
    && Backed(server, l.summary[e.uid], e)
  }

  ghost predicate UidReady(server: seq<map<Uid, string>>, l: Local, here: nat, uid: Uid)
    requires here < |server| && uid in l.summary
  {
    if uid.Server? then uid in server[here] && server[here][uid] == l.summary[uid]
    else uid.number < l.nextUid && exists e <- l.queue :: e.uid == uid
  }

  ghost predicate OneEntryEach(queue: seq<Entry>) {
    forall i, j :: 0 <= i < j < |queue| ==> queue[i].uid != queue[j].uid
  }

  ghost predicate LocalReady(server: seq<map<Uid, string>>, l: Local, here: nat)
    requires here < |server|
  {
    && (forall uid <- l.summary :: UidReady(server, l, here, uid))
    && (forall e <- l.queue :: EntryReady(server, l, e))
    && OneEntryEach(l.queue)
    && (forall uid <- l.cache :: uid in l.summary && l.cache[uid] == l.summary[uid])
  }

  predicate Moves(e: Entry, source: nat, original: Uid) {
    e.Transfer? && e.deleteOriginal && e.source == source && e.original == original
  }

  /** Some journal moves the message away from there. */
  ghost predicate Moving(folders: seq<Local>, source: nat, original: Uid) {
    exists g, e :: 0 <= g < |folders| && e in folders[g].queue && Moves(e, source, original)
  }

  ghost predicate Covered(w: World)
    requires |w.server| == |w.folders|
  {
    forall f, uid :: 0 <= f < |w.server| && uid in w.server[f] && uid !in w.folders[f].summary ==>
                       Moving(w.folders, f, uid)
  }

  ghost predicate ServerReady(w: World) {
    forall f, uid :: 0 <= f < |w.server| && uid in w.server[f] ==> uid.Server? && uid.id < w.nextServer
  }

  ghost predicate Ready(w: World) {
    && |w.server| == |w.folders|
    && ServerReady(w)
    && (forall f :: 0 <= f < |w.folders| ==> LocalReady(w.server, w.folders[f], f))
    && Covered(w)
  }

  // ---- queue facts ---------------------------------------------------------

  lemma SameUidSameEntry(queue: seq<Entry>, a: Entry, b: Entry)
    requires OneEntryEach(queue) && a in queue && b in queue && a.uid == b.uid
    ensures a == b
  {
  }

  lemma {:induction false} TrashExact(queue: seq<Entry>, gone: Uid)
    ensures forall e :: e in Trash(queue, gone) <==> e in queue && e.uid != gone
    ensures OneEntryEach(queue) ==> OneEntryEach(Trash(queue, gone))
  {
    if queue != [] {
      var front, last := queue[..|queue| - 1], queue[|queue| - 1];
      assert queue == front + [last];
      TrashExact(front, gone);
      if OneEntryEach(queue) {
        assert OneEntryEach(front);
        assert forall e <- front :: e.uid != last.uid;
      }
    }
  }

  lemma SourceOfEntry(queue: seq<Entry>, e: Entry)
    requires OneEntryEach(queue) && e in queue && (e.Append? || e.Transfer?)
    ensures RealSource(queue, e.uid) == if e.Append? then FromAppend else FromServer(e.source, e.original)
  {
    if queue != [] {
      var front, last := queue[..|queue| - 1], queue[|queue| - 1];
      assert queue == front + [last];
      assert OneEntryEach(front);
      if last.uid == e.uid {
        SameUidSameEntry(queue, last, e);
      } else {
        SourceOfEntry(front, e);
      }
    }
  }

  // ---- leaving and arriving ------------------------------------------------

  lemma LeaveParts(server: seq<map<Uid, string>>, l: Local, here: nat, uid: Uid)
    requires here < |server| && LocalReady(server, l, here)
    ensures var m := Leave(l, uid);
            && m.summary == Without(l.summary, uid) && m.nextUid == l.nextUid
            && m.cache == (if uid in l.summary then Without(l.cache, uid) else l.cache)
            && (forall e :: e in m.queue <==> e in l.queue && e.uid != uid)
            && OneEntryEach(m.queue)
            && (forall e <- m.queue :: EntryReady(server, m, e))
  {
    hide Backed, UidReady;
    TrashExact(l.queue, uid);
    assert forall e <- l.queue :: EntryReady(server, l, e);
  }

  lemma LeaveReady(server: seq<map<Uid, string>>, l: Local, here: nat, uid: Uid)
    requires here < |server| && LocalReady(server, l, here)
    ensures LocalReady(server, Leave(l, uid), here)
    ensures Leave(l, uid).summary == Without(l.summary, uid)
  {
    hide Backed, Trash, OneEntryEach;
    var m := Leave(l, uid);
    LeaveParts(server, l, here, uid);
    forall u | u in m.summary
      ensures UidReady(server, m, here, u)
    {
      assert UidReady(server, l, here, u);
      if u.Offline? {
        var e :| e in l.queue && e.uid == u;
        assert e in m.queue;
      }
    }
  }

  lemma ArriveReady(server: seq<map<Uid, string>>, l: Local, here: nat, content: string, e: Entry)
    requires here < |server| && LocalReady(server, l, here)
    requires e.uid == NewUid(l) && (e.Append? || e.Transfer?) && Backed(server, content, e)
    ensures LocalReady(server, Push(UpdateCache(l, content), e), here)
  {
    hide Backed;
    var m := Push(UpdateCache(l, content), e);
    assert forall x <- l.queue :: EntryReady(server, l, x);
    assert e.uid in l.summary ==> UidReady(server, l, here, e.uid);
    forall x | x in m.queue
      ensures EntryReady(server, m, x) && (x == e || x.uid != e.uid)
    {
      if x in l.queue { assert EntryReady(server, l, x); }
    }
    assert OneEntryEach(m.queue) by {
      assert forall i :: 0 <= i < |l.queue| ==> l.queue[i] in l.queue;
    }
    forall u | u in m.summary
      ensures UidReady(server, m, here, u)
    {
      assert e in m.queue;
      if u != e.uid {
        assert UidReady(server, l, here, u);
        if u.Offline? {
          var x :| x in l.queue && x.uid == u;
          assert x in m.queue;
        }
      }
    }
  }

  // ---- steps ---------------------------------------------------------------

  /** A ready folder knows the source of each of its messages, and the server backs it. */
  lemma SourceBacked(w: World, src: nat, uid: Uid, temp: Uid, del: bool)
    requires Ready(w) && src < |w.folders| && uid in w.folders[src].summary
    ensures var e := TransferEntry(temp, FindSource(w.folders[src], src, uid), del);
            && (e.Append? || e.Transfer?) && e.uid == temp
            && Backed(w.server, w.folders[src].summary[uid], e)
            && (uid.Server? ==> e == Transfer(temp, uid, src, del))
            && (forall x <- w.folders[src].queue :: x.uid == uid && x.Transfer? ==>
                                                      e == Transfer(temp, x.original, x.source, del))
  {
    var l := w.folders[src];
    assert LocalReady(w.server, l, src);
    assert UidReady(w.server, l, src, uid);
    assert forall x <- l.queue :: EntryReady(w.server, l, x);
    if uid.Offline? {
      var x :| x in l.queue && x.uid == uid;
      SourceOfEntry(l.queue, x);
      assert forall y <- l.queue :: y.uid == uid ==> y == x by {
        forall y | y in l.queue && y.uid == uid { SameUidSameEntry(l.queue, x, y); }
      }
    }
  }

  lemma ReadyUidOld(w: World, src: nat, uid: Uid)
    requires Ready(w) && src < |w.folders| && uid in w.folders[src].summary
    ensures uid != NewUid(w.folders[src])
  {
    assert LocalReady(w.server, w.folders[src], src);
    assert UidReady(w.server, w.folders[src], src, uid);
  }

  /** The folders after a transfer, in either order of leaving and arriving. */
  lemma TransferParts(w: World, src: nat, dst: nat, uid: Uid, del: bool)
    requires Ready(w) && src < |w.folders| && dst < |w.folders|
    requires uid in w.folders[src].summary && uid in w.folders[src].cache
    ensures var left := if del then w.folders[src := Leave(w.folders[src], uid)] else w.folders;
            var e := TransferEntry(NewUid(w.folders[dst]), FindSource(w.folders[src], src, uid), del);
            JournalTransfer(w, src, dst, uid, del)
            == w.(folders := left[dst := Push(UpdateCache(left[dst], w.folders[src].cache[uid]), e)])
  {
    if src == dst {
      ReadyUidOld(w, src, uid);
      TransferFolders(w, src, dst, uid, del);
    } else {
      hide Leave, UpdateCache;
      CachedSource(w, src, dst, uid);
    }
  }

  lemma TransferReady(w: World, src: nat, dst: nat, uid: Uid, del: bool)
    requires Ready(w) && src < |w.folders| && dst < |w.folders|
    requires uid in w.folders[src].summary && uid in w.folders[src].cache
    ensures Ready(JournalTransfer(w, src, dst, uid, del))
  {
    hide LocalReady, Leave, Push, UpdateCache, FindSource, TransferEntry, Covered, ServerReady, JournalTransfer, Backed;
    var l := w.folders[src];
    var content := l.cache[uid];
    var left := if del then w.folders[src := Leave(l, uid)] else w.folders;
    var e := TransferEntry(NewUid(w.folders[dst]), FindSource(l, src, uid), del);
    TransferParts(w, src, dst, uid, del);
    SourceBacked(w, src, uid, NewUid(w.folders[dst]), del);
    LeaveReady(w.server, l, src, uid);
    LeaveNextUid(l, uid);
    CachedContent(w.server, l, src, uid);
    ArriveReady(w.server, left[dst], dst, content, e);
    TransferCovered(w, src, dst, uid, del);
    var w' := JournalTransfer(w, src, dst, uid, del);
    assert ServerReady(w') by { SameServerReady(w, w'); }
  }

  lemma SameServerReady(w: World, w': World)
    requires ServerReady(w) && w'.server == w.server && w'.nextServer == w.nextServer
    ensures ServerReady(w')
  {
  }

  lemma CachedContent(server: seq<map<Uid, string>>, l: Local, here: nat, uid: Uid)
    requires here < |server| && LocalReady(server, l, here) && uid in l.cache
    ensures uid in l.summary && l.cache[uid] == l.summary[uid]
  {
  }

  lemma TransferCovered(w: World, src: nat, dst: nat, uid: Uid, del: bool)
    requires Ready(w) && src < |w.folders| && dst < |w.folders|
    requires uid in w.folders[src].summary && uid in w.folders[src].cache
    ensures |JournalTransfer(w, src, dst, uid, del).folders| == |w.folders|
    ensures JournalTransfer(w, src, dst, uid, del).server == w.server
    ensures Covered(JournalTransfer(w, src, dst, uid, del))
  {
    hide LocalReady, FindSource, TransferEntry, ServerReady, JournalTransfer, Backed;
    var l := w.folders[src];
    var left := if del then w.folders[src := Leave(l, uid)] else w.folders;
    var temp := NewUid(w.folders[dst]);
    var e := TransferEntry(temp, FindSource(l, src, uid), del);
    var w' := JournalTransfer(w, src, dst, uid, del);
    TransferParts(w, src, dst, uid, del);
    SourceBacked(w, src, uid, temp, del);
    LeaveReady(w.server, l, src, uid);
    TrashExact(l.queue, uid);
    assert e in w'.folders[dst].queue;
    forall f, u | 0 <= f < |w'.server| && u in w'.server[f] && u !in w'.folders[f].summary
      ensures Moving(w'.folders, f, u)
    {
      if u !in w.folders[f].summary {
        assert Moving(w.folders, f, u);
        var g, x :| 0 <= g < |w.folders| && x in w.folders[g].queue && Moves(x, f, u);
        if g == src && del && uid.Offline? && x.uid == uid {
          assert Moves(e, f, u);
        } else {
          assert x in left[g].queue;
          assert x in w'.folders[g].queue;
        }
      } else {
        assert del && f == src && u == uid;
        ServerUid(w, f, u);
        assert Moves(e, f, u);
      }
    }
  }

  lemma ServerUid(w: World, f: nat, uid: Uid)
    requires Ready(w) && f < |w.server| && uid in w.server[f]
    ensures uid.Server?
  {
  }

  lemma AppendReady(w: World, dst: nat, content: string)
    requires Ready(w) && dst < |w.folders|
    ensures Ready(Step(w, AppendOp(dst, content)))
  {
    hide LocalReady, Backed;
    var l := w.folders[dst];
    var e := Append(NewUid(l));
    assert Backed(w.server, content, e) by { AppendBacked(w.server, content, NewUid(l)); }
    ArriveReady(w.server, l, dst, content, e);
    var w' := Step(w, AppendOp(dst, content));
    forall f, u | 0 <= f < |w'.server| && u in w'.server[f] && u !in w'.folders[f].summary
      ensures Moving(w'.folders, f, u)
    {
      assert Moving(w.folders, f, u);
      var g, x :| 0 <= g < |w.folders| && x in w.folders[g].queue && Moves(x, f, u);
      assert x in w'.folders[g].queue;
    }
  }

  lemma AppendBacked(server: seq<map<Uid, string>>, content: string, uid: Uid)
    ensures Backed(server, content, Append(uid))
  {
  }

  lemma {:induction false} TransferAllReady(w: World, src: nat, dst: nat, uids: seq<Uid>, del: bool)
    requires Ready(w) && src < |w.folders| && dst < |w.folders|
    ensures Ready(TransferAll(w, src, dst, uids, del))
    decreases uids
  {
    hide Ready, JournalTransfer;
    if uids != [] {
      if uids[0] !in w.folders[src].summary {
        TransferAllReady(w, src, dst, uids[1..], del);
      } else if uids[0] in w.folders[src].cache {
        TransferReady(w, src, dst, uids[0], del);
        TransferKeepsCount(w, src, dst, uids[0], del);
        TransferAllReady(JournalTransfer(w, src, dst, uids[0], del), src, dst, uids[1..], del);
      }
    }
  }

  lemma StepReady(w: World, op: Op)
    requires Ready(w) && Applies(w, op) && !op.DeleteOp?
    ensures Ready(Step(w, op))
  {
    hide Ready, TransferAll;
    match op
    case AppendOp(dst, content) => AppendReady(w, dst, content);
    case TransferOp(src, dst, uids, del) => TransferAllReady(w, src, dst, uids, del);
  }

  /** Client and server agree, nothing is queued: where an offline run starts. */
  ghost predicate InSync(w: World) {
    && |w.server| == |w.folders| && ServerReady(w)
    && forall f :: 0 <= f < |w.folders| ==>
         && w.folders[f].summary == w.server[f] && w.folders[f].queue == []
         && forall uid <- w.folders[f].cache :: uid in w.server[f] && w.folders[f].cache[uid] == w.server[f][uid]
  }

  lemma InSyncReady(w: World)
    requires InSync(w)
    ensures Ready(w)
  {
    forall f | 0 <= f < |w.folders|
      ensures LocalReady(w.server, w.folders[f], f)
    {
      assert forall uid <- w.folders[f].summary :: uid in w.server[f];
    }
  }

  lemma {:induction false} RunReady(w: World, ops: seq<Op>)
    requires Ready(w) && forall op <- ops :: Applies(w, op) && !op.DeleteOp?
    ensures Ready(Run(w, ops))
    decreases ops
  {
    hide Ready;
    if ops != [] {
      assert ops[0] in ops;
      StepReady(w, ops[0]);
      var w1 := Step(w, ops[0]);
      forall op | op in ops[1..]
        ensures Applies(w1, op) && !op.DeleteOp?
      {
        assert op in ops;
      }
      RunReady(w1, ops[1..]);
    }
  }
}
