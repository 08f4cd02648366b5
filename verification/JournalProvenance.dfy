/**
 One-hop provenance: in every reachable offline state each temporary uid of a summary
 has a queued entry that put it there, and no queued transfer names a temporary
 original.  The real source of a message is therefore always found, in one hop.
 */
module JournalProvenance {
  import opened MessageFlags
  import opened JournalState

  /** The entry can be replayed without looking at another journal. */
  predicate OneHop(e: Entry) {
    !e.Unplayable? && (e.Transfer? ==> e.original.Server?)
  }

  /** Every temporary uid of the summary is below the next one and has its entry. */
  ghost predicate Traced(l: Local) {
    forall uid <- l.summary :: uid.Offline? ==> uid.number < l.nextUid && RealSource(l.queue, uid) != Nowhere
  }

  ghost predicate Provenance(l: Local) {
    Traced(l) && forall e <- l.queue :: OneHop(e)
  }

  ghost predicate AllProvenance(w: World) {
    forall f :: 0 <= f < |w.folders| ==> Provenance(w.folders[f])
  }

  // ---- the real source under queue changes ---------------------------------

  lemma SourcePushed(queue: seq<Entry>, e: Entry, uid: Uid)
    ensures RealSource(queue + [e], uid) ==
            if e.uid == uid && e.Transfer? then FromServer(e.source, e.original)
            else if e.uid == uid && e.Append? then FromAppend
            else RealSource(queue, uid)
  {
    assert (queue + [e])[..|queue|] == queue;
  }

  lemma {:induction false} SourceTrashed(queue: seq<Entry>, gone: Uid, uid: Uid)
    ensures uid != gone ==> RealSource(Trash(queue, gone), uid) == RealSource(queue, uid)
    ensures forall e <- Trash(queue, gone) :: e in queue && e.uid != gone
  {
    if queue != [] {
      var front, last := queue[..|queue| - 1], queue[|queue| - 1];
      SourceTrashed(front, gone, uid);
      assert queue == front + [last];
      SourcePushed(front, last, uid);
      SourcePushed(Trash(front, gone), last, uid);
      assert Trash(front, gone) + [] == Trash(front, gone);
    }
  }

  /** A source found in a queue is that of an entry in it. */
  lemma {:induction false} SourceQueued(queue: seq<Entry>, uid: Uid) returns (e: Entry)
    requires RealSource(queue, uid) != Nowhere
    ensures e in queue && e.uid == uid
    ensures e.Append? ==> RealSource(queue, uid) == FromAppend
    ensures e.Transfer? ==> RealSource(queue, uid) == FromServer(e.source, e.original)
    ensures e.Append? || e.Transfer?
  {
    var front, last := queue[..|queue| - 1], queue[|queue| - 1];
    if last.uid == uid && (last.Transfer? || last.Append?) {
      e := last;
    } else {
      e := SourceQueued(front, uid);
      assert queue == front + [last];
    }
  }

  // ---- steps ---------------------------------------------------------------

  lemma RemoveProvenance(l: Local, uid: Uid)
    requires Provenance(l)
    ensures Provenance(RemoveMessage(l, uid))
  {
  }

  lemma LeaveProvenance(l: Local, uid: Uid)
    requires Provenance(l)
    ensures Provenance(Leave(l, uid))
  {
    var m := Leave(l, uid);
    SourceTrashed(l.queue, uid, uid);
    forall u | u in m.summary && u.Offline?
      ensures u.number < m.nextUid && RealSource(m.queue, u) != Nowhere
    {
      SourceTrashed(l.queue, uid, u);
      assert u in l.summary && u != uid;
    }
  }

  /** A message arriving under a new temporary uid, with the entry that accounts for it. */
  lemma ArriveProvenance(l: Local, m: Local, e: Entry)
    requires Provenance(l) && OneHop(e) && (e.Append? || e.Transfer?)
    requires e.uid == Offline(l.nextUid) && m.nextUid == l.nextUid + 1 && m.queue == l.queue
    requires m.summary.Keys <= l.summary.Keys + {e.uid}
    ensures Provenance(Push(m, e))
  {
    var p := Push(m, e);
    forall uid | uid in p.summary && uid.Offline?
      ensures uid.number < p.nextUid && RealSource(p.queue, uid) != Nowhere
    {
      SourcePushed(l.queue, e, uid);
    }
  }

  lemma DeleteProvenance(l: Local, uid: Uid, flags: Word, set': Word)
    requires Provenance(l)
    ensures Provenance(JournalDelete(l, uid, flags, set'))
  {
    var m := if DELETED in flags * set' then RemoveMessage(l, uid) else l;
    RemoveProvenance(l, uid);
    forall u: Uid
      ensures RealSource(m.queue + [Delete(uid, flags, set')], u) == RealSource(m.queue, u)
    {
      SourcePushed(m.queue, Delete(uid, flags, set'), u);
    }
  }

  /** The source of a message in the summary is always found, and it is on the server. */
  lemma SourceFound(l: Local, here: nat, uid: Uid)
    requires Provenance(l) && uid in l.summary
    ensures FindSource(l, here, uid) != Nowhere
    ensures FindSource(l, here, uid).FromServer? ==> FindSource(l, here, uid).original.Server?
  {
    if uid.Offline? {
      var e := SourceQueued(l.queue, uid);
    }
  }

  /** Putting the new message into the cache first changes no source. */
  lemma CachedSource(w: World, src: nat, dst: nat, uid: Uid)
    requires src < |w.folders| && dst < |w.folders| && uid in w.folders[src].cache
    ensures FindSource(w.folders[dst := UpdateCache(w.folders[dst], w.folders[src].cache[uid])][src], src, uid)
            == FindSource(w.folders[src], src, uid)
  {
  }

  /** What a journalled transfer does to the two folders; `uid` cannot be the new one. */
  lemma TransferFolders(w: World, src: nat, dst: nat, uid: Uid, del: bool)
    requires src < |w.folders| && dst < |w.folders| && uid in w.folders[src].cache
    requires uid != NewUid(w.folders[dst])
    ensures var left := if del then w.folders[src := Leave(w.folders[src], uid)] else w.folders;
            var e := TransferEntry(NewUid(w.folders[dst]), FindSource(w.folders[src], src, uid), del);
            JournalTransfer(w, src, dst, uid, del)
            == w.(folders := left[dst := Push(UpdateCache(left[dst], w.folders[src].cache[uid]), e)])
  {
    CachedSource(w, src, dst, uid);
    var content := w.folders[src].cache[uid];
    if del && src == dst {
      var l := w.folders[src];
      assert Leave(UpdateCache(l, content), uid).summary == UpdateCache(Leave(l, uid), content).summary;
      assert Leave(UpdateCache(l, content), uid).cache == UpdateCache(Leave(l, uid), content).cache;
      assert Leave(UpdateCache(l, content), uid) == UpdateCache(Leave(l, uid), content);
    }
  }

  lemma TransferProvenance(w: World, src: nat, dst: nat, uid: Uid, del: bool)
    requires AllProvenance(w) && src < |w.folders| && dst < |w.folders|
    requires uid in w.folders[src].summary && uid in w.folders[src].cache
    ensures AllProvenance(JournalTransfer(w, src, dst, uid, del))
  {
    hide Provenance, Leave, FindSource, Push, UpdateCache;
    if src != dst {
      CrossTransferProvenance(w, src, dst, uid, del);
    } else {
      var l := w.folders[src];
      SourceFound(l, src, uid);
      TemporaryOld(l, uid);
      TransferFolders(w, src, dst, uid, del);
      LeaveProvenance(l, uid);
      LeaveNextUid(l, uid);
      ArrivesProvenance(if del then Leave(l, uid) else l, l.cache[uid],
                        TransferEntry(NewUid(l), FindSource(l, src, uid), del));
    }
  }

  lemma LeaveNextUid(l: Local, uid: Uid)
    ensures Leave(l, uid).nextUid == l.nextUid
  {
  }

  lemma ArrivesProvenance(l: Local, content: string, e: Entry)
    requires Provenance(l) && OneHop(e) && (e.Append? || e.Transfer?) && e.uid == NewUid(l)
    ensures Provenance(Push(UpdateCache(l, content), e))
  {
    ArriveProvenance(l, UpdateCache(l, content), e);
  }

  /** Between two folders the order of leaving and arriving does not matter at all. */
  lemma CrossTransferProvenance(w: World, src: nat, dst: nat, uid: Uid, del: bool)
    requires AllProvenance(w) && src < |w.folders| && dst < |w.folders| && src != dst
    requires uid in w.folders[src].summary && uid in w.folders[src].cache
    ensures AllProvenance(JournalTransfer(w, src, dst, uid, del))
  {
    hide Provenance, Leave;
    var l := w.folders[src];
    SourceFound(l, src, uid);
    LeaveProvenance(l, uid);
    var e := TransferEntry(NewUid(w.folders[dst]), FindSource(l, src, uid), del);
    ArrivesProvenance(w.folders[dst], l.cache[uid], e);
  }

  lemma TemporaryOld(l: Local, uid: Uid)
    requires Provenance(l) && uid in l.summary
    ensures uid != NewUid(l)
  {
  }

  lemma {:induction false} TransferAllProvenance(w: World, src: nat, dst: nat, uids: seq<Uid>, del: bool)
    requires AllProvenance(w) && src < |w.folders| && dst < |w.folders|
    ensures AllProvenance(TransferAll(w, src, dst, uids, del))
    decreases uids
  {
    hide AllProvenance, JournalTransfer;
    if uids != [] {
      if uids[0] !in w.folders[src].summary {
        TransferAllProvenance(w, src, dst, uids[1..], del);
      } else if uids[0] in w.folders[src].cache {
        TransferProvenance(w, src, dst, uids[0], del);
        var w1 := JournalTransfer(w, src, dst, uids[0], del);
        TransferKeepsCount(w, src, dst, uids[0], del);
        TransferAllProvenance(w1, src, dst, uids[1..], del);
      }
    }
  }

  lemma TransferKeepsCount(w: World, src: nat, dst: nat, uid: Uid, del: bool)
    requires src < |w.folders| && dst < |w.folders| && uid in w.folders[src].cache
    ensures var w' := JournalTransfer(w, src, dst, uid, del);
            |w'.folders| == |w.folders| && w'.server == w.server && w'.nextServer == w.nextServer
  {
  }

  lemma StepProvenance(w: World, op: Op)
    requires AllProvenance(w) && Applies(w, op)
    ensures AllProvenance(Step(w, op))
  {
    hide Provenance;
    match op
    case AppendOp(dst, content) =>
      ArrivesProvenance(w.folders[dst], content, Append(NewUid(w.folders[dst])));
    case TransferOp(src, dst, uids, del) => TransferAllProvenance(w, src, dst, uids, del);
    case DeleteOp(folder, uid, flags, set') => DeleteProvenance(w.folders[folder], uid, flags, set');
  }

  /** A state as it is right after going offline: nothing queued, nothing temporary. */
  ghost predicate Fresh(w: World) {
    forall f :: 0 <= f < |w.folders| ==>
      w.folders[f].queue == [] && forall uid <- w.folders[f].summary :: uid.Server?
  }

  /**
   In every state reachable offline, whatever is appended, copied, moved or deleted,
   each message's real source is found in its own folder's journal and is either an
   offline append or an original on the server: one hop is enough.
   */
  lemma ProvenanceOverRuns(w: World, ops: seq<Op>)
    requires Fresh(w) && forall op <- ops :: Applies(w, op)
    ensures var r := Run(w, ops);
            && AllProvenance(r)
            && forall f, uid :: 0 <= f < |r.folders| && uid in r.folders[f].summary ==>
                 var s := FindSource(r.folders[f], f, uid);
                 s == FromAppend || (s.FromServer? && s.original.Server?)
  {
    assert AllProvenance(w);
    RunProvenance(w, ops);
    var r := Run(w, ops);
    forall f, uid | 0 <= f < |r.folders| && uid in r.folders[f].summary
      ensures var s := FindSource(r.folders[f], f, uid); s == FromAppend || (s.FromServer? && s.original.Server?)
    {
      SourceFound(r.folders[f], f, uid);
    }
  }

  lemma {:induction false} RunProvenance(w: World, ops: seq<Op>)
    requires AllProvenance(w) && forall op <- ops :: Applies(w, op)
    ensures AllProvenance(Run(w, ops))
    decreases ops
  {
    hide AllProvenance;
    if ops != [] {
      assert ops[0] in ops;
      StepProvenance(w, ops[0]);
      var w1 := Step(w, ops[0]);
      forall op | op in ops[1..]
        ensures Applies(w1, op)
      {
        assert op in ops;
      }
      RunProvenance(w1, ops[1..]);
    }
  }
}
