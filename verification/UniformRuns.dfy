/**
 Runs that only move, or only copy, always replay faithfully, in any order; a copy
 followed by a move of the copy does not.
 */
module UniformRuns {
  import opened JournalState
  import opened JournalProvenance
  import opened JournalReady
  import opened JournalReplay
  import opened ReplayTheorem
  import opened ReplayConverges

  ghost predicate TransferIn(w: World, f: nat, e: Entry) {
    f < |w.folders| && e in w.folders[f].queue && e.Transfer?
  }

  /** Every queued transfer is a move of an original that is no longer shown. */
  ghost predicate OnlyMoves(w: World) {
    forall f, e :: TransferIn(w, f, e) ==>
      e.deleteOriginal && (e.source < |w.folders| ==> e.original !in w.folders[e.source].summary)
  }

  /** No two queued transfers share an original. */
  ghost predicate OwnOriginals(w: World) {
    forall f, e, g, x ::
      TransferIn(w, f, e) && TransferIn(w, g, x) && e.source == x.source && e.original == x.original ==>
      f == g && e == x
  }

  ghost predicate OnlyCopies(w: World) {
    forall f, e :: TransferIn(w, f, e) ==> !e.deleteOriginal
  }

  // ---- moves ---------------------------------------------------------------

  /** Where the queued transfers of the state after a move were before it. */
  lemma MoveParts(w: World, src: nat, dst: nat, uid: Uid)
    requires Ready(w) && src < |w.folders| && dst < |w.folders|
    requires uid in w.folders[src].summary && uid in w.folders[src].cache
    ensures var w' := JournalTransfer(w, src, dst, uid, true);
            var e := TransferEntry(NewUid(w.folders[dst]), FindSource(w.folders[src], src, uid), true);
            && |w'.folders| == |w.folders|
            && (forall f, x :: TransferIn(w', f, x) ==>
                  (f == dst && x == e) || (TransferIn(w, f, x) && !(f == src && x.uid == uid)))
            && (forall f, u :: 0 <= f < |w.folders| && u in w'.folders[f].summary ==>
                  (u in w.folders[f].summary && !(f == src && u == uid)) || u.Offline?)
  {
    hide FindSource, JournalTransfer, LocalReady, Covered, ServerReady;
    TransferParts(w, src, dst, uid, true);
    TrashExact(w.folders[src].queue, uid);
    var l := w.folders[src];
    if uid.Server? {
      forall x | x in l.queue
        ensures x.uid != uid
      {
        EntryOffline(w, src, x);
      }
    }
  }

  lemma EntryOffline(w: World, f: nat, e: Entry)
    requires Ready(w) && f < |w.folders| && e in w.folders[f].queue
    ensures e.uid.Offline? && (e.Transfer? ==> e.original.Server?)
    ensures EntryReady(w.server, w.folders[f], e)
  {
    assert LocalReady(w.server, w.folders[f], f);
  }

  lemma ShownAfterMove(w: World, src: nat, dst: nat, uid: Uid, f: nat, u: Uid)
    requires Ready(w) && src < |w.folders| && dst < |w.folders|
    requires uid in w.folders[src].summary && uid in w.folders[src].cache && u.Server?
    ensures var w' := JournalTransfer(w, src, dst, uid, true);
            && |w'.folders| == |w.folders|
            && (f < |w.folders| && u in w'.folders[f].summary ==> u in w.folders[f].summary && !(f == src && u == uid))
  {
    hide FindSource, JournalTransfer, Ready;
    MoveParts(w, src, dst, uid);
    var w' := JournalTransfer(w, src, dst, uid, true);
    if f < |w.folders| && u in w'.folders[f].summary {
      assert (u in w.folders[f].summary && !(f == src && u == uid)) || u.Offline?;
    }
  }

  lemma MoveKeepsMoves(w: World, src: nat, dst: nat, uid: Uid)
    requires Ready(w) && OnlyMoves(w) && OwnOriginals(w) && src < |w.folders| && dst < |w.folders|
    requires uid in w.folders[src].summary && uid in w.folders[src].cache
    ensures var w' := JournalTransfer(w, src, dst, uid, true);
            OnlyMoves(w') && OwnOriginals(w')
  {
    hide FindSource, JournalTransfer, TransferEntry, Ready;
    var w' := JournalTransfer(w, src, dst, uid, true);
    var e := TransferEntry(NewUid(w.folders[dst]), FindSource(w.folders[src], src, uid), true);
    MoveParts(w, src, dst, uid);
    if e.Transfer? { NewMove(w, src, dst, uid); }
    forall f: nat, x | TransferIn(w', f, x)
      ensures x.deleteOriginal
      ensures x.source < |w'.folders| ==> x.original !in w'.folders[x.source].summary
      ensures e.Transfer? && x.source == e.source && x.original == e.original ==> f == dst && x == e
    {
      if f == dst && x == e {
        ShownAfterMove(w, src, dst, uid, e.source, e.original);
      } else {
        assert TransferIn(w, f, x);
        EntryOffline(w, f, x);
        ShownAfterMove(w, src, dst, uid, x.source, x.original);
      }
    }
  }

  /** A new move: its original is shown nowhere else, and no remaining transfer names it. */
  lemma NewMove(w: World, src: nat, dst: nat, uid: Uid)
    requires Ready(w) && OnlyMoves(w) && OwnOriginals(w) && src < |w.folders| && dst < |w.folders|
    requires uid in w.folders[src].summary
    requires TransferEntry(NewUid(w.folders[dst]), FindSource(w.folders[src], src, uid), true).Transfer?
    ensures var e := TransferEntry(NewUid(w.folders[dst]), FindSource(w.folders[src], src, uid), true);
            && e.deleteOriginal && e.original.Server? && e.source < |w.folders|
            && (e.original in w.folders[e.source].summary ==> e.source == src && e.original == uid)
            && (forall f: nat, x :: TransferIn(w, f, x) && x.source == e.source && x.original == e.original ==>
                                      f == src && x.uid == uid)
  {
    hide FindSource, Covered, ServerReady;
    var l := w.folders[src];
    var e := TransferEntry(NewUid(w.folders[dst]), FindSource(l, src, uid), true);
    SourceBacked(w, src, uid, NewUid(w.folders[dst]), true);
    assert LocalReady(w.server, l, src) && UidReady(w.server, l, src, uid);
    if uid.Offline? {
      var x :| x in l.queue && x.uid == uid;
      EntryOffline(w, src, x);
      SourceOfEntry(l.queue, x);
      EntrySource(l, src, x);
      assert TransferIn(w, src, x);
    }
  }

  lemma EntrySource(l: Local, here: nat, x: Entry)
    requires x.uid.Offline?
    ensures FindSource(l, here, x.uid) == RealSource(l.queue, x.uid)
  {
  }

  // ---- runs ----------------------------------------------------------------

  predicate MovesOnly(ops: seq<Op>) {
    forall op <- ops :: !op.DeleteOp? && (op.TransferOp? ==> op.del)
  }

  predicate CopiesOnly(ops: seq<Op>) {
    forall op <- ops :: !op.DeleteOp? && (op.TransferOp? ==> !op.del)
  }

  ghost predicate MoveState(w: World) {
    Ready(w) && OnlyMoves(w) && OwnOriginals(w)
  }

  ghost predicate CopyState(w: World) {
    Ready(w) && OnlyCopies(w)
  }

  lemma AppendTransfers(w: World, dst: nat, content: string)
    requires dst < |w.folders|
    ensures var w' := Step(w, AppendOp(dst, content));
            && (forall f, e :: TransferIn(w', f, e) ==> TransferIn(w, f, e))
            && (forall f, u :: 0 <= f < |w.folders| && u in w'.folders[f].summary ==>
                                 u in w.folders[f].summary || u.Offline?)
  {
  }

  lemma AppendMoveState(w: World, dst: nat, content: string)
    requires MoveState(w) && dst < |w.folders|
    ensures MoveState(Step(w, AppendOp(dst, content)))
  {
    hide Ready;
    AppendReady(w, dst, content);
    AppendTransfers(w, dst, content);
    var w' := Step(w, AppendOp(dst, content));
    forall f, e | TransferIn(w', f, e)
      ensures e.source < |w'.folders| ==> e.original !in w'.folders[e.source].summary
    {
      EntryOffline(w, f, e);
    }
  }

  lemma {:induction false} TransferAllMoveState(w: World, src: nat, dst: nat, uids: seq<Uid>)
    requires MoveState(w) && src < |w.folders| && dst < |w.folders|
    ensures MoveState(TransferAll(w, src, dst, uids, true))
    decreases uids
  {
    hide Ready, OnlyMoves, OwnOriginals, JournalTransfer;
    if uids != [] {
      if uids[0] !in w.folders[src].summary {
        TransferAllMoveState(w, src, dst, uids[1..]);
      } else if uids[0] in w.folders[src].cache {
        TransferReady(w, src, dst, uids[0], true);
        MoveKeepsMoves(w, src, dst, uids[0]);
        TransferKeepsCount(w, src, dst, uids[0], true);
        TransferAllMoveState(JournalTransfer(w, src, dst, uids[0], true), src, dst, uids[1..]);
      }
    }
  }

  lemma CopyKeepsCopies(w: World, src: nat, dst: nat, uid: Uid)
    requires CopyState(w) && src < |w.folders| && dst < |w.folders|
    requires uid in w.folders[src].summary && uid in w.folders[src].cache
    ensures CopyState(JournalTransfer(w, src, dst, uid, false))
  {
    hide Ready, FindSource, JournalTransfer;
    TransferReady(w, src, dst, uid, false);
    TransferParts(w, src, dst, uid, false);
    var w' := JournalTransfer(w, src, dst, uid, false);
    forall f: nat, e | TransferIn(w', f, e)
      ensures !e.deleteOriginal
    {
      assert e in w.folders[f].queue ==> TransferIn(w, f, e);
    }
  }

  lemma {:induction false} TransferAllCopyState(w: World, src: nat, dst: nat, uids: seq<Uid>)
    requires CopyState(w) && src < |w.folders| && dst < |w.folders|
    ensures CopyState(TransferAll(w, src, dst, uids, false))
    decreases uids
  {
    hide CopyState, JournalTransfer;
    if uids != [] {
      if uids[0] !in w.folders[src].summary {
        TransferAllCopyState(w, src, dst, uids[1..]);
      } else if uids[0] in w.folders[src].cache {
        CopyKeepsCopies(w, src, dst, uids[0]);
        TransferKeepsCount(w, src, dst, uids[0], false);
        TransferAllCopyState(JournalTransfer(w, src, dst, uids[0], false), src, dst, uids[1..]);
      }
    }
  }

  lemma StepUniform(w: World, op: Op)
    requires Applies(w, op) && !op.DeleteOp?
    ensures MoveState(w) && (op.TransferOp? ==> op.del) ==> MoveState(Step(w, op))
    ensures CopyState(w) && (op.TransferOp? ==> !op.del) ==> CopyState(Step(w, op))
  {
    hide Ready, TransferAll, OnlyMoves, OwnOriginals;
    match op
    case AppendOp(dst, content) =>
      if MoveState(w) { AppendMoveState(w, dst, content); }
      if CopyState(w) {
        AppendReady(w, dst, content);
        AppendTransfers(w, dst, content);
      }
    case TransferOp(src, dst, uids, del) =>
      if MoveState(w) && del { TransferAllMoveState(w, src, dst, uids); }
      if CopyState(w) && !del { TransferAllCopyState(w, src, dst, uids); }
  }

  lemma {:induction false} RunUniform(w: World, ops: seq<Op>)
    requires forall op <- ops :: Applies(w, op)
    ensures MoveState(w) && MovesOnly(ops) ==> MoveState(Run(w, ops))
    ensures CopyState(w) && CopiesOnly(ops) ==> CopyState(Run(w, ops))
    decreases ops
  {
    hide MoveState, CopyState, Step;
    if ops != [] && (MovesOnly(ops) || CopiesOnly(ops)) {
      assert ops[0] in ops && forall op <- ops[1..] :: op in ops;
      StepUniform(w, ops[0]);
      var w1 := Step(w, ops[0]);
      assert forall op <- ops[1..] :: Applies(w1, op);
      RunUniform(w1, ops[1..]);
    }
  }

  lemma UniformOrder(w: World, jobs: seq<Job>)
    requires Schedule(w, jobs) && (MoveState(w) || CopyState(w))
    ensures NoTransferAfterMove(jobs) && MovesLeft(w, jobs)
  {
    hide Ready;
    forall i | 0 <= i < |jobs| && jobs[i].entry.Transfer?
      ensures TransferIn(w, jobs[i].folder, jobs[i].entry)
    {
      assert Queued(w, jobs[i]);
    }
  }

  /**
   Replay equivalence: after any offline run of appends and moves, or of appends and
   copies, across any folders, replaying the queued entries in any order, on a server that
   refuses none, leaves every server folder with exactly the messages its offline summary
   showed, and the client in sync with it.
   */
  lemma UniformRunsReplay(w: World, ops: seq<Op>, jobs: seq<Job>)
    requires InSync(w) && forall op <- ops :: Applies(w, op)
    requires MovesOnly(ops) || CopiesOnly(ops)
    requires Schedule(Run(w, ops), jobs) && Accepted(jobs)
    ensures |Run(w, ops).server| == |Run(w, ops).folders|
    ensures Faithful(Run(w, ops), Replay(Run(w, ops), jobs)) && Converged(Replay(Run(w, ops), jobs))
  {
    hide Ready, Run, Schedule, Faithful, Converged, Replay, NoTransferAfterMove, MovesLeft;
    InSyncReady(w);
    RunUniform(w, ops);
    UniformOrder(Run(w, ops), jobs);
    ReplayFaithfulIff(Run(w, ops), jobs);
    ReplayConvergesIff(Run(w, ops), jobs);
  }

  // ---- folder by folder ----------------------------------------------------

  /** All entries of one queue, in queue order. */
  function QueueJobs(w: World, f: nat): seq<Job>
    requires f < |w.folders|
  {
    seq(|w.folders[f].queue|, i requires 0 <= i < |w.folders[f].queue| => Job(f, w.folders[f].queue[i], true))
  }

  /** The journals replayed one folder after the other. */
  function FolderByFolder(w: World, order: seq<nat>): seq<Job>
    requires forall k :: 0 <= k < |order| ==> order[k] < |w.folders|
  {
    if order == [] then [] else QueueJobs(w, order[0]) + FolderByFolder(w, order[1..])
  }

  lemma {:induction false} FolderJobs(w: World, order: seq<nat>)
    requires forall k :: 0 <= k < |order| ==> order[k] < |w.folders|
    ensures forall j :: j in FolderByFolder(w, order) <==> j.accepted && j.folder in order && Queued(w, j)
  {
    if order != [] {
      FolderJobs(w, order[1..]);
      var jobs := QueueJobs(w, order[0]);
      forall j
        ensures j in jobs <==> j.accepted && j.folder == order[0] && Queued(w, j)
      {
        if j.accepted && j.folder == order[0] && Queued(w, j) {
          var i :| 0 <= i < |w.folders[order[0]].queue| && w.folders[order[0]].queue[i] == j.entry;
          assert jobs[i] == j;
        }
      }
    }
  }

  lemma {:induction false} FolderJobsDistinct(w: World, order: seq<nat>)
    requires forall k :: 0 <= k < |order| ==> order[k] < |w.folders|
    requires forall i, j :: 0 <= i < j < |order| ==> order[i] != order[j]
    requires forall f :: 0 <= f < |w.folders| ==> OneEntryEach(w.folders[f].queue)
    ensures forall i, j :: 0 <= i < j < |FolderByFolder(w, order)| ==>
                             FolderByFolder(w, order)[i] != FolderByFolder(w, order)[j]
  {
    if order != [] {
      FolderJobsDistinct(w, order[1..]);
      FolderJobs(w, order[1..]);
      var first, rest := QueueJobs(w, order[0]), FolderByFolder(w, order[1..]);
      assert forall i :: 0 <= i < |rest| ==> rest[i] in rest;
      assert order[0] !in order[1..];
    }
  }

  /** Replaying folder by folder, in any folder order, is a schedule. */
  lemma FolderOrderSchedule(w: World, order: seq<nat>)
    requires Ready(w) && forall k :: 0 <= k < |order| ==> order[k] < |w.folders|
    requires forall i, j :: 0 <= i < j < |order| ==> order[i] != order[j]
    requires forall f :: 0 <= f < |w.folders| ==> f in order
    ensures Schedule(w, FolderByFolder(w, order)) && Accepted(FolderByFolder(w, order))
  {
    hide FolderByFolder;
    forall f | 0 <= f < |w.folders|
      ensures OneEntryEach(w.folders[f].queue)
    {
      assert LocalReady(w.server, w.folders[f], f);
    }
    FolderJobs(w, order);
    FolderJobsDistinct(w, order);
    var jobs := FolderByFolder(w, order);
    assert forall i :: 0 <= i < |jobs| ==> jobs[i] in jobs;
    forall f, e | 0 <= f < |w.folders| && e in w.folders[f].queue
      ensures Scheduled(jobs, f, e)
    {
      assert Queued(w, Job(f, e, true)) && Job(f, e, true) in jobs;
    }
  }

  // ---- mixed chains --------------------------------------------------------

  const ONE := Local(map[Server(0) := "text"], map[Server(0) := "text"], [], 1)
  const NONE := Local(map[], map[], [], 1)

  /** Three folders, the first holding one message. */
  const START := World([ONE, NONE, NONE], [map[Server(0) := "text"], map[], map[]], 1)

  const COPY := TransferOp(0, 1, [Server(0)], false)
  const MOVE_ON := TransferOp(1, 2, [Offline(1)], true)

  lemma MixedState()
    ensures var r := Run(START, [COPY, MOVE_ON]);
            && |r.folders| == 3
            && r.folders[0].summary == map[Server(0) := "text"]
            && r.folders[2].queue == [Transfer(Offline(1), Server(0), 0, true)]
  {
    var u, t := Server(0), Offline(1);
    var w1 := JournalTransfer(START, 0, 1, u, false);
    var w2 := JournalTransfer(w1, 1, 2, t, true);
    assert [u][1..] == [] && [t][1..] == [];
    assert TransferAll(START, 0, 1, [u], false) == TransferAll(w1, 0, 1, [], false) == w1;
    assert w1.folders[1].queue == [Transfer(t, u, 0, false)];
    assert RealSource([Transfer(t, u, 0, false)], t) == FromServer(0, u);
    assert TransferAll(w1, 1, 2, [t], true) == TransferAll(w2, 1, 2, [], true) == w2;
    assert [COPY, MOVE_ON][1..] == [MOVE_ON] && [MOVE_ON][1..] == [];
    assert Run(START, [COPY, MOVE_ON]) == Run(w1, [MOVE_ON]) == Run(w2, []) == w2;
  }

  lemma MixedReady()
    ensures InSync(START) && Ready(Run(START, [COPY, MOVE_ON]))
  {
    hide Run;
    InSyncReady(START);
    RunReady(START, [COPY, MOVE_ON]);
  }

  /**
   Copying a message and then moving the copy on is not replayed faithfully: the single
   journal entry left moves the original, which its own folder still shows.
   */
  lemma CopyThenMove(jobs: seq<Job>)
    requires Schedule(Run(START, [COPY, MOVE_ON]), jobs) && Accepted(jobs)
    ensures var r := Run(START, [COPY, MOVE_ON]);
            |r.server| == |r.folders| && !Faithful(r, Replay(r, jobs))
  {
    hide Run, Ready, Faithful, Replay, NoTransferAfterMove;
    var r := Run(START, [COPY, MOVE_ON]);
    MixedState();
    MixedReady();
    ReplayFaithfulIff(r, jobs);
    var e := Transfer(Offline(1), Server(0), 0, true);
    assert e in r.folders[2].queue;
    assert Scheduled(jobs, 2, e);
    var i :| 0 <= i < |jobs| && jobs[i].folder == 2 && jobs[i].entry == e;
    assert jobs[i].entry.original in r.folders[0].summary;
  }

  const MOVE_AWAY := TransferOp(0, 2, [Server(0)], true)

  lemma SplitState()
    ensures var r := Run(START, [COPY, MOVE_AWAY]);
            && |r.folders| == 3 && r.folders[0].queue == []
            && r.folders[1].queue == [Transfer(Offline(1), Server(0), 0, false)]
            && r.folders[2].queue == [Transfer(Offline(1), Server(0), 0, true)]
  {
    var u := Server(0);
    var w1 := JournalTransfer(START, 0, 1, u, false);
    var w2 := JournalTransfer(w1, 0, 2, u, true);
    assert [u][1..] == [];
    assert TransferAll(START, 0, 1, [u], false) == TransferAll(w1, 0, 1, [], false) == w1;
    assert u in w1.folders[0].summary && u in w1.folders[0].cache;
    assert TransferAll(w1, 0, 2, [u], true) == TransferAll(w2, 0, 2, [], true) == w2;
    assert [COPY, MOVE_AWAY][1..] == [MOVE_AWAY] && [MOVE_AWAY][1..] == [];
    assert Run(START, [COPY, MOVE_AWAY]) == Run(w1, [MOVE_AWAY]) == Run(w2, []) == w2;
  }

  lemma SplitReady()
    ensures InSync(START) && Ready(Run(START, [COPY, MOVE_AWAY]))
  {
    hide Run;
    InSyncReady(START);
    RunReady(START, [COPY, MOVE_AWAY]);
  }

  /**
   A message copied to one folder and moved to another: when the move is replayed first the
   copy finds no original and stays queued, although the server refuses nothing.
   */
  lemma MoveBeforeCopy()
    ensures var r := Run(START, [COPY, MOVE_AWAY]);
            var jobs := [Job(2, Transfer(Offline(1), Server(0), 0, true), true),
                         Job(1, Transfer(Offline(1), Server(0), 0, false), true)];
            && Schedule(r, jobs) && Accepted(jobs) && |r.server| == |r.folders|
            && !Converged(Replay(r, jobs))
  {
    hide Run, Ready, Converged, Replay;
    var r := Run(START, [COPY, MOVE_AWAY]);
    var jobs := [Job(2, Transfer(Offline(1), Server(0), 0, true), true),
                 Job(1, Transfer(Offline(1), Server(0), 0, false), true)];
    SplitState();
    SplitReady();
    forall f, e | 0 <= f < |r.folders| && e in r.folders[f].queue
      ensures Scheduled(jobs, f, e)
    {
      assert f == 1 || f == 2;
      assert jobs[if f == 1 then 1 else 0].entry == e;
    }
    ReplayConvergesIff(r, jobs);
    assert Moves(jobs[0].entry, jobs[1].entry.source, jobs[1].entry.original);
  }
}
