/**
 Messages put in a folder offline and deleted there before the replay.  Their text is gone,
 so the entries that put them there are given up without anything reaching the server, and
 the deletions themselves can never be played.
 */
module OfflineDeletion {
  import opened Basics
  import opened MessageFlags
  import opened JournalState
  import opened ReplayTheorem
  import opened ReplayConverges
  import opened UniformRuns

  // ---- what is never posted ------------------------------------------------

  lemma PlayKeepsOut(w: World, j: Job, f: nat, uid: Uid)
    requires |w.server| == |w.folders| && f < |w.folders| && uid !in w.folders[f].cache
    ensures uid !in Play(w, j).folders[f].cache
  {
  }

  /** A replay brings no text back into a cache. */
  lemma {:induction false} ReplayKeepsOut(w: World, jobs: seq<Job>, f: nat, uid: Uid)
    requires |w.server| == |w.folders| && f < |w.folders| && uid !in w.folders[f].cache
    ensures uid !in Replay(w, jobs).folders[f].cache
    decreases |jobs|
  {
    hide Play;
    if jobs != [] {
      ReplayKeepsOut(w, jobs[..|jobs| - 1], f, uid);
      PlayKeepsOut(Replay(w, jobs[..|jobs| - 1]), jobs[|jobs| - 1], f, uid);
    }
  }

  lemma GivenUp(w: World, j: Job)
    requires |w.server| == |w.folders| && j.folder < |w.folders|
    requires j.entry.Append? || j.entry.Transfer?
    requires j.entry.uid !in w.folders[j.folder].cache
    ensures Play(w, j).server == w.server
    ensures Play(w, j).folders[j.folder].queue == Unlink(w.folders[j.folder].queue, j.entry)
  {
  }

  /**
   In any order of replay, and whatever the server answers: the entry of a message whose text
   was deleted offline changes nothing on the server, and leaves the queue.
   */
  lemma DeletedNeverPosted(w: World, jobs: seq<Job>, k: nat)
    requires |w.server| == |w.folders| && k < |jobs| && jobs[k].folder < |w.folders|
    requires jobs[k].entry.Append? || jobs[k].entry.Transfer?
    requires jobs[k].entry.uid !in w.folders[jobs[k].folder].cache
    ensures var before, after := Replay(w, jobs[..k]), Replay(w, jobs[..k + 1]);
            && after.server == before.server
            && after.folders[jobs[k].folder].queue == Unlink(before.folders[jobs[k].folder].queue, jobs[k].entry)
  {
    hide Play, Unlink;
    assert jobs[..k + 1][..k] == jobs[..k] && jobs[..k + 1][k] == jobs[k];
    ReplayKeepsOut(w, jobs[..k], jobs[k].folder, jobs[k].entry.uid);
    GivenUp(Replay(w, jobs[..k]), jobs[k]);
  }

  /** The journalled deletion of a message takes its text along. */
  lemma DeletionDropsText(l: Local, uid: Uid, flags: Word, set': Word)
    requires DELETED in flags * set' && uid in l.summary
    ensures uid !in JournalDelete(l, uid, flags, set').cache && uid !in JournalDelete(l, uid, flags, set').summary
  {
  }

  /** Right after the journalled deletion of a message its entries are given up in any replay. */
  lemma DeletionNotPosted(w: World, f: nat, uid: Uid, flags: Word, set': Word, jobs: seq<Job>, k: nat)
    requires |w.server| == |w.folders| && f < |w.folders|
    requires DELETED in flags * set' && uid in w.folders[f].summary
    requires k < |jobs| && jobs[k].folder == f && jobs[k].entry.uid == uid
    requires jobs[k].entry.Append? || jobs[k].entry.Transfer?
    ensures var d := Step(w, DeleteOp(f, uid, flags, set'));
            && |d.server| == |d.folders| && uid !in d.folders[f].summary
            && Replay(d, jobs[..k + 1]).server == Replay(d, jobs[..k]).server
  {
    hide Replay, JournalDelete;
    DeletionDropsText(w.folders[f], uid, flags, set');
    DeletedNeverPosted(Step(w, DeleteOp(f, uid, flags, set')), jobs, k);
  }

  // ---- deletions that are never played -------------------------------------

  ghost predicate ServerNames(w: World) {
    forall f, uid :: 0 <= f < |w.server| && uid in w.server[f] ==> uid.Server?
  }

  lemma PlayNames(w: World, j: Job)
    requires |w.server| == |w.folders| && ServerNames(w)
    ensures ServerNames(Play(w, j))
  {
  }

  lemma {:induction false} UnlinkKeepsOther(queue: seq<Entry>, e: Entry, x: Entry)
    requires x in queue && x != e
    ensures x in Unlink(queue, e)
  {
    if queue[0] != e && queue[0] != x {
      UnlinkKeepsOther(queue[1..], e, x);
    }
  }

  lemma PlayQueue(w: World, j: Job, f: nat)
    requires |w.server| == |w.folders| && f < |w.folders|
    ensures var q := Play(w, j).folders[f].queue;
            q == w.folders[f].queue || q == Unlink(w.folders[f].queue, j.entry)
  {
    hide Unlink, Without;
  }

  lemma NotPlayed(w: World, j: Job)
    requires |w.server| == |w.folders| && ServerNames(w) && j.entry.Delete? && j.entry.uid.Offline?
    ensures Play(w, j).folders == w.folders
  {
    var uid := j.entry.uid;
    if j.folder < |w.folders| {
      assert uid in w.server[j.folder] ==> uid.Server?;
      assert uid !in w.server[j.folder];
    }
  }

  lemma PlayKeepsStale(w: World, j: Job, f: nat, e: Entry)
    requires |w.server| == |w.folders| && ServerNames(w) && f < |w.folders|
    requires e in w.folders[f].queue && e.Delete? && e.uid.Offline?
    ensures e in Play(w, j).folders[f].queue
  {
    hide Unlink, Play;
    if j.entry == e {
      NotPlayed(w, j);
    } else {
      PlayQueue(w, j, f);
      UnlinkKeepsOther(w.folders[f].queue, j.entry, e);
    }
  }

  /** A flag change of a message that only ever had a temporary uid stays queued for good. */
  lemma {:induction false} StaleDeletionStays(w: World, jobs: seq<Job>, f: nat, e: Entry)
    requires |w.server| == |w.folders| && ServerNames(w) && f < |w.folders|
    requires e in w.folders[f].queue && e.Delete? && e.uid.Offline?
    ensures ServerNames(Replay(w, jobs)) && e in Replay(w, jobs).folders[f].queue
    decreases |jobs|
  {
    hide Play, ServerNames;
    if jobs != [] {
      var before := Replay(w, jobs[..|jobs| - 1]);
      StaleDeletionStays(w, jobs[..|jobs| - 1], f, e);
      PlayNames(before, jobs[|jobs| - 1]);
      PlayKeepsStale(before, jobs[|jobs| - 1], f, e);
    }
  }

  // ---- a move that is deleted ----------------------------------------------

  const MOVED := Transfer(Offline(1), Server(0), 0, true)
  const REMOVED := Delete(Offline(1), {DELETED}, {DELETED})
  const DELETE_MOVED := DeleteOp(2, Offline(1), {DELETED}, {DELETED})

  const EMPTIED := Local(map[], map[], [], 1)
  const MOVED_THERE := Local(map[Offline(1) := "text"], map[Offline(1) := "text"], [MOVED], 2)
  const LEFT_BEHIND := Local(map[], map[], [MOVED, REMOVED], 2)

  lemma MovedAway()
    ensures Step(START, MOVE_AWAY) == START.(folders := [EMPTIED, NONE, MOVED_THERE])
  {
    var u := Server(0);
    var w1 := JournalTransfer(START, 0, 2, u, true);
    assert [u][1..] == [];
    assert TransferAll(START, 0, 2, [u], true) == TransferAll(w1, 0, 2, [], true) == w1;
    assert Without(map[u := "text"], u) == map[];
    assert Leave(ONE, u) == EMPTIED;
    assert map[][Offline(1) := "text"] == map[Offline(1) := "text"];
    assert [] + [MOVED] == [MOVED];
    assert Push(UpdateCache(NONE, "text"), MOVED) == MOVED_THERE;
    assert w1.folders == [EMPTIED, NONE, MOVED_THERE];
  }

  lemma MovedDeleted()
    ensures Run(START, [MOVE_AWAY, DELETE_MOVED]) == START.(folders := [EMPTIED, NONE, LEFT_BEHIND])
  {
    MovedAway();
    var w1 := START.(folders := [EMPTIED, NONE, MOVED_THERE]);
    assert Without(map[Offline(1) := "text"], Offline(1)) == map[];
    assert [MOVED] + [REMOVED] == [MOVED, REMOVED];
    assert JournalDelete(MOVED_THERE, Offline(1), {DELETED}, {DELETED}) == LEFT_BEHIND;
    assert Step(w1, DELETE_MOVED).folders == [EMPTIED, NONE, LEFT_BEHIND];
    assert [MOVE_AWAY, DELETE_MOVED][1..] == [DELETE_MOVED] && [DELETE_MOVED][1..] == [];
    assert Run(START, [MOVE_AWAY, DELETE_MOVED]) == Run(w1, [DELETE_MOVED]) == Run(Step(w1, DELETE_MOVED), []);
  }

  lemma MovedReplayed()
    ensures var w := START.(folders := [EMPTIED, NONE, LEFT_BEHIND]);
            var r := Replay(w, [Job(2, MOVED, true), Job(2, REMOVED, true)]);
            r.server == START.server && |r.folders| == 3 && r.folders[2].queue == [REMOVED]
  {
    var w := START.(folders := [EMPTIED, NONE, LEFT_BEHIND]);
    var jobs := [Job(2, MOVED, true), Job(2, REMOVED, true)];
    assert jobs[..1] == [jobs[0]] && [jobs[0]][..0] == [];
    assert Unlink([MOVED, REMOVED], MOVED) == [MOVED, REMOVED][1..] == [REMOVED];
    var w1 := Play(w, jobs[0]);
    assert Replay(w, [jobs[0]]) == Play(Replay(w, []), jobs[0]) == w1;
    assert w1.server == START.server && w1.folders[2].queue == [REMOVED];
    assert Replay(w, jobs) == Play(w1, jobs[1]);
  }

  /**
   A message moved to another folder and deleted there before the replay: its text is gone, so
   the move is given up and the original stays on the server in the folder it had left, and
   the deletion of the temporary message can never be played.
   */
  lemma DeletedMoveStays()
    ensures var w := Run(START, [MOVE_AWAY, DELETE_MOVED]);
            var r := Replay(w, [Job(2, MOVED, true), Job(2, REMOVED, true)]);
            && w.folders[0].summary == map[] && Server(0) in r.server[0]
            && REMOVED in r.folders[2].queue && !Faithful(w, r) && !Converged(r)
  {
    hide Run, Replay;
    MovedDeleted();
    MovedReplayed();
    var w := Run(START, [MOVE_AWAY, DELETE_MOVED]);
    var r := Replay(w, [Job(2, MOVED, true), Job(2, REMOVED, true)]);
    SomethingShown(r.server[0], w.folders[0].summary, Server(0));
  }

  lemma SomethingShown(server: map<Uid, string>, summary: map<Uid, string>, uid: Uid)
    requires uid in server
    ensures SameMessages(server, summary) ==> summary != map[]
  {
    if SameMessages(server, summary) {
      var g :| Renames(g, server, summary);
      assert g[uid] in summary;
    }
  }
}
