/**
 Coming back in sync.  Whatever order the journals are replayed in, the queues empty and
 every folder shows what its server folder holds exactly when the server refuses nothing
 and no transfer is replayed after a move of the same original.
 */
module ReplayConverges {
  import opened Basics
  import opened JournalState
  import opened JournalReady
  import opened JournalReplay
  import opened ReplayTheorem

  /** One of the first `k` jobs settled the temporary message. */
  ghost predicate SettledBy(jobs: seq<Job>, k: nat, f: nat, temp: Uid)
    requires k <= |jobs|
  {
    exists i :: 0 <= i < k && Arrived(jobs, i, f) && jobs[i].entry.uid == temp
  }

  /** The summary after the first `k` jobs, uid by uid. */
  ghost predicate SummaryAfter(w: World, jobs: seq<Job>, k: nat, f: nat, now: map<Uid, string>)
    requires k <= |jobs| && f < |w.folders|
  {
    && (forall uid: Uid :: uid.Server? && uid.id < w.nextServer ==>
          (uid in now <==> uid in w.folders[f].summary && !Moved(jobs, k, f, uid)))
    && (forall uid: Uid :: uid.Server? && uid.id < w.nextServer && uid in now ==> now[uid] == w.folders[f].summary[uid])
    && (forall i :: 0 <= i < k ==> (Posted(w, i) in now <==> Arrived(jobs, i, f)))
    && (forall i :: 0 <= i < k && Posted(w, i) in now && jobs[i].entry.uid in w.folders[f].summary ==>
          now[Posted(w, i)] == w.folders[f].summary[jobs[i].entry.uid])
    && (forall uid: Uid :: uid.Server? && uid.id >= w.nextServer + k ==> uid !in now)
    && (forall uid: Uid :: uid.Offline? ==>
          (uid in now <==> uid in w.folders[f].summary && !SettledBy(jobs, k, f, uid)))
  }

  /** The queue after the first `k` jobs holds the entries not played yet, or not playable. */
  ghost predicate QueueAfter(w: World, jobs: seq<Job>, k: nat, f: nat, now: seq<Entry>)
    requires k <= |jobs| && f < |w.folders|
  {
    && OneEntryEach(now)
    && forall e :: e in now <==> e in w.folders[f].queue && !SettledBy(jobs, k, f, e.uid)
  }

  ghost predicate FoldersAfter(w: World, jobs: seq<Job>, k: nat, folders: seq<Local>)
    requires k <= |jobs|
  {
    && |folders| == |w.folders|
    && (forall f :: 0 <= f < |w.folders| ==> SummaryAfter(w, jobs, k, f, folders[f].summary))
    && (forall f :: 0 <= f < |w.folders| ==> QueueAfter(w, jobs, k, f, folders[f].queue))
  }

  lemma {:induction false} UnlinkExact(queue: seq<Entry>, e: Entry)
    requires OneEntryEach(queue)
    ensures OneEntryEach(Unlink(queue, e))
    ensures forall x :: x in Unlink(queue, e) <==> x in queue && x != e
  {
    if queue != [] {
      var head, tail := queue[0], queue[1..];
      assert queue == [head] + tail;
      assert OneEntryEach(tail) && forall x <- tail :: x.uid != head.uid;
      UnlinkExact(tail, e);
      if head != e { OneMore(head, Unlink(tail, e)); }
    }
  }

  lemma OneMore(head: Entry, rest: seq<Entry>)
    requires OneEntryEach(rest) && forall x <- rest :: x.uid != head.uid
    ensures OneEntryEach([head] + rest)
  {
    assert forall i :: 0 <= i < |rest| ==> rest[i] in rest;
  }

  lemma SettledStep(jobs: seq<Job>, k: nat, f: nat, temp: Uid)
    requires k < |jobs|
    ensures SettledBy(jobs, k + 1, f, temp) <==>
            SettledBy(jobs, k, f, temp) || (Arrived(jobs, k, f) && jobs[k].entry.uid == temp)
  {
  }

  // ---- one job -------------------------------------------------------------

  /** Whether a job can be played when its turn comes. */
  lemma JobPlays(w: World, jobs: seq<Job>, k: nat, r: World)
    requires |w.server| == |w.folders| && Ready(w) && Schedule(w, jobs) && k < |jobs| && After(w, jobs, k, r)
    ensures |r.server| == |r.folders| == |w.folders| && jobs[k].folder < |w.folders| && r.nextServer == w.nextServer + k
    ensures var e := jobs[k].entry;
            var f := jobs[k].folder;
            && e.uid.Offline? && e.uid in r.folders[f].cache && (e.Append? || e.Transfer?)
            && (e.uid in w.folders[f].summary ==> r.folders[f].cache[e.uid] == w.folders[f].summary[e.uid])
            && (e.Transfer? ==> e.source < |w.folders| && e.original.Server?
                                && (jobs[k].accepted && e.original in r.server[e.source] <==> Succeeds(jobs, k)))
            && (e.Append? ==> (Succeeds(jobs, k) <==> jobs[k].accepted))
  {
    hide Schedule, ServerReady, LocalReady, Covered, Moved, Succeeds, Ready;
    var e := jobs[k].entry;
    SucceedsMeans(jobs, k);
    JobReady(w, jobs, k);
    OriginalKnown(w, jobs, k);
    assert CacheAfter(w, jobs, k, jobs[k].folder, r.folders[jobs[k].folder].cache);
    if e.Transfer? { assert ServerAfter(w, jobs, k, e.source, r.server[e.source]); }
  }

  /** What a job does to one folder's summary and queue. */
  lemma PlayLocal(w: World, jobs: seq<Job>, k: nat, r: World, f: nat)
    requires |w.server| == |w.folders| && Ready(w) && Schedule(w, jobs) && k < |jobs| && After(w, jobs, k, r)
    requires f < |w.folders| && Posted(w, k) !in r.folders[f].summary
    ensures var now := Play(r, jobs[k]).folders[f];
            && (forall uid: Uid :: uid != Posted(w, k) ==>
                  (uid in now.summary <==>
                     && uid in r.folders[f].summary && !(Succeeds(jobs, k) && Moves(jobs[k].entry, f, uid))
                     && !(Arrived(jobs, k, f) && uid == jobs[k].entry.uid)))
            && (forall uid: Uid :: uid != Posted(w, k) && uid in now.summary && uid in r.folders[f].summary ==>
                  now.summary[uid] == r.folders[f].summary[uid])
            && (Posted(w, k) in now.summary <==> Arrived(jobs, k, f))
            && (Posted(w, k) in now.summary && jobs[k].entry.uid in w.folders[f].summary ==>
                  now.summary[Posted(w, k)] == w.folders[f].summary[jobs[k].entry.uid])
            && now.queue == (if Arrived(jobs, k, f) then Unlink(r.folders[f].queue, jobs[k].entry)
                             else r.folders[f].queue)
  {
    hide Schedule, Ready, After, Succeeds, Play, Unlink, RemoveMessage, Settled, Played;
    JobPlays(w, jobs, k, r);
    var j := jobs[k];
    if Succeeds(jobs, k) {
      PlayedShape(r, j, f);
      LeftFacts(r.folders[f], j.entry, f);
      var base := Left(r.folders[f], j.entry, f);
      SettledFacts(base, j.entry, Posted(w, k), r.folders[j.folder].cache[j.entry.uid]);
    } else {
      FailedShape(r, j);
    }
  }

  /** The folder once the original has left it. */
  ghost function Left(l: Local, e: Entry, f: nat): Local {
    if e.Transfer? && Moves(e, f, e.original) then RemoveMessage(l, e.original) else l
  }

  lemma LeftFacts(l: Local, e: Entry, f: nat)
    ensures Left(l, e, f).queue == l.queue
    ensures forall uid: Uid :: uid in Left(l, e, f).summary <==> uid in l.summary && !Moves(e, f, uid)
    ensures forall uid: Uid :: uid in Left(l, e, f).summary ==> Left(l, e, f).summary[uid] == l.summary[uid]
  {
  }

  lemma SettledFacts(l: Local, e: Entry, posted: Uid, content: string)
    requires posted.Server? && e.uid.Offline?
    ensures var now := Played(Settled(l, e.uid, posted, content), e);
            && now.queue == Unlink(l.queue, e)
            && posted in now.summary && now.summary[posted] == content
            && (forall uid: Uid :: uid != posted ==> (uid in now.summary <==> uid in l.summary && uid != e.uid))
            && (forall uid: Uid :: uid != posted && uid in now.summary ==> now.summary[uid] == l.summary[uid])
  {
    hide Unlink;
  }

  lemma PlayedShape(r: World, j: Job, f: nat)
    requires |r.server| == |r.folders| && f < |r.folders| && j.folder < |r.folders|
    requires var e := j.entry;
             && j.accepted && (e.Append? || e.Transfer?) && e.uid in r.folders[j.folder].cache
             && (e.Transfer? ==> e.source < |r.folders| && e.original in r.server[e.source])
    ensures Play(r, j).folders[f] ==
            if f == j.folder
            then Played(Settled(Left(r.folders[f], j.entry, f), j.entry.uid, Server(r.nextServer),
                                r.folders[f].cache[j.entry.uid]), j.entry)
            else Left(r.folders[f], j.entry, f)
  {
    hide Played, Settled, RemoveMessage, Without;
  }

  lemma FailedShape(r: World, j: Job)
    requires |r.server| == |r.folders| && j.folder < |r.folders|
    requires var e := j.entry;
             && (e.Append? || e.Transfer?) && e.uid in r.folders[j.folder].cache
             && (j.accepted ==> e.Transfer? && (e.source < |r.folders| ==> e.original !in r.server[e.source]))
    ensures Play(r, j).folders == r.folders
  {
  }

  lemma SummaryStep(w: World, jobs: seq<Job>, k: nat, f: nat, now: map<Uid, string>, next: map<Uid, string>)
    requires k < |jobs| && f < |w.folders| && SummaryAfter(w, jobs, k, f, now)
    requires forall uid: Uid :: uid != Posted(w, k) ==>
               (uid in next <==> uid in now && !(Succeeds(jobs, k) && Moves(jobs[k].entry, f, uid))
                                 && !(Arrived(jobs, k, f) && uid == jobs[k].entry.uid))
    requires forall uid: Uid :: uid != Posted(w, k) && uid in next && uid in now ==> next[uid] == now[uid]
    requires Posted(w, k) in next <==> Arrived(jobs, k, f)
    requires Posted(w, k) in next && jobs[k].entry.uid in w.folders[f].summary ==>
               next[Posted(w, k)] == w.folders[f].summary[jobs[k].entry.uid]
    requires jobs[k].entry.uid.Offline?
    requires jobs[k].entry.Transfer? ==> jobs[k].entry.original.Server? && jobs[k].entry.original.id < w.nextServer
    ensures SummaryAfter(w, jobs, k + 1, f, next)
  {
    hide Succeeds, Arrived, Moved, SettledBy;
    forall uid: Uid
      ensures Moved(jobs, k + 1, f, uid) <==>
              Moved(jobs, k, f, uid) || (Succeeds(jobs, k) && Moves(jobs[k].entry, f, uid))
      ensures SettledBy(jobs, k + 1, f, uid) <==>
              SettledBy(jobs, k, f, uid) || (Arrived(jobs, k, f) && jobs[k].entry.uid == uid)
    {
      MovedStep(jobs, k, f, uid);
      SettledStep(jobs, k, f, uid);
    }
    forall i | 0 <= i < k
      ensures Posted(w, i) in next <==> Posted(w, i) in now
    {
      assert Posted(w, i) != Posted(w, k);
    }
  }

  lemma QueueStep(w: World, jobs: seq<Job>, k: nat, f: nat, now: seq<Entry>)
    requires Ready(w) && Schedule(w, jobs) && k < |jobs| && f < |w.folders| && QueueAfter(w, jobs, k, f, now)
    ensures QueueAfter(w, jobs, k + 1, f, if Arrived(jobs, k, f) then Unlink(now, jobs[k].entry) else now)
  {
    hide Ready, Schedule, SettledBy, Succeeds;
    var e := jobs[k].entry;
    UnlinkExact(now, e);
    forall x | x in w.folders[f].queue
      ensures SettledBy(jobs, k + 1, f, x.uid) <==> SettledBy(jobs, k, f, x.uid) || (Arrived(jobs, k, f) && x == e)
    {
      SettledStep(jobs, k, f, x.uid);
      if Arrived(jobs, k, f) { OwnEntry(w, jobs, k, x); }
    }
  }

  lemma OwnEntry(w: World, jobs: seq<Job>, k: nat, x: Entry)
    requires Ready(w) && Schedule(w, jobs) && k < |jobs| && jobs[k].folder < |w.folders|
    requires x in w.folders[jobs[k].folder].queue
    ensures x.uid == jobs[k].entry.uid <==> x == jobs[k].entry
  {
    assert Queued(w, jobs[k]);
    assert LocalReady(w.server, w.folders[jobs[k].folder], jobs[k].folder);
    if x.uid == jobs[k].entry.uid { SameUidSameEntry(w.folders[jobs[k].folder].queue, x, jobs[k].entry); }
  }

  lemma FoldersStep(w: World, jobs: seq<Job>, k: nat, r: World)
    requires Ready(w) && Schedule(w, jobs) && k < |jobs| && |w.server| == |w.folders|
    requires After(w, jobs, k, r) && FoldersAfter(w, jobs, k, r.folders)
    ensures FoldersAfter(w, jobs, k + 1, Play(r, jobs[k]).folders)
  {
    hide Ready, Schedule, After, Play, SummaryAfter, QueueAfter, Unlink, Succeeds, Arrived;
    JobReady(w, jobs, k);
    OriginalKnown(w, jobs, k);
    AfterSizes(w, jobs, k, r);
    var r' := Play(r, jobs[k]);
    forall f | 0 <= f < |w.folders|
      ensures SummaryAfter(w, jobs, k + 1, f, r'.folders[f].summary)
      ensures QueueAfter(w, jobs, k + 1, f, r'.folders[f].queue)
    {
      var now := r.folders[f];
      assert SummaryAfter(w, jobs, k, f, now.summary) && QueueAfter(w, jobs, k, f, now.queue);
      NotShown(w, jobs, k, f, now.summary);
      PlayLocal(w, jobs, k, r, f);
      SummaryStep(w, jobs, k, f, now.summary, r'.folders[f].summary);
      QueueStep(w, jobs, k, f, now.queue);
    }
  }

  lemma AfterSizes(w: World, jobs: seq<Job>, k: nat, r: World)
    requires k <= |jobs| && |w.server| == |w.folders| && After(w, jobs, k, r)
    ensures |r.server| == |r.folders| == |w.folders|
  {
  }

  lemma NotShown(w: World, jobs: seq<Job>, k: nat, f: nat, now: map<Uid, string>)
    requires k <= |jobs| && f < |w.folders| && SummaryAfter(w, jobs, k, f, now)
    ensures Posted(w, k) !in now
  {
  }

  // ---- the whole replay ----------------------------------------------------

  lemma OneMoreJob(w: World, jobs: seq<Job>, k: nat)
    requires |w.server| == |w.folders| && 0 < k <= |jobs|
    ensures Replay(w, jobs[..k]) == Play(Replay(w, jobs[..k - 1]), jobs[k - 1])
  {
    hide Play;
    assert jobs[..k][..k - 1] == jobs[..k - 1];
  }

  lemma {:induction false} ReplayFolders(w: World, jobs: seq<Job>, k: nat)
    requires Ready(w) && Schedule(w, jobs) && k <= |jobs|
    ensures |w.server| == |w.folders| && FoldersAfter(w, jobs, k, Replay(w, jobs[..k]).folders)
  {
    ReadySizes(w);
    if k == 0 {
      FoldersStart(w, jobs);
    } else {
      hide Ready, Schedule, After, FoldersAfter, Play, Replay;
      ReplayFolders(w, jobs, k - 1);
      ReplayOutcome(w, jobs, k - 1);
      OneMoreJob(w, jobs, k);
      FoldersStep(w, jobs, k - 1, Replay(w, jobs[..k - 1]));
    }
  }

  lemma FoldersStart(w: World, jobs: seq<Job>)
    requires Ready(w) && Schedule(w, jobs)
    ensures FoldersAfter(w, jobs, 0, w.folders)
  {
    hide Schedule, Backed, Arrived;
    forall f: nat | f < |w.folders|
      ensures SummaryAfter(w, jobs, 0, f, w.folders[f].summary)
      ensures QueueAfter(w, jobs, 0, f, w.folders[f].queue)
    {
      assert LocalReady(w.server, w.folders[f], f);
      NoneMoved(jobs, f);
      forall uid | uid in w.folders[f].summary
        ensures uid.Server? ==> uid.id < w.nextServer
      {
        assert UidReady(w.server, w.folders[f], f, uid);
      }
    }
  }

  /** Every queue is empty and every folder shows what its server folder holds. */
  ghost predicate Converged(r: World)
    requires |r.server| == |r.folders|
  {
    forall f :: 0 <= f < |r.folders| ==> r.folders[f].queue == [] && r.folders[f].summary == r.server[f]
  }

  /** With nothing failed a folder shows what the server holds. */
  lemma SameAfter(w: World, jobs: seq<Job>, f: nat, server: map<Uid, string>, summary: map<Uid, string>)
    requires Ready(w) && Schedule(w, jobs) && f < |w.folders| && |w.server| == |w.folders|
    requires ServerAfter(w, jobs, |jobs|, f, server) && SummaryAfter(w, jobs, |jobs|, f, summary)
    requires Finished(w, jobs, f, server)
    requires forall i :: 0 <= i < |jobs| ==> Succeeds(jobs, i)
    ensures summary == server
  {
    hide Ready, Schedule, Moved, Succeeds, SettledBy;
    forall uid: Uid
      ensures uid in summary <==> uid in server
      ensures uid in summary && uid in server ==> summary[uid] == server[uid]
    {
      if uid.Offline? {
        if uid in w.folders[f].summary { SettledInTheEnd(w, jobs, f, uid); }
      } else if uid.id < w.nextServer {
        if uid in w.folders[f].summary { assert UidReady(w.server, w.folders[f], f, uid); }
      } else if uid.id < w.nextServer + |jobs| {
        assert uid == Posted(w, uid.id - w.nextServer);
      }
    }
  }

  lemma SettledInTheEnd(w: World, jobs: seq<Job>, f: nat, uid: Uid)
    requires Ready(w) && Schedule(w, jobs) && f < |w.folders| && uid.Offline? && uid in w.folders[f].summary
    requires forall i :: 0 <= i < |jobs| ==> Succeeds(jobs, i)
    ensures SettledBy(jobs, |jobs|, f, uid)
  {
    hide Succeeds, Backed, ServerReady, Covered;
    assert LocalReady(w.server, w.folders[f], f);
    assert UidReady(w.server, w.folders[f], f, uid);
    var e :| e in w.folders[f].queue && e.uid == uid;
    assert Scheduled(jobs, f, e);
    var i :| 0 <= i < |jobs| && jobs[i].folder == f && jobs[i].entry == e;
    assert Arrived(jobs, i, f);
  }

  lemma EmptyInTheEnd(w: World, jobs: seq<Job>, f: nat, queue: seq<Entry>)
    requires Ready(w) && Schedule(w, jobs) && f < |w.folders| && QueueAfter(w, jobs, |jobs|, f, queue)
    requires forall i :: 0 <= i < |jobs| ==> Succeeds(jobs, i)
    ensures queue == []
  {
    hide Ready, Schedule, Succeeds, SettledBy;
    if queue != [] {
      var e := queue[0];
      assert e in queue && e in w.folders[f].queue;
      EntryShown(w, f, e);
      SettledInTheEnd(w, jobs, f, e.uid);
    }
  }

  lemma EntryShown(w: World, f: nat, e: Entry)
    requires Ready(w) && f < |w.folders| && e in w.folders[f].queue
    ensures e.uid.Offline? && e.uid in w.folders[f].summary
  {
    assert LocalReady(w.server, w.folders[f], f);
    assert EntryReady(w.server, w.folders[f], e);
  }

  /** A job that fails leaves its entry behind. */
  lemma FailureStays(w: World, jobs: seq<Job>, i: nat, queue: seq<Entry>)
    requires Ready(w) && Schedule(w, jobs) && i < |jobs| && !Succeeds(jobs, i)
    requires jobs[i].folder < |w.folders| && QueueAfter(w, jobs, |jobs|, jobs[i].folder, queue)
    ensures queue != []
  {
    hide Ready, Succeeds;
    var f, e := jobs[i].folder, jobs[i].entry;
    assert Queued(w, jobs[i]);
    JobReady(w, jobs, i);
    assert !SettledBy(jobs, |jobs|, f, e.uid);
    assert e in queue;
  }

  /**
   After the replay, in any order and with any answers of the server, the client and the
   server agree and nothing is left to send exactly when the server refused nothing and no
   transfer was replayed after a move of the same original.
   */
  lemma ReplayConvergesIff(w: World, jobs: seq<Job>)
    requires Ready(w) && Schedule(w, jobs)
    ensures |w.server| == |w.folders|
    ensures Converged(Replay(w, jobs)) <==> Accepted(jobs) && NoTransferAfterMove(jobs)
  {
    hide Ready, Schedule, Succeeds, Finished, SummaryAfter, QueueAfter, ServerAfter, CacheAfter, NoTransferAfterMove,
         Replay;
    ReadySizes(w);
    var r := Replay(w, jobs);
    AllSucceedIff(jobs);
    ReplayFolders(w, jobs, |jobs|);
    ReplayOutcome(w, jobs, |jobs|);
    assert jobs[..|jobs|] == jobs;
    if forall i :: 0 <= i < |jobs| ==> Succeeds(jobs, i) {
      forall f | 0 <= f < |r.folders|
        ensures r.folders[f].queue == [] && r.folders[f].summary == r.server[f]
      {
        ReplayFinished(w, jobs, f);
        SameAfter(w, jobs, f, r.server[f], r.folders[f].summary);
        EmptyInTheEnd(w, jobs, f, r.folders[f].queue);
      }
    } else {
      var i: nat :| i < |jobs| && !Succeeds(jobs, i);
      JobReady(w, jobs, i);
      FailureStays(w, jobs, i, r.folders[jobs[i].folder].queue);
    }
  }
}
