/** When replaying the journals gives the server what the offline summaries showed. */
module ReplayTheorem {
  import opened Basics
  import opened JournalState
  import opened JournalReady
  import opened JournalReplay

  /** `g` names each message of the server folder in the summary, one to one. */
  ghost predicate Renames(g: map<Uid, Uid>, server: map<Uid, string>, summary: map<Uid, string>) {
    && g.Keys == server.Keys && g.Values == summary.Keys
    && (forall a, b :: a in g && b in g && a != b ==> g[a] != g[b])
    && (forall uid <- g :: g[uid] in summary && summary[g[uid]] == server[uid])
  }

  /** The same messages, up to uids. */
  ghost predicate SameMessages(server: map<Uid, string>, summary: map<Uid, string>) {
    exists g :: Renames(g, server, summary)
  }

  /** Every server folder holds exactly the messages its offline summary showed. */
  ghost predicate Faithful(w: World, r: World)
    requires |r.server| == |w.folders|
  {
    forall f :: 0 <= f < |w.folders| ==> SameMessages(r.server[f], w.folders[f].summary)
  }

  /** No transfer comes after a move of the same original. */
  ghost predicate NoTransferAfterMove(jobs: seq<Job>) {
    forall i, j :: 0 <= i < j < |jobs| && jobs[j].entry.Transfer? ==>
      !Moves(jobs[i].entry, jobs[j].entry.source, jobs[j].entry.original)
  }

  /** No queued move names an original that its folder still shows. */
  ghost predicate MovesLeft(w: World, jobs: seq<Job>) {
    forall i :: 0 <= i < |jobs| && jobs[i].entry.Transfer? && jobs[i].entry.deleteOriginal
                && jobs[i].entry.source < |w.folders| ==>
      jobs[i].entry.original !in w.folders[jobs[i].entry.source].summary
  }

  // ---- counting ------------------------------------------------------------

  /** A one-to-one map has as many values as keys. */
  lemma InjectiveSize(g: map<Uid, Uid>)
    requires forall a, b :: a in g && b in g && a != b ==> g[a] != g[b]
    ensures |g.Values| == |g.Keys|
  {
    if g.Keys == {} {
      assert g.Values == {};
    } else {
      var k :| k in g.Keys;
      var h := Without(g, k);
      assert h.Keys == g.Keys - {k};
      forall v | v in g.Values && v != g[k]
        ensures v in h.Values
      {
        var x :| x in g && g[x] == v;
        assert h[x] == v;
      }
      assert h.Values == g.Values - {g[k]};
      assert g[k] in g.Values;
      InjectiveSize(h);
    }
  }

  lemma SameSizeSubset(a: set<Uid>, b: set<Uid>)
    requires a <= b && |a| == |b|
    ensures a == b
  {
    assert b == a + (b - a);
    assert |b| == |a| + |b - a|;
    assert b - a == {};
  }

  // ---- naming server messages by the summary -------------------------------

  /** What the summary calls a message of the server folder after the replay. */
  function Name(w: World, jobs: seq<Job>, uid: Uid): Uid {
    if uid.Server? && w.nextServer <= uid.id < w.nextServer + |jobs| then jobs[uid.id - w.nextServer].entry.uid
    else uid
  }

  ghost function Names(w: World, jobs: seq<Job>, server: map<Uid, string>): map<Uid, Uid> {
    map uid <- server :: Name(w, jobs, uid)
  }

  /** The facts of a finished replay for one folder. */
  ghost predicate Finished(w: World, jobs: seq<Job>, f: nat, server: map<Uid, string>)
    requires f < |w.folders| && |w.server| == |w.folders|
  {
    && ServerAfter(w, jobs, |jobs|, f, server)
    && LocalReady(w.server, w.folders[f], f)
    && (forall uid <- w.server[f] :: uid.Server? && uid.id < w.nextServer)
    && (forall uid <- w.server[f] :: uid !in w.folders[f].summary ==> Moved(jobs, |jobs|, f, uid))
    && (forall i :: 0 <= i < |jobs| && jobs[i].folder == f ==> jobs[i].entry.uid in w.folders[f].summary
                                                               && jobs[i].entry.uid.Offline?)
    && (forall i, j :: 0 <= i < j < |jobs| && jobs[i].folder == f && jobs[j].folder == f ==>
                         jobs[i].entry.uid != jobs[j].entry.uid)
  }

  lemma MovedLater(jobs: seq<Job>, i: nat, k: nat, f: nat, uid: Uid)
    requires i <= k <= |jobs| && Moved(jobs, i, f, uid)
    ensures Moved(jobs, k, f, uid)
  {
    hide Succeeds;
  }

  /** When nothing is refused, a move leaves its original moved, by itself or before it. */
  lemma AcceptedMoves(jobs: seq<Job>, i: nat, f: nat, uid: Uid)
    requires Accepted(jobs) && i < |jobs| && Moves(jobs[i].entry, f, uid)
    ensures Moved(jobs, |jobs|, f, uid)
  {
    hide Succeeds;
    SucceedsMeans(jobs, i);
    if !Succeeds(jobs, i) {
      MovedLater(jobs, i, |jobs|, f, uid);
    }
  }

  lemma GoneIsMoved(w: World, jobs: seq<Job>, f: nat, uid: Uid)
    requires Ready(w) && Schedule(w, jobs) && Accepted(jobs) && f < |w.folders|
    requires uid in w.server[f] && uid !in w.folders[f].summary
    ensures Moved(jobs, |jobs|, f, uid)
  {
    hide LocalReady, ServerReady;
    assert Moving(w.folders, f, uid);
    var g, e :| 0 <= g < |w.folders| && e in w.folders[g].queue && Moves(e, f, uid);
    assert Scheduled(jobs, g, e);
    var i :| 0 <= i < |jobs| && jobs[i].folder == g && jobs[i].entry == e;
    AcceptedMoves(jobs, i, f, uid);
  }

  lemma ServerUids(w: World, f: nat)
    requires Ready(w) && f < |w.folders|
    ensures |w.server| == |w.folders| && LocalReady(w.server, w.folders[f], f)
    ensures forall uid <- w.server[f] :: uid.Server? && uid.id < w.nextServer
  {
  }

  lemma ReplayFinished(w: World, jobs: seq<Job>, f: nat)
    requires Ready(w) && Schedule(w, jobs) && Accepted(jobs) && f < |w.folders|
    ensures |w.server| == |w.folders| && Finished(w, jobs, f, Replay(w, jobs).server[f])
  {
    hide Ready, Schedule, Moved, ServerAfter, LocalReady, CacheAfter;
    ServerUids(w, f);
    ReplayOutcome(w, jobs, |jobs|);
    assert jobs[..|jobs|] == jobs;
    forall uid | uid in w.server[f] && uid !in w.folders[f].summary
      ensures Moved(jobs, |jobs|, f, uid)
    {
      GoneIsMoved(w, jobs, f, uid);
    }
    forall i | 0 <= i < |jobs| && jobs[i].folder == f
      ensures jobs[i].entry.uid in w.folders[f].summary && jobs[i].entry.uid.Offline?
      ensures forall j :: 0 <= j < |jobs| && j != i && jobs[j].folder == f ==> jobs[i].entry.uid != jobs[j].entry.uid
    {
      JobReady(w, jobs, i);
    }
  }

  lemma NameInSummary(w: World, jobs: seq<Job>, f: nat, server: map<Uid, string>, uid: Uid)
    requires f < |w.folders| && |w.server| == |w.folders| && Finished(w, jobs, f, server) && uid in server
    ensures uid.Server?
    ensures Name(w, jobs, uid) in w.folders[f].summary && w.folders[f].summary[Name(w, jobs, uid)] == server[uid]
    ensures uid.id < w.nextServer ==> Name(w, jobs, uid) == uid
    ensures w.nextServer <= uid.id ==>
              && uid.id < w.nextServer + |jobs| && Arrived(jobs, uid.id - w.nextServer, f)
              && Name(w, jobs, uid) == jobs[uid.id - w.nextServer].entry.uid && Name(w, jobs, uid).Offline?
  {
    hide Moved, Succeeds;
    if uid.id < w.nextServer {
      assert UidReady(w.server, w.folders[f], f, uid);
    } else {
      assert uid == Posted(w, uid.id - w.nextServer);
    }
  }

  lemma NamesApart(w: World, jobs: seq<Job>, f: nat, server: map<Uid, string>, a: Uid, b: Uid)
    requires f < |w.folders| && |w.server| == |w.folders| && Finished(w, jobs, f, server)
    requires a in server && b in server && a != b
    ensures Name(w, jobs, a) != Name(w, jobs, b)
  {
    hide Moved, Succeeds, Name, ServerAfter, LocalReady;
    NameInSummary(w, jobs, f, server, a);
    NameInSummary(w, jobs, f, server, b);
  }

  /** Each message of the server folder has a name in the summary, and its own. */
  lemma NamesInSummary(w: World, jobs: seq<Job>, f: nat, server: map<Uid, string>)
    requires f < |w.folders| && |w.server| == |w.folders| && Finished(w, jobs, f, server)
    ensures var g := Names(w, jobs, server);
            && g.Keys == server.Keys && g.Values <= w.folders[f].summary.Keys
            && (forall a, b :: a in g && b in g && a != b ==> g[a] != g[b])
            && (forall uid <- g :: g[uid] in w.folders[f].summary && w.folders[f].summary[g[uid]] == server[uid])
  {
    hide Finished, Name;
    var g := Names(w, jobs, server);
    forall uid | uid in server
      ensures g[uid] in w.folders[f].summary && w.folders[f].summary[g[uid]] == server[uid]
    {
      NameInSummary(w, jobs, f, server, uid);
    }
    forall a, b | a in g && b in g && a != b
      ensures g[a] != g[b]
    {
      NamesApart(w, jobs, f, server, a, b);
    }
  }

  // ---- the theorem ---------------------------------------------------------

  /** Nothing the folder showed was moved away, and everything it was to get arrived. */
  ghost predicate NothingLost(w: World, jobs: seq<Job>, f: nat)
    requires f < |w.folders|
  {
    && (forall uid <- w.folders[f].summary :: uid.Server? ==> !Moved(jobs, |jobs|, f, uid))
    && (forall i :: 0 <= i < |jobs| && jobs[i].folder == f ==> Succeeds(jobs, i))
  }

  lemma CoveredLosesNothing(w: World, jobs: seq<Job>, f: nat, server: map<Uid, string>)
    requires f < |w.folders| && |w.server| == |w.folders| && Finished(w, jobs, f, server)
    requires Names(w, jobs, server).Values == w.folders[f].summary.Keys
    ensures NothingLost(w, jobs, f)
  {
    hide Moved, Succeeds, Finished, Name;
    var g := Names(w, jobs, server);
    forall uid | uid in w.folders[f].summary && uid.Server?
      ensures !Moved(jobs, |jobs|, f, uid)
    {
      assert uid in g.Values;
      var x :| x in g && g[x] == uid;
      NameOfServer(w, jobs, f, server, x);
    }
    forall i | 0 <= i < |jobs| && jobs[i].folder == f
      ensures Succeeds(jobs, i)
    {
      FinishedJob(w, jobs, f, server, i);
      assert jobs[i].entry.uid in g.Values;
      var x :| x in g && g[x] == jobs[i].entry.uid;
      NameOfServer(w, jobs, f, server, x);
    }
  }

  lemma FinishedJob(w: World, jobs: seq<Job>, f: nat, server: map<Uid, string>, i: nat)
    requires f < |w.folders| && |w.server| == |w.folders| && Finished(w, jobs, f, server)
    requires i < |jobs| && jobs[i].folder == f
    ensures jobs[i].entry.uid in w.folders[f].summary && jobs[i].entry.uid.Offline?
    ensures Succeeds(jobs, i) ==> Posted(w, i) in server && Name(w, jobs, Posted(w, i)) == jobs[i].entry.uid
  {
    hide Moved, Succeeds, LocalReady;
    assert Posted(w, i) in server <==> Arrived(jobs, i, f);
  }

  lemma ShownName(w: World, jobs: seq<Job>, f: nat, server: map<Uid, string>, uid: Uid)
    requires f < |w.folders| && |w.server| == |w.folders| && Finished(w, jobs, f, server)
    requires (forall e <- w.folders[f].queue :: Scheduled(jobs, f, e)) && NothingLost(w, jobs, f)
    requires uid in w.folders[f].summary
    ensures exists x :: x in server && Name(w, jobs, x) == uid
  {
    hide Moved, Succeeds, ServerAfter;
    assert UidReady(w.server, w.folders[f], f, uid);
    if uid.Server? {
      assert uid in server && Name(w, jobs, uid) == uid by { StillThere(w, jobs, f, server, uid); }
    } else {
      var e :| e in w.folders[f].queue && e.uid == uid;
      assert Scheduled(jobs, f, e);
      var i :| 0 <= i < |jobs| && jobs[i].folder == f && jobs[i].entry == e;
      FinishedJob(w, jobs, f, server, i);
      assert Posted(w, i) in server;
    }
  }

  lemma StillThere(w: World, jobs: seq<Job>, f: nat, server: map<Uid, string>, uid: Uid)
    requires f < |w.folders| && |w.server| == |w.folders| && Finished(w, jobs, f, server)
    requires uid in w.server[f] && !Moved(jobs, |jobs|, f, uid)
    ensures uid in server && Name(w, jobs, uid) == uid
  {
    hide Moved, Succeeds, LocalReady;
  }

  /** The folder's names cover its summary exactly when nothing was lost on the way. */
  lemma NamesCoverIff(w: World, jobs: seq<Job>, f: nat, server: map<Uid, string>)
    requires f < |w.folders| && |w.server| == |w.folders| && Finished(w, jobs, f, server)
    requires forall e <- w.folders[f].queue :: Scheduled(jobs, f, e)
    ensures Names(w, jobs, server).Values == w.folders[f].summary.Keys <==> NothingLost(w, jobs, f)
  {
    hide Finished, Name, NothingLost;
    NamesInSummary(w, jobs, f, server);
    var g := Names(w, jobs, server);
    if g.Values == w.folders[f].summary.Keys { CoveredLosesNothing(w, jobs, f, server); }
    if NothingLost(w, jobs, f) {
      forall uid | uid in w.folders[f].summary
        ensures uid in g.Values
      {
        ShownName(w, jobs, f, server, uid);
        var x :| x in server && Name(w, jobs, x) == uid;
        assert g[x] == uid;
      }
    }
  }

  /** A name that is on the server is its own; a temporary one comes from a job that arrived. */
  lemma NameOfServer(w: World, jobs: seq<Job>, f: nat, server: map<Uid, string>, x: Uid)
    requires f < |w.folders| && |w.server| == |w.folders| && Finished(w, jobs, f, server) && x in server
    ensures Name(w, jobs, x).Server? ==> x == Name(w, jobs, x) && x.id < w.nextServer && !Moved(jobs, |jobs|, f, x)
    ensures Name(w, jobs, x).Offline? ==>
              forall i :: 0 <= i < |jobs| && jobs[i].folder == f && jobs[i].entry.uid == Name(w, jobs, x) ==>
                            Succeeds(jobs, i)
  {
    hide Moved, Succeeds;
    if x.id >= w.nextServer {
      var i := x.id - w.nextServer;
      assert x == Posted(w, i);
      assert Arrived(jobs, i, f);
    }
  }

  lemma RenamesSize(g: map<Uid, Uid>, server: map<Uid, string>, summary: map<Uid, string>)
    requires Renames(g, server, summary)
    ensures |server.Keys| == |summary.Keys|
  {
    InjectiveSize(g);
  }

  lemma NamesRename(w: World, jobs: seq<Job>, f: nat, server: map<Uid, string>)
    requires f < |w.folders| && |w.server| == |w.folders| && Finished(w, jobs, f, server)
    ensures Names(w, jobs, server).Values <= w.folders[f].summary.Keys
    ensures |Names(w, jobs, server).Values| == |server.Keys|
    ensures Names(w, jobs, server).Values == w.folders[f].summary.Keys ==>
              Renames(Names(w, jobs, server), server, w.folders[f].summary)
  {
    hide Finished;
    NamesInSummary(w, jobs, f, server);
    InjectiveSize(Names(w, jobs, server));
  }

  /** Having the same messages is having as many: the names are then onto. */
  lemma SameIffCovered(w: World, jobs: seq<Job>, f: nat, server: map<Uid, string>)
    requires f < |w.folders| && |w.server| == |w.folders| && Finished(w, jobs, f, server)
    ensures SameMessages(server, w.folders[f].summary) <==>
            Names(w, jobs, server).Values == w.folders[f].summary.Keys
  {
    hide Finished, Names, Renames;
    NamesRename(w, jobs, f, server);
    var summary := w.folders[f].summary;
    if SameMessages(server, summary) {
      var h :| Renames(h, server, summary);
      RenamesSize(h, server, summary);
      SameSizeSubset(Names(w, jobs, server).Values, summary.Keys);
    }
  }

  lemma MovedMeans(jobs: seq<Job>, k: nat, f: nat, uid: Uid)
    requires k <= |jobs|
    ensures Moved(jobs, k, f, uid) <==> exists i :: 0 <= i < k && Succeeds(jobs, i) && Moves(jobs[i].entry, f, uid)
  {
    hide Succeeds;
  }

  lemma AllSucceedIff(jobs: seq<Job>)
    ensures Accepted(jobs) && NoTransferAfterMove(jobs) <==> forall i :: 0 <= i < |jobs| ==> Succeeds(jobs, i)
  {
    hide Succeeds, Moved;
    forall j | 0 <= j < |jobs|
      ensures Succeeds(jobs, j) ==> jobs[j].accepted
      ensures jobs[j].entry.Transfer? && Succeeds(jobs, j) ==>
                forall i :: 0 <= i < j && Succeeds(jobs, i) ==>
                              !Moves(jobs[i].entry, jobs[j].entry.source, jobs[j].entry.original)
      ensures Accepted(jobs) && NoTransferAfterMove(jobs) ==> Succeeds(jobs, j)
    {
      SucceedsMeans(jobs, j);
      if jobs[j].entry.Transfer? { MovedMeans(jobs, j, jobs[j].entry.source, jobs[j].entry.original); }
    }
  }

  lemma MovesLeftIff(w: World, jobs: seq<Job>)
    requires Ready(w) && Schedule(w, jobs) && Accepted(jobs)
    ensures MovesLeft(w, jobs) <==>
            forall f, uid :: 0 <= f < |w.folders| && uid in w.folders[f].summary && uid.Server? ==>
                               !Moved(jobs, |jobs|, f, uid)
  {
    hide Ready, Schedule;
    forall i | 0 <= i < |jobs| && jobs[i].entry.Transfer?
      ensures jobs[i].entry.source < |w.folders| && jobs[i].entry.original.Server?
    {
      OriginalKnown(w, jobs, i);
      ReadySizes(w);
    }
    if forall f, uid :: 0 <= f < |w.folders| && uid in w.folders[f].summary && uid.Server? ==>
                          !Moved(jobs, |jobs|, f, uid)
    {
      forall i | 0 <= i < |jobs| && jobs[i].entry.Transfer? && jobs[i].entry.deleteOriginal
        ensures jobs[i].entry.original !in w.folders[jobs[i].entry.source].summary
      {
        AcceptedMoves(jobs, i, jobs[i].entry.source, jobs[i].entry.original);
      }
    }
  }

  lemma ReadySizes(w: World)
    requires Ready(w)
    ensures |w.server| == |w.folders|
  {
  }

  /**
   Replay equivalence, exactly.  From any offline state reached by appends, copies and
   moves, and for any order of replaying the queued entries on a server that refuses
   none: the server folders end up with exactly the messages the summaries showed if and
   only if no transfer is replayed after a move of the same original and no queued move
   names an original still shown.
   */
  lemma ReplayFaithfulIff(w: World, jobs: seq<Job>)
    requires Ready(w) && Schedule(w, jobs) && Accepted(jobs)
    ensures |w.server| == |w.folders|
    ensures Faithful(w, Replay(w, jobs)) <==> NoTransferAfterMove(jobs) && MovesLeft(w, jobs)
  {
    hide Succeeds, Moved, Finished, SameMessages, Names, LocalReady, Covered, ServerReady, NoTransferAfterMove,
         MovesLeft;
    ReadySizes(w);
    var r := Replay(w, jobs);
    AllSucceedIff(jobs);
    MovesLeftIff(w, jobs);
    forall f | 0 <= f < |w.folders|
      ensures SameMessages(r.server[f], w.folders[f].summary) <==> NothingLost(w, jobs, f)
    {
      ReplayFinished(w, jobs, f);
      SameIffCovered(w, jobs, f, r.server[f]);
      NamesCoverIff(w, jobs, f, r.server[f]);
    }
    assert forall i :: 0 <= i < |jobs| ==> Queued(w, jobs[i]);
    assert forall i :: 0 <= i < |jobs| ==> 0 <= jobs[i].folder < |w.folders|;
  }
}
