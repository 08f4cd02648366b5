/**
 Replaying the journals, job by job: what each server folder and each cache holds once the
 first jobs of any order of replay have been played.
 */
module JournalReplay {
  import opened JournalState
  import opened JournalReady

  /** An order of replay: every queued entry once, in any order and with any answers. */
  ghost predicate Schedule(w: World, jobs: seq<Job>) {
    && (forall i, j :: 0 <= i < j < |jobs| ==> jobs[i].folder != jobs[j].folder || jobs[i].entry != jobs[j].entry)
    && (forall i :: 0 <= i < |jobs| ==> Queued(w, jobs[i]))
    && (forall f, e :: 0 <= f < |w.folders| && e in w.folders[f].queue ==> Scheduled(jobs, f, e))
  }

  ghost predicate Scheduled(jobs: seq<Job>, f: nat, e: Entry) {
    exists i :: 0 <= i < |jobs| && jobs[i].folder == f && jobs[i].entry == e
  }

  /** The server accepts everything it is asked for. */
  ghost predicate Accepted(jobs: seq<Job>) {
    forall i :: 0 <= i < |jobs| ==> jobs[i].accepted
  }

  ghost predicate Queued(w: World, j: Job) {
    j.folder < |w.folders| && j.entry in w.folders[j.folder].queue
  }

  // ---- what a replay does, job by job --------------------------------------

  /** The server accepts, and no job before has moved the original away. */
  predicate Works(jobs: seq<Job>, k: nat)
    requires k < |jobs|
  {
    var e := jobs[k].entry;
    jobs[k].accepted
    && (e.Transfer? ==> forall i :: 0 <= i < k && Works(jobs, i) ==> !Moves(jobs[i].entry, e.source, e.original))
  }

  /** The job is played when its turn comes. */
  predicate Succeeds(jobs: seq<Job>, k: nat)
    requires k < |jobs|
  {
    Works(jobs, k)
  }

  /** One of the first `k` jobs moved the message away from there. */
  predicate Moved(jobs: seq<Job>, k: nat, source: nat, original: Uid)
    requires k <= |jobs|
  {
    exists i :: 0 <= i < k && Succeeds(jobs, i) && Moves(jobs[i].entry, source, original)
  }

  lemma SucceedsMeans(jobs: seq<Job>, k: nat)
    requires k < |jobs|
    ensures var e := jobs[k].entry;
            Succeeds(jobs, k) <==> jobs[k].accepted && (e.Transfer? ==> !Moved(jobs, k, e.source, e.original))
  {
    assert forall i :: 0 <= i < k ==> Succeeds(jobs, i) == Works(jobs, i);
  }

  /** The uid the server gives to what the `i`-th job puts there. */
  function Posted(w: World, i: nat): Uid {
    Server(w.nextServer + i)
  }

  /** The `i`-th job put its message into the folder. */
  predicate Arrived(jobs: seq<Job>, i: nat, f: nat)
    requires i < |jobs|
  {
    jobs[i].folder == f && Succeeds(jobs, i)
  }

  /** The server folder after the first `k` jobs, uid by uid. */
  ghost predicate ServerAfter(w: World, jobs: seq<Job>, k: nat, f: nat, now: map<Uid, string>)
    requires k <= |jobs| && f < |w.folders| && |w.server| == |w.folders|
  {
    && (forall uid :: uid in now ==> uid.Server?)
    && (forall uid: Uid :: uid.Server? && uid.id < w.nextServer ==>
          (uid in now <==> uid in w.server[f] && !Moved(jobs, k, f, uid)))
    && (forall uid: Uid :: uid.Server? && uid.id < w.nextServer && uid in now ==> now[uid] == w.server[f][uid])
    && (forall i :: 0 <= i < k ==> (Posted(w, i) in now <==> Arrived(jobs, i, f)))
    && (forall i :: 0 <= i < k && Posted(w, i) in now && jobs[i].entry.uid in w.folders[f].summary ==>
          now[Posted(w, i)] == w.folders[f].summary[jobs[i].entry.uid])
    && (forall uid: Uid :: uid.Server? && uid.id >= w.nextServer + k ==> uid !in now)
  }

  /** The cache still holds the messages of the jobs to come. */
  ghost predicate CacheAfter(w: World, jobs: seq<Job>, k: nat, f: nat, now: map<Uid, string>)
    requires k <= |jobs| && f < |w.folders|
  {
    forall j :: k <= j < |jobs| && jobs[j].folder == f ==>
      var temp := jobs[j].entry.uid;
      temp in now && temp in w.folders[f].summary && now[temp] == w.folders[f].summary[temp]
  }

  ghost predicate After(w: World, jobs: seq<Job>, k: nat, r: World)
    requires k <= |jobs| && |w.server| == |w.folders|
  {
    && |r.folders| == |w.folders| && |r.server| == |w.folders|
    && r.nextServer == w.nextServer + k
    && (forall f :: 0 <= f < |w.folders| ==> ServerAfter(w, jobs, k, f, r.server[f]))
    && (forall f :: 0 <= f < |w.folders| ==> CacheAfter(w, jobs, k, f, r.folders[f].cache))
  }

  /** What is known of a scheduled job. */
  lemma JobReady(w: World, jobs: seq<Job>, k: nat)
    requires Ready(w) && Schedule(w, jobs) && k < |jobs|
    ensures jobs[k].folder < |w.folders|
    ensures EntryReady(w.server, w.folders[jobs[k].folder], jobs[k].entry)
    ensures forall j :: 0 <= j < |jobs| && j != k && jobs[j].folder == jobs[k].folder ==>
                          jobs[j].entry.uid != jobs[k].entry.uid
  {
    assert Queued(w, jobs[k]);
    var l := w.folders[jobs[k].folder];
    assert LocalReady(w.server, l, jobs[k].folder);
    forall j | 0 <= j < |jobs| && j != k && jobs[j].folder == jobs[k].folder
      ensures jobs[j].entry.uid != jobs[k].entry.uid
    {
      assert Queued(w, jobs[j]);
      if jobs[j].entry.uid == jobs[k].entry.uid { SameUidSameEntry(l.queue, jobs[j].entry, jobs[k].entry); }
    }
  }

  lemma MovedStep(jobs: seq<Job>, k: nat, source: nat, original: Uid)
    requires k < |jobs|
    ensures Moved(jobs, k + 1, source, original) <==>
            Moved(jobs, k, source, original) || (Succeeds(jobs, k) && Moves(jobs[k].entry, source, original))
  {
    hide Succeeds;
  }

  /** The server folder after one more job. */
  lemma ServerStep(w: World, jobs: seq<Job>, k: nat, f: nat, now: map<Uid, string>, next: map<Uid, string>)
    requires k < |jobs| && f < |w.folders| && |w.server| == |w.folders|
    requires ServerAfter(w, jobs, k, f, now)
    requires forall uid: Uid :: uid != Posted(w, k) ==>
               (uid in next <==> uid in now && !(Succeeds(jobs, k) && Moves(jobs[k].entry, f, uid)))
    requires forall uid: Uid :: uid != Posted(w, k) && uid in next && uid in now ==> next[uid] == now[uid]
    requires Posted(w, k) in next <==> Arrived(jobs, k, f)
    requires Posted(w, k) in next && jobs[k].entry.uid in w.folders[f].summary ==>
               next[Posted(w, k)] == w.folders[f].summary[jobs[k].entry.uid]
    requires jobs[k].entry.Transfer? ==> jobs[k].entry.original.Server? && jobs[k].entry.original.id < w.nextServer
    ensures ServerAfter(w, jobs, k + 1, f, next)
  {
    hide Succeeds, Arrived, Moved;
    forall uid: Uid
      ensures Moved(jobs, k + 1, f, uid) <==>
              Moved(jobs, k, f, uid) || (Succeeds(jobs, k) && Moves(jobs[k].entry, f, uid))
    {
      MovedStep(jobs, k, f, uid);
    }
    forall i | 0 <= i < k
      ensures Posted(w, i) in next <==> Posted(w, i) in now
    {
      assert Posted(w, i) != Posted(w, k);
    }
  }

  /** The state after one more job. */
  lemma AfterStep(w: World, jobs: seq<Job>, k: nat, r: World)
    requires Ready(w) && Schedule(w, jobs) && k < |jobs| && After(w, jobs, k, r)
    ensures After(w, jobs, k + 1, Play(r, jobs[k]))
  {
    hide Succeeds, Schedule, ServerReady, LocalReady, Covered, Unlink, Arrived;
    var j := jobs[k];
    JobReady(w, jobs, k);
    OriginalKnown(w, jobs, k);
    assert CacheAfter(w, jobs, k, j.folder, r.folders[j.folder].cache);
    var r' := Play(r, j);
    forall f | 0 <= f < |w.folders|
      ensures ServerAfter(w, jobs, k + 1, f, r'.server[f])
      ensures CacheAfter(w, jobs, k + 1, f, r'.folders[f].cache)
    {
      hide ServerAfter, Play;
      assert ServerAfter(w, jobs, k, f, r.server[f]) && CacheAfter(w, jobs, k, f, r.folders[f].cache);
      PlayServer(w, jobs, k, r, f);
      ServerStep(w, jobs, k, f, r.server[f], r'.server[f]);
      forall uid: Uid | uid.Offline? && uid in r.folders[f].cache && !(f == j.folder && uid == j.entry.uid)
        ensures uid in r'.folders[f].cache && r'.folders[f].cache[uid] == r.folders[f].cache[uid]
      {
        PlayCache(r, j, f, uid);
      }
      CacheStep(w, jobs, k, f, r.folders[f].cache, r'.folders[f].cache);
    }
  }

  lemma OriginalKnown(w: World, jobs: seq<Job>, k: nat)
    requires Ready(w) && Schedule(w, jobs) && k < |jobs|
    ensures jobs[k].entry.Transfer? ==>
              var e := jobs[k].entry;
              && e.source < |w.server| && e.original in w.server[e.source]
              && e.original.Server? && e.original.id < w.nextServer
  {
    JobReady(w, jobs, k);
  }

  lemma CacheStep(w: World, jobs: seq<Job>, k: nat, f: nat, now: map<Uid, string>, next: map<Uid, string>)
    requires k < |jobs| && f < |w.folders| && CacheAfter(w, jobs, k, f, now)
    requires Ready(w) && Schedule(w, jobs)
    requires forall uid: Uid :: uid.Offline? && uid in now && !(f == jobs[k].folder && uid == jobs[k].entry.uid) ==>
               uid in next && next[uid] == now[uid]
    ensures CacheAfter(w, jobs, k + 1, f, next)
  {
    forall j | k + 1 <= j < |jobs| && jobs[j].folder == f
      ensures var temp := jobs[j].entry.uid;
              temp in next && temp in w.folders[f].summary && next[temp] == w.folders[f].summary[temp]
    {
      JobReady(w, jobs, j);
    }
  }

  /** A server folder after a job. */
  lemma PlayServer(w: World, jobs: seq<Job>, k: nat, r: World, f: nat)
    requires |w.server| == |w.folders| && Ready(w) && Schedule(w, jobs) && k < |jobs| && After(w, jobs, k, r)
    requires f < |w.folders|
    ensures var r' := Play(r, jobs[k]);
            && (forall uid: Uid :: uid != Posted(w, k) ==>
                  (uid in r'.server[f] <==>
                     uid in r.server[f] && !(Succeeds(jobs, k) && Moves(jobs[k].entry, f, uid))))
            && (forall uid: Uid :: uid != Posted(w, k) && uid in r'.server[f] && uid in r.server[f] ==>
                  r'.server[f][uid] == r.server[f][uid])
            && (Posted(w, k) in r'.server[f] <==> Arrived(jobs, k, f))
            && (Posted(w, k) in r'.server[f] && jobs[k].entry.uid in w.folders[f].summary ==>
                  r'.server[f][Posted(w, k)] == w.folders[f].summary[jobs[k].entry.uid])
  {
    hide Schedule, ServerReady, LocalReady, Covered, Unlink, Moved, Succeeds, Ready, Settled, Played, RemoveMessage;
    var e := jobs[k].entry;
    JobReady(w, jobs, k);
    OriginalKnown(w, jobs, k);
    NotYetPosted(w, jobs, k, r);
    SucceedsMeans(jobs, k);
    assert CacheAfter(w, jobs, k, jobs[k].folder, r.folders[jobs[k].folder].cache);
    if e.Transfer? {
      assert ServerAfter(w, jobs, k, e.source, r.server[e.source]);
      assert jobs[k].accepted && e.original in r.server[e.source] <==> Succeeds(jobs, k);
    }
  }

  /** A cache after a job still holds the messages other jobs will need. */
  lemma PlayCache(r: World, j: Job, f: nat, uid: Uid)
    requires |r.server| == |r.folders| && f < |r.folders|
    requires uid.Offline? && uid in r.folders[f].cache && !(f == j.folder && uid == j.entry.uid)
    requires j.entry.Transfer? ==> j.entry.original.Server?
    ensures var now := Play(r, j).folders[f].cache;
            uid in now && now[uid] == r.folders[f].cache[uid]
  {
  }

  lemma NotYetPosted(w: World, jobs: seq<Job>, k: nat, r: World)
    requires k < |jobs| && |w.server| == |w.folders| && After(w, jobs, k, r)
    ensures forall f :: 0 <= f < |w.folders| ==> Posted(w, k) !in r.server[f]
  {
    forall f | 0 <= f < |w.folders|
      ensures Posted(w, k) !in r.server[f]
    {
      assert ServerAfter(w, jobs, k, f, r.server[f]);
    }
  }

  lemma {:induction false} ReplayOutcome(w: World, jobs: seq<Job>, k: nat)
    requires Ready(w) && Schedule(w, jobs) && k <= |jobs|
    ensures After(w, jobs, k, Replay(w, jobs[..k]))
  {
    if k == 0 {
      ReplayStart(w, jobs);
    } else {
      hide Ready, Schedule, After, Play;
      ReplayOutcome(w, jobs, k - 1);
      assert jobs[..k][..k - 1] == jobs[..k - 1];
      AfterStep(w, jobs, k - 1, Replay(w, jobs[..k - 1]));
    }
  }

  lemma ReplayStart(w: World, jobs: seq<Job>)
    requires Ready(w) && Schedule(w, jobs)
    ensures After(w, jobs, 0, Replay(w, jobs[..0]))
  {
    hide Schedule, LocalReady, Covered, Arrived;
    forall f | 0 <= f < |w.folders|
      ensures CacheAfter(w, jobs, 0, f, w.folders[f].cache)
      ensures ServerAfter(w, jobs, 0, f, w.server[f])
    {
      NoneMoved(jobs, f);
      CacheStart(w, jobs, f);
    }
  }

  lemma NoneMoved(jobs: seq<Job>, f: nat)
    ensures forall uid :: !Moved(jobs, 0, f, uid)
  {
  }

  lemma CacheStart(w: World, jobs: seq<Job>, f: nat)
    requires Ready(w) && Schedule(w, jobs) && f < |w.folders|
    ensures CacheAfter(w, jobs, 0, f, w.folders[f].cache)
  {
    hide Schedule, Ready;
    forall j | 0 <= j < |jobs| && jobs[j].folder == f
      ensures var temp := jobs[j].entry.uid;
              && temp in w.folders[f].cache && temp in w.folders[f].summary
              && w.folders[f].cache[temp] == w.folders[f].summary[temp]
    {
      JobReady(w, jobs, j);
    }
  }
}
