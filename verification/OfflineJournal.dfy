/**
 The folders and journals as the objects the program keeps, updated in place.  Every
 method is proved to do to the abstract state what JournalState says.
 */
module OfflineJournal {
  import opened Basics
  import opened MessageFlags
  import opened JournalState

  class OfflineFolder {
    var summary: map<Uid, string>
    var cache: map<Uid, string>
    var queue: seq<Entry>
    var nextUid: nat

    constructor (summary: map<Uid, string>, cache: map<Uid, string>, nextUid: nat)
      ensures State() == Local(summary, cache, [], nextUid)
    {
      this.summary, this.cache, this.queue, this.nextUid := summary, cache, [], nextUid;
    }

    ghost function State(): Local
      reads this
    {
      Local(summary, cache, queue, nextUid)
    }

    method UpdateCache(content: string) returns (temp: Uid)
      modifies `summary, `cache, `nextUid
      ensures temp == NewUid(old(State()))
      ensures State() == JournalState.UpdateCache(old(State()), content)
    {
      temp := Offline(nextUid);
      nextUid := nextUid + 1;
      cache := cache[temp := content];
      summary := summary[temp := content];
    }

    method RemoveMessage(uid: Uid)
      modifies `summary, `cache
      ensures State() == JournalState.RemoveMessage(old(State()), uid)
    {
      if uid !in summary {
        return;
      }
      summary := Without(summary, uid);
      cache := Without(cache, uid);
    }

    method PushTail(e: Entry)
      modifies `queue
      ensures State() == Push(old(State()), e)
    {
      queue := queue + [e];
    }

    method AddInfo(uid: Uid, content: string)
      modifies `summary
      ensures State() == old(State()).(summary := old(summary)[uid := content])
    {
      summary := summary[uid := content];
    }

    /** Takes a played entry off the queue. */
    method DropEntry(e: Entry)
      modifies `queue
      ensures State() == Played(old(State()), e)
    {
      hide Unlink;
      ghost var q := queue;
      var i := 0;
      while i < |queue| && queue[i] != e
        invariant 0 <= i <= |q| && queue == q
        invariant Unlink(q, e) == q[..i] + Unlink(q[i..], e)
      {
        UnlinkHead(q, i, e);
        i := i + 1;
      }
      UnlinkHead(q, i, e);
      if i < |queue| {
        queue := queue[..i] + queue[i + 1..];
      }
    }

    method Append(content: string)
      modifies this
      ensures State() == JournalAppend(old(State()), content)
    {
      var temp := UpdateCache(content);
      PushTail(Entry.Append(temp));
    }

    method Delete(uid: Uid, flags: Word, set': Word)
      modifies this
      ensures State() == JournalDelete(old(State()), uid, flags, set')
    {
      if DELETED in flags * set' {
        RemoveMessage(uid);
      }
      PushTail(Entry.Delete(uid, flags, set'));
    }

    /** One pass over the queue: the last entry that put the message there, and the links to drop. */
    method ScanQueue(uid: Uid, deleteOriginal: bool) returns (s: Source, trash: seq<nat>)
      ensures s == RealSource(queue, uid)
      ensures forall k :: 0 <= k < |trash| ==> trash[k] < |queue|
      ensures Links(queue, |queue|, uid, deleteOriginal, trash)
    {
      hide RealSource, Links;
      NoLinks(queue, uid, deleteOriginal);
      s, trash := Nowhere, [];
      NoSource(uid);
      var i := 0;
      while i < |queue|
        invariant 0 <= i <= |queue|
        invariant s == RealSource(queue[..i], uid)
        invariant forall k :: 0 <= k < |trash| ==> trash[k] < i
        invariant Links(queue, i, uid, deleteOriginal, trash)
      {
        var e := queue[i];
        NextSource(queue, i, uid);
        NextLink(queue, i, uid, deleteOriginal, trash);
        if e.uid == uid {
          if e.Transfer? {
            s := FromServer(e.source, e.original);
          } else if e.Append? {
            s := FromAppend;
          }
          if deleteOriginal {
            trash := trash + [i];
          }
        }
        i := i + 1;
      }
      assert queue[..|queue|] == queue;
    }

    /** Deletes the links of the message's entries from the queue, first to last. */
    method DropLinks(uid: Uid, trash: seq<nat>)
      requires Links(queue, |queue|, uid, true, trash)
      modifies `queue
      ensures queue == Trash(old(queue), uid)
    {
      hide Trash, Links, Dropped;
      ghost var q := queue;
      NothingDropped(q, uid, trash);
      var k := 0;
      while k < |trash|
        invariant 0 <= k <= |trash| && Dropped(q, uid, trash, k, queue)
      {
        DropNext(q, uid, trash, k, queue);
        var at := trash[k] - k;
        queue := queue[..at] + queue[at + 1..];
        k := k + 1;
      }
      AllDropped(q, uid, trash, queue);
    }

    /** Where the message really comes from; a message that moves on leaves the queue. */
    method FindRealSource(here: nat, uid: Uid, deleteOriginal: bool) returns (s: Source)
      modifies `queue
      ensures s == FindSource(old(State()), here, uid)
      ensures State() == old(State()).(queue := if uid.Offline? && deleteOriginal
                                                then Trash(old(queue), uid) else old(queue))
    {
      hide Links, Trash, RealSource;
      if uid.Server? {
        return FromServer(here, uid);
      }
      var trash;
      s, trash := ScanQueue(uid, deleteOriginal);
      if deleteOriginal {
        DropLinks(uid, trash);
      }
    }
  }

  lemma NoSource(uid: Uid)
    ensures RealSource([], uid) == Nowhere
  {
  }

  lemma NoLinks(queue: seq<Entry>, uid: Uid, drop: bool)
    ensures Links(queue, 0, uid, drop, [])
  {
  }

  lemma NextSource(queue: seq<Entry>, i: nat, uid: Uid)
    requires i < |queue|
    ensures RealSource(queue[..i + 1], uid) ==
            if queue[i].uid == uid && queue[i].Transfer? then FromServer(queue[i].source, queue[i].original)
            else if queue[i].uid == uid && queue[i].Append? then FromAppend
            else RealSource(queue[..i], uid)
  {
    assert queue[..i + 1][..i] == queue[..i];
  }

  lemma NextLink(queue: seq<Entry>, i: nat, uid: Uid, drop: bool, trash: seq<nat>)
    requires i < |queue| && Links(queue, i, uid, drop, trash)
    ensures Links(queue, i + 1, uid, drop, if drop && queue[i].uid == uid then trash + [i] else trash)
  {
    if drop && queue[i].uid == uid {
      var more := trash + [i];
      forall k | 0 <= k < |more|
        ensures more[k] < i + 1 && queue[more[k]].uid == uid && forall j :: 0 <= j < k ==> more[j] < more[k]
      {
      }
      assert forall t :: t in trash || t == i ==> t in more;
    }
  }

  lemma UnlinkHead(q: seq<Entry>, i: nat, e: Entry)
    requires i <= |q|
    ensures i < |q| && q[i] == e ==> q[..i] + Unlink(q[i..], e) == q[..i] + q[i + 1..]
    ensures i < |q| && q[i] != e ==> q[..i] + Unlink(q[i..], e) == q[..i + 1] + Unlink(q[i + 1..], e)
    ensures i == |q| ==> q[..i] + Unlink(q[i..], e) == q
  {
    if i < |q| {
      assert q[i..][1..] == q[i + 1..];
      assert q[..i + 1] == q[..i] + [q[i]];
    }
  }

  /** The positions of the message's entries among the first `n`, in order; none when nothing is to be dropped. */
  ghost predicate Links(queue: seq<Entry>, n: nat, uid: Uid, drop: bool, trash: seq<nat>)
    requires n <= |queue|
  {
    && (forall j, k :: 0 <= j < k < |trash| ==> trash[j] < trash[k])
    && (forall k :: 0 <= k < |trash| ==> trash[k] < n && queue[trash[k]].uid == uid)
    && (if drop then forall i :: 0 <= i < n && queue[i].uid == uid ==> i in trash else trash == [])
  }

  /** Entries of other messages stay. */
  lemma {:induction false} TrashTo(queue: seq<Entry>, uid: Uid, i: nat, j: nat)
    requires i <= j <= |queue| && forall k :: i <= k < j ==> queue[k].uid != uid
    ensures Trash(queue[..j], uid) == Trash(queue[..i], uid) + queue[i..j]
  {
    if i < j {
      TrashTo(queue, uid, i, j - 1);
      assert queue[..j][..j - 1] == queue[..j - 1];
      assert queue[i..j] == queue[i..j - 1] + [queue[j - 1]];
    }
  }

  lemma TrashOver(queue: seq<Entry>, uid: Uid, i: nat)
    requires i < |queue| && queue[i].uid == uid
    ensures Trash(queue[..i + 1], uid) == Trash(queue[..i], uid)
  {
    assert queue[..i + 1][..i] == queue[..i];
  }

  /** The queue once the first `k` links are gone. */
  ghost predicate Dropped(q: seq<Entry>, uid: Uid, trash: seq<nat>, k: nat, queue: seq<Entry>)
    requires k <= |trash|
  {
    var done := if k == 0 then 0 else trash[k - 1] + 1;
    && k <= done <= |q|
    && queue == Trash(q[..done], uid) + q[done..] && |Trash(q[..done], uid)| == done - k
  }

  lemma NothingDropped(q: seq<Entry>, uid: Uid, trash: seq<nat>)
    ensures Dropped(q, uid, trash, 0, q)
  {
  }

  lemma DropNext(q: seq<Entry>, uid: Uid, trash: seq<nat>, k: nat, queue: seq<Entry>)
    requires Links(q, |q|, uid, true, trash) && k < |trash| && Dropped(q, uid, trash, k, queue)
    ensures k <= trash[k] < k + |queue|
    ensures Dropped(q, uid, trash, k + 1, queue[..trash[k] - k] + queue[trash[k] - k + 1..])
  {
    hide Trash, Links;
    LinkGap(q, uid, trash, k);
    DropStep(q, uid, if k == 0 then 0 else trash[k - 1] + 1, trash[k], k, queue);
  }

  lemma AllDropped(q: seq<Entry>, uid: Uid, trash: seq<nat>, queue: seq<Entry>)
    requires Links(q, |q|, uid, true, trash) && Dropped(q, uid, trash, |trash|, queue)
    ensures queue == Trash(q, uid)
  {
    hide Trash, Links;
    LinkGap(q, uid, trash, |trash|);
    var done := if trash == [] then 0 else trash[|trash| - 1] + 1;
    TrashTo(q, uid, done, |q|);
    assert q[..|q|] == q && q[done..|q|] == q[done..];
  }

  /** Between two links to drop there is no entry of the message. */
  lemma LinkGap(queue: seq<Entry>, uid: Uid, trash: seq<nat>, k: nat)
    requires Links(queue, |queue|, uid, true, trash) && k <= |trash|
    ensures var done := if k == 0 then 0 else trash[k - 1] + 1;
            var next := if k == |trash| then |queue| else trash[k];
            && done <= next <= |queue| && (k < |trash| ==> next < |queue| && queue[next].uid == uid)
            && forall i :: done <= i < next ==> queue[i].uid != uid
  {
    var done := if k == 0 then 0 else trash[k - 1] + 1;
    var next := if k == |trash| then |queue| else trash[k];
    forall i: nat | done <= i < next
      ensures i !in trash
    {
      assert forall j :: 0 <= j < k ==> trash[j] < done;
      assert forall j :: k <= j < |trash| ==> next <= trash[j];
    }
  }

  /** Deleting one more link. */
  lemma DropStep(q: seq<Entry>, uid: Uid, done: nat, t: nat, k: nat, queue: seq<Entry>)
    requires k <= done <= t < |q| && q[t].uid == uid && forall i :: done <= i < t ==> q[i].uid != uid
    requires queue == Trash(q[..done], uid) + q[done..] && |Trash(q[..done], uid)| == done - k
    ensures t - k < |queue|
    ensures queue[..t - k] + queue[t - k + 1..] == Trash(q[..t + 1], uid) + q[t + 1..]
    ensures |Trash(q[..t + 1], uid)| == t - k
  {
    hide Trash;
    TrashTo(q, uid, done, t);
    TrashOver(q, uid, t);
    var front := Trash(q[..t], uid);
    assert q[done..] == q[done..t] + [q[t]] + q[t + 1..];
    assert queue == front + [q[t]] + q[t + 1..];
    assert |front| == t - k;
  }

  ghost function States(folders: seq<OfflineFolder>): (r: seq<Local>)
    reads folders
    ensures |r| == |folders|
    ensures forall i :: 0 <= i < |folders| ==> r[i] == folders[i].State()
  {
    if folders == [] then [] else [folders[0].State()] + States(folders[1..])
  }

  /** Changing one folder changes one state. */
  lemma OneChanged(folders: seq<OfflineFolder>, k: nat, before: seq<Local>)
    requires k < |folders| && |before| == |folders|
    requires forall i :: 0 <= i < |folders| && i != k ==> folders[i].State() == before[i]
    ensures States(folders) == before[k := folders[k].State()]
  {
  }

  class OfflineStore {
    const folders: seq<OfflineFolder>
    var server: seq<map<Uid, string>>
    var nextServer: nat

    ghost function Parts(): set<OfflineFolder> {
      set f <- folders
    }

    ghost predicate Valid()
      reads this
    {
      && |server| == |folders|
      && forall i, j :: 0 <= i < j < |folders| ==> folders[i] != folders[j]
    }

    ghost function Now(): World
      reads this, folders
    {
      World(States(folders), server, nextServer)
    }

    constructor (folders: seq<OfflineFolder>, server: seq<map<Uid, string>>, nextServer: nat)
      requires |server| == |folders| && forall i, j :: 0 <= i < j < |folders| ==> folders[i] != folders[j]
      ensures Valid() && this.folders == folders && this.server == server && this.nextServer == nextServer
    {
      this.folders, this.server, this.nextServer := folders, server, nextServer;
    }

    method Append(dst: nat, content: string)
      requires Valid() && dst < |folders|
      modifies Parts()
      ensures Valid() && Now() == Step(old(Now()), AppendOp(dst, content))
    {
      folders[dst].Append(content);
    }

    method Delete(folder: nat, uid: Uid, flags: Word, set': Word)
      requires Valid() && folder < |folders|
      modifies Parts()
      ensures Valid() && Now() == Step(old(Now()), DeleteOp(folder, uid, flags, set'))
    {
      folders[folder].Delete(uid, flags, set');
    }

    /** Copies or moves one cached message; the two folders may be the same one. */
    method Transfer(src: nat, dst: nat, uid: Uid, deleteOriginal: bool)
      requires Valid() && src < |folders| && dst < |folders| && uid in folders[src].cache
      modifies Parts()
      ensures Valid() && Now() == JournalTransfer(old(Now()), src, dst, uid, deleteOriginal)
    {
      hide UpdateCache, FindSource, RemoveMessage, Push, Trash, TransferEntry, States, Without;
      var source, dest := folders[src], folders[dst];
      ghost var before := States(folders);
      var temp := dest.UpdateCache(source.cache[uid]);
      OneChanged(folders, dst, before);
      ghost var cached := States(folders);
      var s := source.FindRealSource(src, uid, deleteOriginal);
      if deleteOriginal {
        source.RemoveMessage(uid);
      }
      OneChanged(folders, src, cached);
      ghost var left := States(folders);
      dest.PushTail(TransferEntry(temp, s, deleteOriginal));
      OneChanged(folders, dst, left);
    }

    /** Copies or moves messages one by one, up to the first one that is not cached. */
    method TransferMessages(src: nat, dst: nat, uids: seq<Uid>, deleteOriginals: bool) returns (ok: bool)
      requires Valid() && src < |folders| && dst < |folders|
      modifies Parts()
      ensures Valid() && Now() == TransferAll(old(Now()), src, dst, uids, deleteOriginals)
      ensures src != dst ==> ok == AllCached(old(Now()).folders[src], uids)
    {
      hide JournalTransfer, AllCached;
      assert uids[0..] == uids;
      var i := 0;
      while i < |uids|
        invariant 0 <= i <= |uids| && Valid()
        invariant TransferAll(Now(), src, dst, uids[i..], deleteOriginals)
                  == TransferAll(old(Now()), src, dst, uids, deleteOriginals)
        invariant src != dst ==>
                    AllCached(Now().folders[src], uids[i..]) == AllCached(old(Now()).folders[src], uids)
      {
        TransferUnfold(Now(), src, dst, uids[i..], deleteOriginals);
        if src != dst { NextCached(Now(), src, dst, uids[i..], deleteOriginals); }
        assert uids[i..][1..] == uids[i + 1..];
        if uids[i] in folders[src].summary {
          if uids[i] !in folders[src].cache {
            return false;
          }
          Transfer(src, dst, uids[i], deleteOriginals);
        }
        i := i + 1;
      }
      assert uids[|uids|..] == [];
      EndCached(Now().folders[src], []);
      return true;
    }

    // ---- back online -------------------------------------------------------

    /** The server takes the message under a new name and the folder shows it there. */
    method Post(f: nat, posted: Uid, content: string, shown: string)
      requires Valid() && f < |folders|
      modifies `server, folders[f]
      ensures Valid() && server == old(server)[f := old(server)[f][posted := content]]
      ensures folders[f].State() == old(folders[f].State()).(summary := old(folders[f].summary)[posted := shown])
    {
      server := server[f := server[f][posted := content]];
      folders[f].AddInfo(posted, shown);
    }

    /** A refused append changes nothing and stays queued. */
    method PlayAppend(f: nat, temp: Uid, accepted: bool) returns (ok: bool)
      requires Valid() && f < |folders|
      modifies `server, Parts()
      ensures Valid() && ok == AppendPlays(old(Now()), f, temp, accepted)
      ensures Now() == if ok then AppendPlayed(old(Now()), f, temp) else old(Now())
    {
      hide RemoveMessage, States;
      ghost var before := States(folders);
      var folder := folders[f];
      if temp in folder.cache {
        if !accepted {
          return false;
        }
        Post(f, Server(nextServer), folder.cache[temp], folder.cache[temp]);
      }
      folder.RemoveMessage(temp);
      OneChanged(folders, f, before);
      return true;
    }

    /** Copies or moves one original on the server; a moved one leaves its folder too. */
    method TakeOriginal(source: nat, original: Uid, deleteOriginal: bool) returns (content: string)
      requires Valid() && source < |folders| && original in server[source]
      modifies `server, Parts()
      ensures Valid() && content == old(server)[source][original]
      ensures server == if deleteOriginal then old(server)[source := Without(old(server)[source], original)]
                        else old(server)
      ensures States(folders) == if deleteOriginal
                                 then var before := old(States(folders));
                                      before[source := RemoveMessage(before[source], original)]
                                 else old(States(folders))
    {
      hide RemoveMessage, States, Without;
      ghost var before := States(folders);
      content := server[source][original];
      if deleteOriginal {
        server := server[source := Without(server[source], original)];
        folders[source].RemoveMessage(original);
      }
      OneChanged(folders, source, before);
    }

    /** A transfer that fails changes nothing and stays queued. */
    method PlayTransfer(f: nat, temp: Uid, original: Uid, source: nat, deleteOriginal: bool, accepted: bool)
      returns (ok: bool)
      requires Valid() && f < |folders|
      modifies `server, Parts()
      ensures Valid() && ok == TransferPlays(old(Now()), f, temp, original, source, accepted)
      ensures Now() == if ok then TransferPlayed(old(Now()), f, temp, original, source, deleteOriginal) else old(Now())
    {
      hide RemoveMessage, States, Without;
      ghost var before := States(folders);
      var folder := folders[f];
      if temp in folder.cache {
        if !accepted || source >= |folders| || original !in server[source] {
          return false;
        }
        var shown := folder.cache[temp];
        var content := TakeOriginal(source, original, deleteOriginal);
        ghost var left := States(folders);
        Post(f, Server(nextServer), content, shown);
        folder.RemoveMessage(temp);
        OneChanged(folders, f, left);
      } else {
        folder.RemoveMessage(temp);
        OneChanged(folders, f, before);
      }
      return true;
    }

    /** Plays one entry as its kind demands; `ok` tells that it was played. */
    method PlayKind(f: nat, e: Entry, accepted: bool) returns (ok: bool)
      requires Valid() && f < |folders|
      modifies `server, Parts()
      ensures Valid() && f < |Now().folders|
      ensures Play(old(Now()), Job(f, e, accepted))
              == (if ok then Dequeued(Now(), Job(f, e, accepted)) else Now()).(nextServer := old(nextServer) + 1)
    {
      hide States, Dequeued, AppendPlayed, AppendPlays, TransferPlayed, TransferPlays;
      match e
      case Append(temp) => ok := PlayAppend(f, temp, accepted);
      case Transfer(temp, original, source, deleteOriginal) =>
        ok := PlayTransfer(f, temp, original, source, deleteOriginal, accepted);
      case Delete(uid, _, _) => ok := uid in server[f];
      case Unplayable(_) => ok := false;
    }

    /** Plays one entry; it leaves the queue exactly when it could be played. */
    method PlayEntry(f: nat, e: Entry, accepted: bool) returns (ok: bool)
      requires Valid() && f < |folders|
      modifies this, Parts()
      ensures Valid() && Now() == Play(old(Now()), Job(f, e, accepted))
    {
      hide States, Played, Play;
      ok := PlayKind(f, e, accepted);
      ghost var played := States(folders);
      if ok {
        folders[f].DropEntry(e);
      }
      OneChanged(folders, f, played);
      nextServer := nextServer + 1;
    }

    /** Replays one folder's journal, oldest entry first; what cannot be played stays queued. */
    method ReplayJournal(f: nat, answers: seq<bool>)
      requires Valid() && f < |folders| && |answers| == |folders[f].queue|
      modifies this, Parts()
      ensures Valid() && Now() == Replay(old(Now()), Jobs(f, old(folders[f].queue), answers))
    {
      hide Play, States;
      var entries := folders[f].queue;
      ghost var jobs := Jobs(f, entries, answers);
      var i := 0;
      while i < |entries|
        invariant 0 <= i <= |entries| && Valid()
        invariant Now() == Replay(old(Now()), jobs[..i])
      {
        assert jobs[..i + 1][..i] == jobs[..i] && jobs[i] == Job(f, entries[i], answers[i]);
        var _ := PlayEntry(f, entries[i], answers[i]);
        i := i + 1;
      }
      assert jobs[..|jobs|] == jobs;
    }
  }

  /** The entries of one queue as jobs, in queue order, with the server's answers. */
  ghost function Jobs(f: nat, queue: seq<Entry>, answers: seq<bool>): seq<Job>
    requires |answers| == |queue|
  {
    seq(|queue|, i requires 0 <= i < |queue| => Job(f, queue[i], answers[i]))
  }

  lemma TransferUnfold(w: World, src: nat, dst: nat, uids: seq<Uid>, del: bool)
    requires src < |w.folders| && dst < |w.folders| && uids != []
    ensures TransferAll(w, src, dst, uids, del) ==
            if uids[0] !in w.folders[src].summary then TransferAll(w, src, dst, uids[1..], del)
            else if uids[0] !in w.folders[src].cache then w
            else TransferAll(JournalTransfer(w, src, dst, uids[0], del), src, dst, uids[1..], del)
  {
  }

  lemma EndCached(l: Local, uids: seq<Uid>)
    requires uids == []
    ensures AllCached(l, uids)
  {
  }

  /** Transferring the first message changes nothing about the others. */
  lemma NextCached(w: World, src: nat, dst: nat, uids: seq<Uid>, del: bool)
    requires src < |w.folders| && dst < |w.folders| && uids != [] && src != dst
    ensures AllCached(w.folders[src], uids) ==
            if uids[0] !in w.folders[src].summary then AllCached(w.folders[src], uids[1..])
            else if uids[0] !in w.folders[src].cache then false
            else AllCached(JournalTransfer(w, src, dst, uids[0], del).folders[src], uids[1..])
  {
    hide FindSource, TransferEntry, Trash;
    assert forall u :: u in uids <==> u == uids[0] || u in uids[1..];
  }
}
