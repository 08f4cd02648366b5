/**
 Where the texts of messages go: what an offline append, copy, move or deletion shows, text by
 text, and that appended texts reach the server.
 */
module OfflineTexts {
  import opened Basics
  import opened MessageFlags
  import opened JournalState
  import opened JournalProvenance
  import opened JournalReady
  import opened JournalReplay
  import opened ReplayTheorem
  import opened UniformRuns

  // ---- counting texts ------------------------------------------------------

  ghost function With(m: map<Uid, string>, text: string): set<Uid> {
    set uid <- m | m[uid] == text
  }

  /** How many messages have that text. */
  ghost function Count(m: map<Uid, string>, text: string): nat {
    |With(m, text)|
  }

  lemma CountInserted(m: map<Uid, string>, uid: Uid, content: string, text: string)
    requires uid !in m
    ensures Count(m[uid := content], text) == Count(m, text) + if content == text then 1 else 0
  {
    assert With(m[uid := content], text) == With(m, text) + if content == text then {uid} else {};
  }

  ghost function Image(g: map<Uid, Uid>, a: set<Uid>): set<Uid>
    requires a <= g.Keys
  {
    set x <- a :: g[x]
  }

  lemma {:induction false} ImageSize(g: map<Uid, Uid>, a: set<Uid>)
    requires a <= g.Keys && forall x <- a, y <- a :: x != y ==> g[x] != g[y]
    ensures |Image(g, a)| == |a|
    decreases |a|
  {
    if a == {} {
      assert Image(g, a) == {};
    } else {
      var x :| x in a;
      ImageSize(g, a - {x});
      assert Image(g, a) == Image(g, a - {x}) + {g[x]};
      assert g[x] !in Image(g, a - {x});
    }
  }

  lemma Preimage(g: map<Uid, Uid>, server: map<Uid, string>, summary: map<Uid, string>, y: Uid)
    requires Renames(g, server, summary) && y in summary
    ensures exists x :: x in g && x in server && g[x] == y && server[x] == summary[y]
  {
    assert y in g.Values;
    var x :| x in g && g[x] == y;
    assert x in g.Keys;
  }

  lemma RenamedImages(g: map<Uid, Uid>, server: map<Uid, string>, summary: map<Uid, string>, text: string)
    requires Renames(g, server, summary)
    ensures With(server, text) <= g.Keys
    ensures forall x <- With(server, text) :: x in g && g[x] in With(summary, text)
    ensures forall x, y :: x in With(server, text) && y in With(server, text) && x != y ==> g[x] != g[y]
  {
    forall x | x in With(server, text)
      ensures x in g && g[x] in With(summary, text)
    {
      assert x in g.Keys;
      assert g[x] in summary && summary[g[x]] == server[x];
    }
  }

  lemma ImageIs(g: map<Uid, Uid>, server: map<Uid, string>, summary: map<Uid, string>, text: string)
    requires Renames(g, server, summary) && With(server, text) <= g.Keys
    ensures Image(g, With(server, text)) == With(summary, text)
  {
    RenamedImages(g, server, summary, text);
    forall y
      ensures y in Image(g, With(server, text)) <==> y in With(summary, text)
    {
      if y in With(summary, text) {
        Preimage(g, server, summary, y);
        var x :| x in g && x in server && g[x] == y && server[x] == summary[y];
        assert x in With(server, text);
      }
    }
  }

  /** The same messages up to uids hold the same texts, each as often. */
  lemma RenamedCount(server: map<Uid, string>, summary: map<Uid, string>, text: string)
    requires SameMessages(server, summary)
    ensures Count(server, text) == Count(summary, text)
  {
    hide Renames, With, Image;
    var g :| Renames(g, server, summary);
    RenamedImages(g, server, summary, text);
    ImageIs(g, server, summary, text);
    ImageSize(g, With(server, text));
  }

  // ---- appending -----------------------------------------------------------

  /** Only the folder at that position differs. */
  ghost predicate OnlyFolder(w: World, d: World, f: nat) {
    && f < |w.folders| == |d.folders| && d.server == w.server && d.nextServer == w.nextServer
    && forall g :: 0 <= g < |w.folders| && g != f ==> d.folders[g] == w.folders[g]
  }

  lemma NewUidFresh(l: Local)
    requires Traced(l)
    ensures NewUid(l) !in l.summary
  {
  }

  /** An offline append shows the message under one new uid, caches it and queues it. */
  lemma AppendShown(w: World, dst: nat, content: string)
    requires dst < |w.folders| && Traced(w.folders[dst])
    ensures var d := Step(w, AppendOp(dst, content));
            var l, m := w.folders[dst], d.folders[dst];
            && OnlyFolder(w, d, dst)
            && exists temp: Uid :: temp.Offline? && temp !in l.summary
                                   && m.summary == l.summary[temp := content] && m.cache == l.cache[temp := content]
                                   && m.queue == l.queue + [Append(temp)]
    ensures forall text :: Count(Step(w, AppendOp(dst, content)).folders[dst].summary, text) ==
                           Count(w.folders[dst].summary, text) + if content == text then 1 else 0
  {
    var l := w.folders[dst];
    var m := Step(w, AppendOp(dst, content)).folders[dst];
    NewUidFresh(l);
    assert m.summary == l.summary[NewUid(l) := content] && m.cache == l.cache[NewUid(l) := content];
    assert m.queue == l.queue + [Append(NewUid(l))];
    forall text
      ensures Count(m.summary, text) == Count(l.summary, text) + if content == text then 1 else 0
    {
      CountInserted(l.summary, NewUid(l), content, text);
    }
  }

  /** How many of the operations append that text to the folder. */
  function Appended(ops: seq<Op>, f: nat, text: string): nat {
    if ops == [] then 0
    else (if ops[0] == AppendOp(f, text) then 1 else 0) + Appended(ops[1..], f, text)
  }

  predicate AppendsOnly(ops: seq<Op>) {
    forall op <- ops :: op.AppendOp?
  }

  lemma ReadyTraced(w: World, f: nat)
    requires Ready(w) && f < |w.folders|
    ensures Traced(w.folders[f])
  {
    hide Covered, ServerReady, Backed;
    var l := w.folders[f];
    assert LocalReady(w.server, l, f);
    forall uid | uid in l.summary && uid.Offline?
      ensures uid.number < l.nextUid && RealSource(l.queue, uid) != Nowhere
    {
      assert UidReady(w.server, l, f, uid);
      var e :| e in l.queue && e.uid == uid;
      assert EntryReady(w.server, l, e);
      SourceOfEntry(l.queue, e);
    }
  }

  lemma {:induction false} AppendsShown(w: World, ops: seq<Op>, f: nat, text: string)
    requires Ready(w) && f < |w.folders| && AppendsOnly(ops) && forall op <- ops :: Applies(w, op)
    ensures Count(Run(w, ops).folders[f].summary, text) == Count(w.folders[f].summary, text) + Appended(ops, f, text)
    decreases ops
  {
    hide Ready, Count, Traced;
    if ops != [] {
      assert ops[0] in ops;
      var d := Step(w, ops[0]);
      ReadyTraced(w, ops[0].dst);
      AppendShown(w, ops[0].dst, ops[0].content);
      AppendReady(w, ops[0].dst, ops[0].content);
      forall op | op in ops[1..]
        ensures op.AppendOp? && Applies(d, op)
      {
        assert op in ops;
      }
      AppendsShown(d, ops[1..], f, text);
    }
  }

  /**
   Appended texts reach the server: after any run of offline appends, replayed in any order with
   nothing refused, each server folder holds every text as often as before plus the number of
   times it was appended there.
   */
  lemma AppendsReplayed(w: World, ops: seq<Op>, jobs: seq<Job>, f: nat, text: string)
    requires InSync(w) && f < |w.folders| && AppendsOnly(ops) && forall op <- ops :: Applies(w, op)
    requires Schedule(Run(w, ops), jobs) && Accepted(jobs)
    ensures |Run(w, ops).server| == |Run(w, ops).folders| == |w.folders|
    ensures Count(Replay(Run(w, ops), jobs).server[f], text) == Count(w.server[f], text) + Appended(ops, f, text)
  {
    hide Run, Replay, Schedule, SameMessages, Ready, Count, Appended;
    var r := Run(w, ops);
    assert MovesOnly(ops);
    UniformRunsReplay(w, ops, jobs);
    InSyncReady(w);
    AppendsShown(w, ops, f, text);
    assert SameMessages(Replay(r, jobs).server[f], r.folders[f].summary);
    RenamedCount(Replay(r, jobs).server[f], r.folders[f].summary, text);
  }

  // ---- copying and moving --------------------------------------------------

  /** The summary once the message has left it, if it is to leave. */
  function Left(summary: map<Uid, string>, uid: Uid, del: bool): map<Uid, string> {
    if del then Without(summary, uid) else summary
  }

  /** A transferred message shows the same text under one new uid; a moved one leaves its folder. */
  lemma TransferShown(w: World, src: nat, dst: nat, uid: Uid, del: bool)
    requires Ready(w) && src < |w.folders| && dst < |w.folders|
    requires uid in w.folders[src].summary && uid in w.folders[src].cache
    ensures var d := JournalTransfer(w, src, dst, uid, del);
            var l, text := w.folders[dst], w.folders[src].summary[uid];
            && |d.folders| == |w.folders| && d.server == w.server
            && NewUid(l) !in l.summary
            && d.folders[dst].summary ==
               (if src == dst then Left(l.summary, uid, del) else l.summary)[NewUid(l) := text]
            && (src != dst ==> d.folders[src].summary == Left(w.folders[src].summary, uid, del)
                               && (del || d.folders[src] == w.folders[src]))
            && (forall g :: 0 <= g < |w.folders| && g != src && g != dst ==> d.folders[g] == w.folders[g])
  {
    hide LocalReady, Covered, ServerReady, JournalTransfer, FindSource, TransferEntry, Trash;
    TransferParts(w, src, dst, uid, del);
    CachedContent(w.server, w.folders[src], src, uid);
    ReadyTraced(w, dst);
    NewUidFresh(w.folders[dst]);
  }

  /** How many messages of that text the named ones are; a message that moves is there once. */
  ghost function Named(summary: map<Uid, string>, uids: seq<Uid>, del: bool, text: string): nat
    decreases uids
  {
    if uids == [] then 0
    else if uids[0] !in summary then Named(summary, uids[1..], del, text)
    else (if summary[uids[0]] == text then 1 else 0) + Named(Left(summary, uids[0], del), uids[1..], del, text)
  }

  lemma LeftCached(l: Local, m: Local, uid: Uid, uids: seq<Uid>, del: bool)
    requires uids != [] && AllCached(l, uids) && uid in l.summary
    requires if del then m == Leave(l, uid) else m == l
    ensures AllCached(m, uids[1..])
  {
    assert forall u <- uids[1..] :: u in uids;
  }

  lemma TransferLeaves(w: World, src: nat, dst: nat, uid: Uid, del: bool)
    requires Ready(w) && src < |w.folders| && dst < |w.folders| && src != dst
    requires uid in w.folders[src].summary && uid in w.folders[src].cache
    ensures var d := JournalTransfer(w, src, dst, uid, del);
            |d.folders| == |w.folders|
            && d.folders[src] == if del then Leave(w.folders[src], uid) else w.folders[src]
  {
    hide LocalReady, Covered, ServerReady, JournalTransfer, FindSource, TransferEntry, Leave, Push, UpdateCache;
    TransferParts(w, src, dst, uid, del);
  }

  /**
   Copying or moving cached messages to another folder: that folder gains their texts, each as
   often as messages named with it, moved messages and no others leave their folder, and nothing
   else changes.
   */
  lemma {:induction false} TransfersShown(w: World, src: nat, dst: nat, uids: seq<Uid>, del: bool, text: string)
    requires Ready(w) && src < |w.folders| && dst < |w.folders| && src != dst && AllCached(w.folders[src], uids)
    ensures var d := TransferAll(w, src, dst, uids, del);
            && Count(d.folders[dst].summary, text) ==
               Count(w.folders[dst].summary, text) + Named(w.folders[src].summary, uids, del, text)
            && (forall u :: u in d.folders[src].summary <==> u in w.folders[src].summary && !(del && u in uids))
            && (forall u <- d.folders[src].summary :: d.folders[src].summary[u] == w.folders[src].summary[u])
            && (forall g :: 0 <= g < |w.folders| && g != src && g != dst ==> d.folders[g] == w.folders[g])
    decreases uids
  {
    hide Ready, JournalTransfer, Count, Leave, AllCached;
    if uids != [] {
      var uid, l := uids[0], w.folders[src];
      FirstCached(l, uids);
      assert forall u :: u in uids <==> u == uids[0] || u in uids[1..];
      if uid !in l.summary {
        TransfersShown(w, src, dst, uids[1..], del, text);
      } else {
        var d := JournalTransfer(w, src, dst, uid, del);
        TransferShown(w, src, dst, uid, del);
        TransferLeaves(w, src, dst, uid, del);
        TransferReady(w, src, dst, uid, del);
        LeftCached(l, d.folders[src], uid, uids, del);
        TransfersShown(d, src, dst, uids[1..], del, text);
        CountInserted(w.folders[dst].summary, NewUid(w.folders[dst]), l.summary[uid], text);
      }
    }
  }

  lemma FirstCached(l: Local, uids: seq<Uid>)
    requires uids != [] && AllCached(l, uids)
    ensures AllCached(l, uids[1..]) && (uids[0] in l.summary ==> uids[0] in l.cache)
  {
    assert uids[0] in uids && forall u <- uids[1..] :: u in uids;
  }

  // ---- deleting ------------------------------------------------------------

  /** A journalled flag change hides the message exactly if it sets DELETED, and is queued last. */
  lemma DeleteShown(w: World, f: nat, uid: Uid, flags: Word, set': Word)
    requires f < |w.folders|
    ensures var d := Step(w, DeleteOp(f, uid, flags, set'));
            var l, m := w.folders[f], d.folders[f];
            && OnlyFolder(w, d, f)
            && m.summary == (if DELETED in flags && DELETED in set' then Without(l.summary, uid) else l.summary)
            && m.queue == l.queue + [Delete(uid, flags, set')] && m.nextUid == l.nextUid
  {
    var l := w.folders[f];
    if uid !in l.summary { assert Without(l.summary, uid) == l.summary; }
  }
}
