/**
 The queue of messages with unsent edits (`changed_messages`): it never holds a
 message twice, a message that was removed, or one with nothing to send; and one
 run of the flusher visits every queued message exactly once.
 */
module PendingQueue {
  import opened Basics
  import opened MessageFlags
  import opened FolderState
  import opened FolderIndex

  ghost predicate NoRepeats(q: seq<nat>) {
    forall i, j :: 0 <= i < j < |q| ==> q[i] != q[j]
  }

  ghost predicate PendingIn(ms: seq<Message>, serial: nat) {
    var m := Fetch(ms, serial);
    m.Some? && m.value.Pending()
  }

  ghost predicate Queued(f: Folder) {
    && NoRepeats(f.changed)
    && (forall s <- f.changed :: PendingIn(f.messages, s))
  }

  // ---- primitive updates ---------------------------------------------------

  lemma AddQueued(f: Folder, uid: string, href: Option<string>, flags: Word)
    requires Queued(f)
    ensures Queued(Add(f, uid, href, flags))
  {
    hide Fetch;
    var g := Add(f, uid, href, flags);
    forall s | s in g.changed
      ensures PendingIn(g.messages, s)
    {
      FetchAppended(f.messages, g.messages[|f.messages|], s);
    }
  }

  lemma RemoveFastNoRepeats(q: seq<nat>, x: nat)
    requires NoRepeats(q)
    ensures NoRepeats(RemoveFast(q, x))
    ensures x !in RemoveFast(q, x)
  {
  }

  lemma RemoveAtQueued(f: Folder, k: nat)
    requires Indexed(f) && Queued(f) && k < |f.messages|
    ensures Queued(RemoveAt(f, k))
    ensures f.messages[k].serial !in RemoveAt(f, k).changed
  {
    hide Fetch, RemoveFast;
    var g := RemoveAt(f, k);
    var m := f.messages[k];
    RemoveFastNoRepeats(f.changed, m.serial);
    RemoveFastMembers(f.changed, m.serial);
    FetchMember(f.messages, m);
    assert m.serial in f.changed ==> PendingIn(f.messages, m.serial);
    forall s | s in g.changed
      ensures PendingIn(g.messages, s)
    {
      FetchRemoved(f.messages, k, s);
    }
  }

  /** Overwriting one record keeps the queue when what is pending there stays pending. */
  lemma ReplaceQueued(f: Folder, m: Message, g: Folder)
    requires Queued(f) && NoRepeats(g.changed)
    requires g.messages == Replace(f.messages, m)
    requires forall s <- g.changed :: s != m.serial ==> s in f.changed
    requires m.serial in g.changed ==> m.Pending() && Fetch(f.messages, m.serial).Some?
    ensures Queued(g)
  {
    hide Fetch;
    forall s | s in g.changed
      ensures PendingIn(g.messages, s)
    {
      FetchReplaced(f.messages, m, s);
    }
  }

  lemma ChangeFlagsQueued(f: Folder, m: Message, flags: Word)
    requires Indexed(f) && Queued(f) && m in f.messages
    ensures Queued(ChangeFlags(f, m, flags))
  {
    FetchMember(f.messages, m);
    if m.serial in f.changed { assert PendingIn(f.messages, m.serial); }
    ReplaceQueued(f, m.(flags := flags), ChangeFlags(f, m, flags));
  }

  lemma PermutedQueued(f: Folder, ms: seq<Message>)
    requires Indexed(f) && Queued(f) && multiset(ms) == multiset(f.messages)
    ensures Queued(f.(messages := ms))
  {
    hide Fetch;
    forall s | s in f.changed
      ensures PendingIn(ms, s)
    {
      FetchPermuted(f.messages, ms, s);
    }
  }

  // ---- operations ----------------------------------------------------------

  lemma MessageRemovedQueued(f: Folder, href: string)
    requires Indexed(f) && Queued(f)
    ensures Queued(MessageRemoved(f, href))
  {
    hide BinarySearch, RemoveAt, Indexed, Queued, Fetch;
    match FindByHref(f, href)
    case None =>
    case Some(m) =>
      var k := BinarySearch(f.messages, 0, |f.messages| - 1, m.serial);
      if k != -1 { RemoveAtQueued(f, k); }
  }

  lemma {:induction false} RemovalsQueued(f: Folder, hrefs: seq<string>)
    requires Indexed(f) && Queued(f)
    ensures Queued(Removals(f, hrefs))
    decreases hrefs
  {
    if hrefs != [] {
      MessageRemovedIndexed(f, hrefs[0]);
      MessageRemovedQueued(f, hrefs[0]);
      RemovalsQueued(CountDeleted(MessageRemoved(f, hrefs[0])), hrefs[1..]);
    }
  }

  lemma {:induction false} LoadQueued(f: Folder, rows: seq<Row>)
    requires f.changed == []
    ensures LoadRows(f, rows).changed == []
    decreases rows
  {
    if rows != [] {
      var href := if rows[0].href == Some("") then None else rows[0].href;
      LoadQueued(Add(f, rows[0].uid, href, rows[0].flags), rows[1..]);
    }
  }

  lemma RefreshItemQueued(f: Folder, it: Item)
    requires Indexed(f) && Queued(f) && it.Usable()
    ensures Queued(RefreshItem(f, it))
  {
    hide MessageRemoved, Add, ChangeFlags, Fetch, Distinct, BearsUid, BearsHref, PendingIn;
    FindNone(f, it.uid.value);
    match Find(f, it.uid.value)
    case Some(m) => ChangeFlagsQueued(f, m, it.flags);
    case None =>
      var cleared := if it.href in f.byHref then MessageRemoved(CountDeleted(f), it.href) else f;
      MessageRemovedQueued(CountDeleted(f), it.href);
      AddQueued(cleared, it.uid.value, Some(it.href), it.flags);
  }

  lemma {:induction false} RefreshItemsQueued(f: Folder, items: seq<Item>)
    requires Indexed(f) && Queued(f) && forall it <- items :: it.Usable()
    ensures Queued(RefreshItems(f, items))
    decreases items
  {
    if items != [] {
      RefreshItemIndexed(f, items[0]);
      RefreshItemQueued(f, items[0]);
      RefreshItemsQueued(RefreshItem(f, items[0]), items[1..]);
    }
  }

  lemma {:induction false} MarkListedQueued(f: Folder, listing: seq<Listed>)
    requires Indexed(f) && Queued(f)
    ensures Queued(MarkListed(f, listing))
    decreases listing
  {
    hide Indexed, Queued, Fetch, ChangeFlags;
    if listing != [] {
      match FindByHref(f, listing[0].href) {
        case None => MarkListedQueued(f, listing[1..]);
        case Some(m) =>
          FetchFrom(f.messages, f.byHref[listing[0].href]);
          var g := if (SEEN in m.flags) != listing[0].read then ChangeFlags(f, m, FlipSeen(m.flags)) else f;
          ChangeFlagsIndexed(f, m, FlipSeen(m.flags));
          ChangeFlagsQueued(f, m, FlipSeen(m.flags));
          MarkListedQueued(g, listing[1..]);
      }
    }
  }

  lemma CountQueued(f: Folder)
    ensures Indexed(f) && Queued(f) ==> Indexed(CountDeleted(f)) && Queued(CountDeleted(f))
  {
  }

  lemma {:induction false} RemoveUnknownQueued(f: Folder, known: set<nat>, k: int)
    requires Indexed(f) && Queued(f) && -1 <= k < |f.messages|
    ensures Queued(RemoveUnknown(f, known, k))
    decreases k + 1
  {
    hide Indexed, Queued, RemoveFast, Without;
    if k >= 0 {
      if f.messages[k].serial in known {
        RemoveUnknownQueued(f, known, k - 1);
      } else {
        CountQueued(f);
        RemoveAtIndexed(CountDeleted(f), k);
        RemoveAtQueued(CountDeleted(f), k);
        RemoveUnknownQueued(RemoveAt(CountDeleted(f), k), known, k - 1);
      }
    }
  }

  lemma LandQueued(f: Folder, k: nat, it: Item)
    requires Indexed(f) && Queued(f) && k < |f.messages|
    ensures Queued(Land(f, k, it))
  {
    var m := f.messages[k];
    var g := if m.href.None? then SetHref(f, m, it.href) else f;
    var m' := if m.href.None? then m.(href := Some(it.href)) else m;
    FetchMember(f.messages, m);
    if m.serial in f.changed { assert PendingIn(f.messages, m.serial); }
    if m.href.None? {
      ReplaceIndexed(f, m, m', g);
      ReplaceQueued(f, m', g);
    }
    assert g.messages[k] == m';
    ChangeFlagsQueued(g, m', it.flags);
  }

  lemma {:induction false} MatchItemsQueued(f: Folder, m: nat, rest: seq<Message>, items: seq<Item>)
    requires Indexed(f) && Queued(f) && m + |rest| <= |f.messages|
    ensures Queued(MatchItems(f, m, rest, items))
    decreases items
  {
    hide Indexed, Queued, Land, Landing, DropUntil;
    if rest != [] && items != [] {
      if !items[0].Usable() {
        MatchItemsQueued(f, m, rest, items[1..]);
      } else {
        var tail := DropUntil(rest, items[0].uid.value);
        if tail != [] {
          var k := Landing(f.messages, m, m + |tail|, tail[0].serial);
          LandIndexed(f, k, items[0]);
          LandQueued(f, k, items[0]);
          MatchItemsQueued(Land(f, k, items[0]), m + 1, tail[1..], items[1..]);
        }
      }
    }
  }

  lemma GetContentsQueued(f: Folder, items: seq<Item>, ok: bool)
    requires Indexed(f) && Queued(f)
    ensures Queued(GetContents(f, items, ok))
  {
    var sorted := SortMessages(f.messages);
    assert |sorted| == |multiset(sorted)|;
    PermutedIndexed(f, sorted);
    PermutedQueued(f, sorted);
    MatchItemsQueued(f.(messages := sorted), 0, sorted, items);
  }

  /** An edit that is not dropped leaves something pending. */
  lemma EditedPending(m: Message, flags: Word, mask: Word)
    ensures EditedMask(m.flags, flags, mask) != {} ==> Edited(m, flags, mask).Pending()
    ensures m.Pending() ==> Edited(m, flags, mask).Pending()
  {
  }

  lemma SetFlagsQueued(f: Folder, uid: string, flags: Word, mask: Word)
    requires Indexed(f) && Queued(f)
    ensures Queued(SetFlags(f, uid, flags, mask))
  {
    hide Edited, EditedMask;
    FindNone(f, uid);
    match Find(f, uid)
    case None =>
    case Some(m) =>
      var e := Edited(m, flags, mask);
      EditedPending(m, flags, mask);
      EditedSame(m, flags, mask);
      FetchMember(f.messages, m);
      if m.serial in f.changed { assert PendingIn(f.messages, m.serial); }
      ReplaceQueued(f, e, SetFlags(f, uid, flags, mask));
  }

  lemma EditedSame(m: Message, flags: Word, mask: Word)
    ensures Edited(m, flags, mask).serial == m.serial && Edited(m, flags, mask).uid == m.uid
  {
  }

  /**
   Queueing a tag change keeps the queue in order exactly when something is pending
   on the message afterwards: always for a value, but removing the only tag of a
   message without flag edits queues a message that has nothing to send.
   */
  lemma SetTagQueuedIff(f: Folder, uid: string, name: string, value: Option<string>)
    requires Indexed(f) && Queued(f)
    ensures Queued(SetTag(f, uid, name, value)) <==>
            var m := Find(f, uid);
            m.None? || value.Some? || m.value.changeMask != {} || m.value.tags.Keys - {name} != {}
  {
    FindNone(f, uid);
    match Find(f, uid)
    case None =>
    case Some(m) =>
      var tags := if value.Some? then m.tags[name := value.value] else Without(m.tags, name);
      var m' := m.(tags := tags);
      var g := SetTag(f, uid, name, value);
      assert tags.Keys == if value.Some? then m.tags.Keys + {name} else m.tags.Keys - {name};
      assert tags == map[] <==> tags.Keys == {};
      FetchMember(f.messages, m);
      FetchReplaced(f.messages, m', m.serial);
      assert m.serial in g.changed;
      if m'.Pending() {
        ReplaceQueued(f, m', g);
      } else {
        assert !PendingIn(g.messages, m.serial);
      }
  }

  // ---- the flusher ---------------------------------------------------------

  /** The array with every message of the set flushed. */
  ghost function FlushAll(ms: seq<Message>, serials: set<nat>): seq<Message> {
    seq(|ms|, i requires 0 <= i < |ms| => if ms[i].serial in serials then Flushed(ms[i]) else ms[i])
  }

  ghost function Elements(q: seq<nat>): set<nat> {
    set s <- q
  }

  /** The queued messages of the set that still have unsent edits after flushing. */
  ghost predicate Unfinished(ms: seq<Message>, serial: nat) {
    var m := Fetch(ms, serial);
    m.Some? && Flushed(m.value).changeMask != {}
  }

  lemma DequeuedElements(q: seq<nat>, i: nat)
    requires NoRepeats(q) && i < |q|
    ensures NoRepeats(RemoveFastAt(q, i))
    ensures RemoveFastAt(q, i)[..i] == q[..i]
    ensures Elements(RemoveFastAt(q, i)[i..]) == Elements(q[i + 1..])
    ensures Elements(q[i..]) == Elements(q[i + 1..]) + {q[i]}
    ensures q[i] !in Elements(q[i + 1..])
  {
    var r := RemoveFastAt(q, i);
    forall s | s in Elements(q[i + 1..])
      ensures s in Elements(r[i..])
    {
      var j :| 0 <= j < |q[i + 1..]| && q[i + 1..][j] == s;
      var n := if i + 1 + j == |q| - 1 then i else i + 1 + j;
      assert r[n] == s && r[i..][n - i] == s;
    }
    forall s | s in Elements(q[i..]) && s != q[i]
      ensures s in Elements(q[i + 1..])
    {
      var j :| 0 <= j < |q[i..]| && q[i..][j] == s;
      assert q[i + 1..][j - 1] == s;
    }
  }

  lemma FlushAllStep(ms: seq<Message>, m: Message, serials: set<nat>)
    requires Distinct(ms) && m in ms && m.serial !in serials
    ensures FlushAll(Replace(ms, Flushed(m)), serials) == FlushAll(ms, serials + {m.serial})
  {
    var rs := Replace(ms, Flushed(m));
    FetchMember(ms, m);
    forall i | 0 <= i < |ms|
      ensures ms[i].serial == m.serial ==> ms[i] == m
    {
      FetchMember(ms, ms[i]);
    }
    assert FlushAll(rs, serials) == FlushAll(ms, serials + {m.serial});
  }

  lemma ReplacedDistinct(ms: seq<Message>, m: Message)
    requires Distinct(ms)
    ensures Distinct(Replace(ms, m))
  {
  }

  lemma DequeuedMultiset(q: seq<nat>, i: nat)
    requires i < |q|
    ensures multiset(q[i..]) == multiset{q[i]} + multiset(q[i + 1..])
    ensures multiset(RemoveFastAt(q, i)[i..]) == multiset(q[i + 1..])
  {
    assert q[i..] == [q[i]] + q[i + 1..];
    var r := RemoveFastAt(q, i);
    if i < |q| - 1 {
      assert q[i + 1..] == q[i + 1..|q| - 1] + [q[|q| - 1]];
      assert r[i..] == [q[|q| - 1]] + q[i + 1..|q| - 1];
    } else {
      assert r[i..] == q[i + 1..];
    }
  }

  /** The folder and the loop position after visiting the message at position `i`. */
  ghost function Visited(f: Folder, i: nat): (r: (Folder, nat))
    requires i < |f.changed| && Fetch(f.messages, f.changed[i]).Some?
    ensures i <= r.1 <= |r.0.changed| && |r.0.changed| - r.1 < |f.changed| - i
  {
    var m := Fetch(f.messages, f.changed[i]).value;
    var g := f.(messages := Replace(f.messages, Flushed(m)));
    if Flushed(m).changeMask == {} then (g.(changed := RemoveFastAt(g.changed, i)), i) else (g, i + 1)
  }

  /** The queue from which the flush loop can go on. */
  ghost predicate Flushable(f: Folder) {
    Distinct(f.messages) && NoRepeats(f.changed) && forall s <- f.changed :: Fetch(f.messages, s).Some?
  }

  /** An orderly queue is one of these; so is one that holds a message with nothing left to send. */
  lemma QueuedFlushable(f: Folder)
    requires Indexed(f) && Queued(f)
    ensures Flushable(f)
  {
    hide Fetch;
    assert forall s <- f.changed :: PendingIn(f.messages, s);
  }

  lemma VisitedUnfold(f: Folder, i: nat)
    requires i < |f.changed| && Fetch(f.messages, f.changed[i]).Some?
    ensures var (g, next) := Visited(f, i);
            && FlushLoop(f, i) == FlushLoop(g, next)
            && FlushLog(f, i) == [Fetch(f.messages, f.changed[i]).value] + FlushLog(g, next)
  {
    hide Flushed, Fetch, Replace;
  }

  lemma VisitedStep(f: Folder, i: nat)
    requires Flushable(f) && i < |f.changed|
    ensures var (g, next) := Visited(f, i);
            && Flushable(g)
            && g == f.(messages := Replace(f.messages, Flushed(Fetch(f.messages, f.changed[i]).value)),
                       changed := g.changed)
            && (forall s <- g.changed :: s in f.changed)
            && multiset(f.changed[i..]) == multiset{f.changed[i]} + multiset(g.changed[next..])
            && f.changed[i] !in multiset(g.changed[next..])
            && g.changed[..i] == f.changed[..i]
            && next == (if Flushed(Fetch(f.messages, f.changed[i]).value).changeMask == {} then i else i + 1)
            && (next == i + 1 ==> g.changed == f.changed)
  {
    hide Flushed, Fetch, Replace;
    var m := Fetch(f.messages, f.changed[i]).value;
    FetchFrom(f.messages, f.changed[i]);
    FlushedSame(m);
    ReplacedDistinct(f.messages, Flushed(m));
    DequeuedElements(f.changed, i);
    DequeuedMultiset(f.changed, i);
    var g := Visited(f, i).0;
    forall s | s in g.changed
      ensures Fetch(g.messages, s).Some? && s in f.changed
    {
      FetchReplaced(f.messages, Flushed(m), s);
    }
  }

  lemma FlushDone(f: Folder, i: nat)
    requires i >= |f.changed|
    ensures FlushLoop(f, i) == f && FlushLog(f, i) == []
  {
  }

  lemma ElementsOf(q: seq<nat>)
    ensures forall s :: s in Elements(q) <==> s in multiset(q)
  {
  }

  /** What the rest of the loop leaves to send is judged by the messages as they were. */
  lemma UnfinishedAfter(f: Folder, m: Message, s: nat)
    requires m.serial != s
    ensures Unfinished(Replace(f.messages, Flushed(m)), s) == Unfinished(f.messages, s)
  {
    hide Flushed, Fetch, Replace;
    FlushedSame(m);
    FetchReplaced(f.messages, Flushed(m), s);
  }

  lemma {:induction false} FlushLoopMessages(f: Folder, i: nat)
    requires Flushable(f) && i <= |f.changed|
    ensures var g := FlushLoop(f, i);
            g == f.(messages := FlushAll(f.messages, Elements(f.changed[i..])), changed := g.changed)
    decreases |f.changed| - i
  {
    hide FlushLoop, Visited, Flushed, Fetch, Replace, Elements, FlushAll, Distinct, NoRepeats;
    ElementsOf(f.changed[i..]);
    if i == |f.changed| {
      FlushDone(f, i);
      FlushNone(f.messages);
      assert f.changed[i..] == [];
    } else {
      VisitedUnfold(f, i);
      VisitedStep(f, i);
      var (h, next) := Visited(f, i);
      var m := Fetch(f.messages, f.changed[i]).value;
      FetchFrom(f.messages, f.changed[i]);
      FlushLoopMessages(h, next);
      ElementsOf(h.changed[next..]);
      assert Elements(f.changed[i..]) == Elements(h.changed[next..]) + {m.serial};
      FlushAllStep(f.messages, m, Elements(h.changed[next..]));
    }
  }

  lemma FlushableNoRepeats(f: Folder)
    requires Flushable(f)
    ensures NoRepeats(f.changed) && forall i :: 0 <= i < |f.changed| ==> Fetch(f.messages, f.changed[i]).Some?
  {
    assert forall i :: 0 <= i < |f.changed| ==> f.changed[i] in f.changed;
  }

  lemma {:induction false} FlushLoopQueue(f: Folder, i: nat)
    requires Flushable(f) && i <= |f.changed|
    ensures var q := FlushLoop(f, i).changed;
            && NoRepeats(q) && i <= |q| && q[..i] == f.changed[..i]
            && forall s :: s in multiset(q[i..]) <==> s in multiset(f.changed[i..]) && Unfinished(f.messages, s)
    decreases |f.changed| - i
  {
    hide FlushLoop, Visited, Flushed, Fetch, Replace, Unfinished, Flushable, NoRepeats;
    if i == |f.changed| {
      FlushDone(f, i);
      FlushableNoRepeats(f);
    } else {
      FlushableNoRepeats(f);
      VisitedUnfold(f, i);
      VisitedStep(f, i);
      var (h, next) := Visited(f, i);
      var m := Fetch(f.messages, f.changed[i]).value;
      FetchFrom(f.messages, f.changed[i]);
      FlushLoopQueue(h, next);
      var q := FlushLoop(f, i).changed;
      forall s | s != m.serial
        ensures Unfinished(h.messages, s) == Unfinished(f.messages, s)
      {
        UnfinishedAfter(f, m, s);
      }
      UnfinishedSelf(f.messages, m);
      if next == i + 1 { LongerPrefix(q, f.changed, i); }
    }
  }

  lemma LongerPrefix(q: seq<nat>, r: seq<nat>, i: nat)
    requires i < |q| && i < |r| && q[..i + 1] == r[..i + 1]
    ensures q[..i] == r[..i] && q[i] == r[i]
    ensures multiset(q[i..]) == multiset{r[i]} + multiset(q[i + 1..])
  {
    assert q[i] == q[..i + 1][i] && r[i] == r[..i + 1][i];
    assert q[..i] == q[..i + 1][..i] && r[..i] == r[..i + 1][..i];
    assert q[i..] == [q[i]] + q[i + 1..];
  }

  /**
   The flush loop, with its swap-with-last removals under a moving index: exactly the
   queued messages from position `i` on are flushed, once each, and exactly those of
   them with bits left to send stay queued.
   */
  lemma FlushLoopOutcome(f: Folder, i: nat)
    requires Flushable(f) && i <= |f.changed|
    ensures var g := FlushLoop(f, i);
            && g == f.(messages := g.messages, changed := g.changed)
            && g.messages == FlushAll(f.messages, Elements(f.changed[i..]))
            && NoRepeats(g.changed)
            && i <= |g.changed| && g.changed[..i] == f.changed[..i]
            && (forall s :: s in Elements(g.changed[i..]) <==>
                            s in Elements(f.changed[i..]) && Unfinished(f.messages, s))
  {
    hide FlushLoop, Flushable, Unfinished, FlushAll, Elements;
    FlushLoopMessages(f, i);
    FlushLoopQueue(f, i);
    ElementsOf(f.changed[i..]);
    ElementsOf(FlushLoop(f, i).changed[i..]);
  }

  lemma FlushNone(ms: seq<Message>)
    ensures FlushAll(ms, Elements([])) == ms
  {
  }

  lemma UnfinishedSelf(ms: seq<Message>, m: Message)
    requires Fetch(ms, m.serial) == Some(m)
    ensures Unfinished(ms, m.serial) <==> Flushed(m).changeMask != {}
  {
  }

  lemma FlushedSame(m: Message)
    ensures Flushed(m).serial == m.serial && Flushed(m).uid == m.uid && Flushed(m).href == m.href
  {
  }

  /** A message left in the queue by the flush loop still has something to send. */
  lemma FlushLoopQueued(f: Folder)
    requires Indexed(f) && Queued(f)
    ensures Queued(FlushLoop(f, 0))
  {
    hide Flushed;
    var g := FlushLoop(f, 0);
    forall s | s in f.changed
      ensures Fetch(f.messages, s).Some?
    {
      assert PendingIn(f.messages, s);
    }
    FlushLoopOutcome(f, 0);
    FlushLoopIndexed(f, 0);
    assert f.changed[0..] == f.changed && g.changed[0..] == g.changed;
    forall s | s in g.changed
      ensures PendingIn(g.messages, s)
    {
      assert s in Elements(g.changed[0..]);
      FetchFrom(f.messages, s);
      var m := Fetch(f.messages, s).value;
      FlushedSame(m);
      var k :| 0 <= k < |f.messages| && f.messages[k] == m;
      assert g.messages[k] == Flushed(m);
      FetchMember(g.messages, g.messages[k]);
    }
  }

  lemma FlushQueued(f: Folder, gone: seq<string>)
    requires Indexed(f) && Queued(f)
    ensures Queued(Flush(f, gone))
  {
    FlushLoopQueued(f);
    FlushLoopIndexed(f, 0);
  }

  // ---- what one flush visits -----------------------------------------------

  ghost function LogSerials(log: seq<Message>): seq<nat> {
    seq(|log|, i requires 0 <= i < |log| => log[i].serial)
  }

  /**
   The flush loop visits every queued message exactly once and finds it as the user
   left it: what is sent is what was pending when the flush began.
   */
  lemma {:induction false} FlushVisitsOnce(f: Folder, i: nat)
    requires Flushable(f) && i <= |f.changed|
    ensures multiset(LogSerials(FlushLog(f, i))) == multiset(f.changed[i..])
    ensures forall m <- FlushLog(f, i) :: m in f.messages
    decreases |f.changed| - i
  {
    hide FlushLog, Visited, Flushed, Fetch, Replace, Distinct, NoRepeats;
    if i == |f.changed| {
      FlushDone(f, i);
    } else {
      VisitedUnfold(f, i);
      VisitedStep(f, i);
      var (g, next) := Visited(f, i);
      var m := Fetch(f.messages, f.changed[i]).value;
      FetchFrom(f.messages, f.changed[i]);
      FlushVisitsOnce(g, next);
      var rest := FlushLog(g, next);
      assert LogSerials([m] + rest) == [m.serial] + LogSerials(rest);
      LogOrigins(f.messages, m, rest);
    }
  }

  /** What is visited after `m` has not been changed by visiting `m`. */
  lemma LogOrigins(ms: seq<Message>, m: Message, rest: seq<Message>)
    requires m.serial !in multiset(LogSerials(rest))
    requires forall x <- rest :: x in Replace(ms, Flushed(m))
    ensures forall x <- rest :: x in ms
  {
    hide Flushed, Replace;
    FlushedSame(m);
    forall x | x in rest
      ensures x in ms
    {
      LogMember(rest, x);
      ReplacedOther(ms, Flushed(m), x);
    }
  }

  lemma LogMember(log: seq<Message>, x: Message)
    requires x in log
    ensures x.serial in multiset(LogSerials(log))
  {
    var k :| 0 <= k < |log| && log[k] == x;
    assert LogSerials(log)[k] == x.serial;
  }

  lemma ReplacedOther(ms: seq<Message>, m: Message, x: Message)
    requires x in Replace(ms, m) && x.serial != m.serial
    ensures x in ms
  {
    var k :| 0 <= k < |ms| && Replace(ms, m)[k] == x;
    assert ms[k] == x;
  }

  /** The log holds exactly the queued messages. */
  lemma FlushLogMembers(f: Folder)
    requires Flushable(f)
    ensures forall m :: m in FlushLog(f, 0) <==> m in f.messages && m.serial in f.changed
  {
    hide FlushLog, Fetch;
    FlushVisitsOnce(f, 0);
    assert f.changed[0..] == f.changed;
    var log := FlushLog(f, 0);
    forall m | m in f.messages && m.serial in f.changed
      ensures m in log
    {
      assert m.serial in multiset(LogSerials(log));
      var k :| 0 <= k < |log| && LogSerials(log)[k] == m.serial;
      FetchMember(f.messages, m);
      FetchMember(f.messages, log[k]);
    }
    forall m | m in log
      ensures m.serial in f.changed
    {
      LogMember(log, m);
    }
  }

  /** Read-state marks are posted exactly when a queued message has such an edit. */
  lemma ReadMarksPosted(f: Folder)
    requires Flushable(f)
    ensures AnyReadEdit(f) <==> ReadMarks(FlushLog(f, 0), true) != [] || ReadMarks(FlushLog(f, 0), false) != []
  {
    FlushLogMembers(f);
    MarksFromLog(FlushLog(f, 0));
  }

  lemma {:induction false} MarksFromLog(log: seq<Message>)
    ensures (exists m <- log :: SEEN in m.changeMask) <==> ReadMarks(log, true) != [] || ReadMarks(log, false) != []
  {
    if log != [] {
      assert forall m :: m in log <==> m == log[0] || m in log[1..];
      MarksFromLog(log[1..]);
    }
  }

  // ---- what is posted for deletion -----------------------------------------

  lemma {:induction false} DeletionHrefsOf(ms: seq<Message>, q: seq<nat>, href: Option<string>)
    ensures href in DeletionHrefs(ms, q) <==>
            exists s <- q :: AsksDeletion(Fetch(ms, s)) && Fetch(ms, s).value.href == href
  {
    hide Fetch;
    if q != [] {
      var front, last := q[..|q| - 1], q[|q| - 1];
      assert q == front + [last];
      assert forall s :: s in q <==> s in front || s == last;
      DeletionHrefsOf(ms, front, href);
    }
  }

  /** Something is posted exactly when a queued message asks to be deleted. */
  lemma AnyDeleteIff(f: Folder)
    requires Distinct(f.messages)
    ensures AnyDelete(f) <==> DeletionHrefs(f.messages, f.changed) != []
  {
    hide Fetch, Distinct, DeletionHrefs;
    var hrefs := DeletionHrefs(f.messages, f.changed);
    if m :| m in f.messages && m.serial in f.changed && DELETED in m.changeMask * m.changeFlags {
      FetchMember(f.messages, m);
      DeletionHrefsOf(f.messages, f.changed, m.href);
    }
    if hrefs != [] {
      assert hrefs[0] in hrefs;
      DeletionHrefsOf(f.messages, f.changed, hrefs[0]);
      var s :| s in f.changed && AsksDeletion(Fetch(f.messages, s));
      FetchFrom(f.messages, s);
    }
  }

  lemma DeletionStays(m: Message)
    ensures DELETED in m.changeMask * m.changeFlags <==>
            DELETED in Flushed(m).changeMask * Flushed(m).changeFlags
    ensures DELETED in m.changeMask ==> Flushed(m).changeMask != {}
  {
    if DELETED in m.changeMask { assert DELETED in Flushed(m).changeMask; }
  }

  lemma LoopLeaves(f: Folder)
    requires Flushable(f)
    ensures var g := FlushLoop(f, 0);
            && Distinct(g.messages)
            && (forall m :: m in g.messages <==>
                              exists x <- f.messages :: m == if x.serial in f.changed then Flushed(x) else x)
            && (forall x <- f.messages :: x.serial in f.changed ==>
                                            (x.serial in g.changed <==> Flushed(x).changeMask != {}))
            && (forall s <- g.changed :: s in f.changed)
  {
    hide FlushLoop, Flushed, Fetch, Flushable;
    var g := FlushLoop(f, 0);
    FlushLoopOutcome(f, 0);
    assert f.changed[0..] == f.changed && g.changed[0..] == g.changed;
    assert forall s :: s in Elements(f.changed) <==> s in f.changed;
    assert forall s :: s in Elements(g.changed) <==> s in g.changed;
    assert Distinct(f.messages) by { FlushableDistinct(f); }
    forall x | x in f.messages
      ensures Flushed(x).serial == x.serial && (Unfinished(f.messages, x.serial) <==> Flushed(x).changeMask != {})
    {
      FlushedSame(x);
      FetchMember(f.messages, x);
      UnfinishedSelf(f.messages, x);
    }
    FlushedAt(f.messages, g.messages, Elements(f.changed));
  }

  lemma FlushableDistinct(f: Folder)
    requires Flushable(f)
    ensures Distinct(f.messages)
  {
  }

  lemma FlushedAt(ms: seq<Message>, ns: seq<Message>, serials: set<nat>)
    requires ns == FlushAll(ms, serials) && Distinct(ms)
    ensures Distinct(ns)
    ensures forall m :: m in ns <==> exists x <- ms :: m == if x.serial in serials then Flushed(x) else x
  {
    hide Flushed;
    forall i | 0 <= i < |ms|
      ensures ns[i] == (if ms[i].serial in serials then Flushed(ms[i]) else ms[i]) && ns[i].serial == ms[i].serial
    {
      FlushedSame(ms[i]);
    }
    forall x | x in ms
      ensures (if x.serial in serials then Flushed(x) else x) in ns
    {
      var i :| 0 <= i < |ms| && ms[i] == x;
      assert ns[i] in ns;
    }
    forall m | m in ns
      ensures exists x <- ms :: m == if x.serial in serials then Flushed(x) else x
    {
      var i :| 0 <= i < |ns| && ns[i] == m;
      assert ms[i] in ms;
    }
  }

  /**
   The hrefs posted for deletion after the flush loop are exactly those of the messages that
   were queued with a deletion when the flush began.
   */
  lemma DeletionsPosted(f: Folder, href: Option<string>)
    requires Flushable(f)
    ensures var g := FlushLoop(f, 0);
            href in DeletionHrefs(g.messages, g.changed) <==>
            exists m <- f.messages :: m.serial in f.changed && AsksDeletion(Some(m)) && m.href == href
  {
    hide FlushLoop, Flushed, Fetch, Flushable, DeletionHrefs, Distinct;
    var g := FlushLoop(f, 0);
    LoopLeaves(f);
    DeletionHrefsOf(g.messages, g.changed, href);
    forall x | x in f.messages
      ensures Flushed(x).serial == x.serial && Flushed(x).href == x.href
      ensures AsksDeletion(Some(x)) <==> AsksDeletion(Some(Flushed(x)))
      ensures AsksDeletion(Some(x)) ==> Flushed(x).changeMask != {}
    {
      FlushedSame(x);
      DeletionStays(x);
    }
    if m :| m in f.messages && m.serial in f.changed && AsksDeletion(Some(m)) && m.href == href {
      assert Flushed(m) in g.messages;
      FetchMember(g.messages, Flushed(m));
      assert m.serial in g.changed;
    }
    if s :| s in g.changed && AsksDeletion(Fetch(g.messages, s)) && Fetch(g.messages, s).value.href == href {
      FetchFrom(g.messages, s);
      var y := Fetch(g.messages, s).value;
      var x :| x in f.messages && y == if x.serial in f.changed then Flushed(x) else x;
      assert x.serial == s;
    }
  }
}
