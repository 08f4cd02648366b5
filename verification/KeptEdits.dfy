/**
 The server and a user's unsent edits.  Whatever the server reports, no pending edit changes,
 and a queued message stays queued as long as it is in the folder.
 */
module KeptEdits {
  import opened Basics
  import opened MessageFlags
  import opened FolderState
  import opened FolderIndex

  /** The same message with the same edits pending. */
  predicate SamePending(x: Message, m: Message) {
    && x.serial == m.serial && x.uid == m.uid
    && x.changeFlags == m.changeFlags && x.changeMask == m.changeMask && x.tags == m.tags
  }

  /** A message that was there before, its pending edits untouched, or a new one with none. */
  ghost predicate Carried(f: Folder, m: Message) {
    (m.serial >= f.nextSerial && !m.Pending()) || exists x <- f.messages :: SamePending(x, m)
  }

  ghost predicate Gone(g: Folder, serial: nat) {
    forall m <- g.messages :: m.serial != serial
  }

  ghost predicate KeepsEdits(f: Folder, g: Folder) {
    && f.nextSerial <= g.nextSerial
    && (forall m <- g.messages :: Carried(f, m))
    && (forall s <- f.changed :: s in g.changed || Gone(g, s))
    && (forall s <- g.changed :: s in f.changed)
  }

  lemma KeepsSame(f: Folder, g: Folder)
    requires f.nextSerial <= g.nextSerial && g.changed == f.changed
    requires forall m <- g.messages :: exists x <- f.messages :: SamePending(x, m)
    ensures KeepsEdits(f, g)
  {
  }

  lemma KeepsItself(f: Folder)
    ensures KeepsEdits(f, f)
  {
    assert forall m <- f.messages :: SamePending(m, m);
  }

  lemma KeepsThen(f: Folder, g: Folder, h: Folder)
    requires QueueBounded(f) && KeepsEdits(f, g) && KeepsEdits(g, h)
    ensures KeepsEdits(f, h)
  {
    forall m | m in h.messages
      ensures Carried(f, m)
    {
      assert Carried(g, m);
      if x :| x in g.messages && SamePending(x, m) {
        assert Carried(f, x);
        if y :| y in f.messages && SamePending(y, x) { assert SamePending(y, m); }
      }
    }
    forall s | s in f.changed && s !in h.changed
      ensures Gone(h, s)
    {
      if s !in g.changed {
        forall m | m in h.messages
          ensures m.serial != s
        {
          assert Carried(g, m);
        }
      }
    }
  }

  // ---- primitive updates ---------------------------------------------------

  lemma RemoveAtKeeps(f: Folder, k: nat)
    requires Indexed(f) && k < |f.messages|
    ensures KeepsEdits(f, RemoveAt(f, k))
  {
    hide Fetch, RemoveFast;
    var g, m := RemoveAt(f, k), f.messages[k];
    RemovedMembers(f.messages, k);
    RemoveFastMembers(f.changed, m.serial);
    forall x | x in g.messages
      ensures x.serial != m.serial && SamePending(x, x)
    {
      FetchMember(f.messages, x);
      FetchMember(f.messages, m);
    }
  }

  lemma OverwriteKeeps(f: Folder, m: Message, e: Message, g: Folder)
    requires Indexed(f) && m in f.messages && SamePending(m, e)
    requires g.messages == Replace(f.messages, e) && g.changed == f.changed && g.nextSerial == f.nextSerial
    ensures KeepsEdits(f, g)
  {
    hide UidsSound, HrefsSound, Fetch;
    forall x | x in g.messages
      ensures exists y <- f.messages :: SamePending(y, x)
    {
      var i :| 0 <= i < |g.messages| && g.messages[i] == x;
      FetchMember(f.messages, f.messages[i]);
      FetchMember(f.messages, m);
      assert SamePending(f.messages[i], x);
    }
    KeepsSame(f, g);
  }

  lemma ChangeFlagsKeeps(f: Folder, m: Message, flags: Word)
    requires Indexed(f) && m in f.messages
    ensures KeepsEdits(f, ChangeFlags(f, m, flags))
  {
    hide Indexed, U32;
    OverwriteKeeps(f, m, m.(flags := flags), ChangeFlags(f, m, flags));
  }

  lemma AddKeeps(f: Folder, uid: string, href: Option<string>, flags: Word)
    ensures KeepsEdits(f, Add(f, uid, href, flags))
  {
    hide U32;
    var g := Add(f, uid, href, flags);
    assert forall m <- f.messages :: SamePending(m, m);
  }

  lemma CountKeeps(f: Folder)
    ensures KeepsEdits(f, CountDeleted(f))
  {
    KeepsItself(f);
  }

  lemma MessageRemovedKeeps(f: Folder, href: string)
    requires Indexed(f)
    ensures KeepsEdits(f, MessageRemoved(f, href))
  {
    hide BinarySearch, RemoveAt, Indexed, Fetch, KeepsEdits;
    KeepsItself(f);
    match FindByHref(f, href)
    case None =>
    case Some(m) =>
      var k := BinarySearch(f.messages, 0, |f.messages| - 1, m.serial);
      if k != -1 { RemoveAtKeeps(f, k); }
  }

  lemma {:induction false} RemovalsKeepEdits(f: Folder, hrefs: seq<string>)
    requires Indexed(f)
    ensures KeepsEdits(f, Removals(f, hrefs))
    decreases hrefs
  {
    hide Indexed, KeepsEdits, MessageRemoved;
    if hrefs == [] {
      KeepsItself(f);
    } else {
      var one := MessageRemoved(f, hrefs[0]);
      MessageRemovedKeeps(f, hrefs[0]);
      MessageRemovedIndexed(f, hrefs[0]);
      SameTables(one, CountDeleted(one));
      CountKeeps(one);
      IndexedQueue(f);
      KeepsThen(f, one, CountDeleted(one));
      RemovalsKeepEdits(CountDeleted(one), hrefs[1..]);
      KeepsThen(f, CountDeleted(one), Removals(f, hrefs));
    }
  }

  // ---- refresh -------------------------------------------------------------

  lemma HighKeeps(f: Folder, g: Folder, high: nat)
    requires KeepsEdits(f, g)
    ensures KeepsEdits(f, g.(highArticle := high))
  {
  }

  lemma RefreshItemKeeps(f: Folder, it: Item)
    requires Indexed(f) && it.Usable()
    ensures KeepsEdits(f, RefreshItem(f, it))
  {
    hide Indexed, KeepsEdits, MessageRemoved, Add, ChangeFlags, Find;
    FindNone(f, it.uid.value);
    KeepsItself(f);
    IndexedQueue(f);
    match Find(f, it.uid.value)
    case Some(m) =>
      ChangeFlagsKeeps(f, m, it.flags);
      var g := if it.flags != m.flags then ChangeFlags(f, m, it.flags) else f;
      HighKeeps(f, g, Max(g.highArticle, it.article.value));
    case None =>
      var c := CountDeleted(f);
      var cleared := if it.href in f.byHref then MessageRemoved(c, it.href) else f;
      SameTables(f, c);
      CountKeeps(f);
      MessageRemovedKeeps(c, it.href);
      KeepsThen(f, c, MessageRemoved(c, it.href));
      AddKeeps(cleared, it.uid.value, Some(it.href), it.flags);
      var g := Add(cleared, it.uid.value, Some(it.href), it.flags);
      KeepsThen(f, cleared, g);
      HighKeeps(f, g, Max(g.highArticle, it.article.value));
  }

  lemma {:induction false} RefreshItemsKeep(f: Folder, items: seq<Item>)
    requires Indexed(f) && forall it <- items :: it.Usable()
    ensures KeepsEdits(f, RefreshItems(f, items))
    decreases items
  {
    hide Indexed, KeepsEdits, RefreshItem;
    if items == [] {
      KeepsItself(f);
    } else {
      var g := RefreshItem(f, items[0]);
      RefreshItemKeeps(f, items[0]);
      RefreshItemIndexed(f, items[0]);
      RefreshItemsKeep(g, items[1..]);
      IndexedQueue(f);
      KeepsThen(f, g, RefreshItems(f, items));
    }
  }

  // ---- deletion sync -------------------------------------------------------

  lemma {:induction false} MarkListedKeeps(f: Folder, listing: seq<Listed>)
    requires Indexed(f)
    ensures KeepsEdits(f, MarkListed(f, listing))
    decreases listing
  {
    hide Indexed, Fetch, ChangeFlags, KeepsEdits;
    KeepsItself(f);
    if listing != [] {
      match FindByHref(f, listing[0].href) {
        case None => MarkListedKeeps(f, listing[1..]);
        case Some(m) =>
          FetchFrom(f.messages, f.byHref[listing[0].href]);
          var g := if (SEEN in m.flags) != listing[0].read then ChangeFlags(f, m, FlipSeen(m.flags)) else f;
          ChangeFlagsKeeps(f, m, FlipSeen(m.flags));
          ChangeFlagsIndexed(f, m, FlipSeen(m.flags));
          MarkListedKeeps(g, listing[1..]);
          IndexedQueue(f);
          KeepsThen(f, g, MarkListed(g, listing[1..]));
      }
    }
  }

  lemma {:induction false} RemoveUnknownKeeps(f: Folder, known: set<nat>, k: int)
    requires Indexed(f) && -1 <= k < |f.messages|
    ensures KeepsEdits(f, RemoveUnknown(f, known, k))
    decreases k + 1
  {
    hide Indexed, KeepsEdits, RemoveAt;
    if k < 0 {
      KeepsItself(f);
    } else if f.messages[k].serial in known {
      RemoveUnknownKeeps(f, known, k - 1);
    } else {
      var c := CountDeleted(f);
      SameTables(f, c);
      CountKeeps(f);
      RemoveAtKeeps(c, k);
      RemoveAtIndexed(c, k);
      IndexedQueue(f);
      KeepsThen(f, c, RemoveAt(c, k));
      OneShorter(c, k);
      RemoveUnknownKeeps(RemoveAt(c, k), known, k - 1);
      KeepsThen(f, RemoveAt(c, k), RemoveUnknown(f, known, k));
    }
  }

  lemma OneShorter(f: Folder, k: nat)
    requires k < |f.messages|
    ensures |RemoveAt(f, k).messages| == |f.messages| - 1
  {
  }

  lemma SyncDeletionsKeeps(f: Folder, deleted: int, visible: int, listed: seq<Listed>)
    requires Indexed(f)
    ensures KeepsEdits(f, SyncDeletions(f, deleted, visible, listed))
  {
    hide Indexed, KeepsEdits, MarkListed, RemoveUnknown, Known, U32;
    var g := MarkListed(f, listed);
    MarkListedKeeps(f, listed);
    MarkListedIndexed(f, listed);
    RemoveUnknownKeeps(g, Known(f, listed), |g.messages| - 1);
    IndexedQueue(f);
    KeepsThen(f, g, RemoveUnknown(g, Known(f, listed), |g.messages| - 1));
    CounterKeeps(f, U32(deleted));
    KeepsItself(f);
  }

  lemma CounterKeeps(f: Folder, n: nat)
    ensures KeepsEdits(f, f.(deletedCount := n))
  {
    KeepsItself(f);
  }

  // ---- full listing --------------------------------------------------------

  lemma LandKeeps(f: Folder, k: nat, it: Item)
    requires Indexed(f) && k < |f.messages|
    ensures KeepsEdits(f, Land(f, k, it))
  {
    hide Indexed, KeepsEdits, ChangeFlags;
    var m := f.messages[k];
    IndexedQueue(f);
    KeepsItself(f);
    if m.href.None? {
      var e := m.(href := Some(it.href));
      var g := SetHref(f, m, it.href);
      SetHrefIndexed(f, m, it.href);
      OverwriteKeeps(f, m, e, g);
      assert g.messages[k] == e;
      ChangeFlagsKeeps(g, e, it.flags);
      KeepsThen(f, g, ChangeFlags(g, e, it.flags));
    } else {
      ChangeFlagsKeeps(f, m, it.flags);
    }
  }

  lemma {:induction false} MatchItemsKeep(f: Folder, m: nat, rest: seq<Message>, items: seq<Item>)
    requires Indexed(f) && m + |rest| <= |f.messages|
    ensures KeepsEdits(f, MatchItems(f, m, rest, items))
    decreases items
  {
    hide Indexed, KeepsEdits, Land, Landing, DropUntil;
    KeepsItself(f);
    if rest != [] && items != [] {
      if !items[0].Usable() {
        MatchItemsKeep(f, m, rest, items[1..]);
      } else {
        var tail := DropUntil(rest, items[0].uid.value);
        if tail != [] {
          var k := Landing(f.messages, m, m + |tail|, tail[0].serial);
          var g := Land(f, k, items[0]);
          LandKeeps(f, k, items[0]);
          LandIndexed(f, k, items[0]);
          MatchItemsKeep(g, m + 1, tail[1..], items[1..]);
          IndexedQueue(f);
          KeepsThen(f, g, MatchItems(g, m + 1, tail[1..], items[1..]));
        }
      }
    }
  }

  lemma GetContentsKeeps(f: Folder, listing: seq<Item>, ok: bool)
    requires Indexed(f)
    ensures KeepsEdits(f, GetContents(f, listing, ok))
  {
    hide Indexed, MatchItems, ListingHigh, KeepsEdits;
    var sorted := SortMessages(f.messages);
    assert |sorted| == |multiset(sorted)|;
    var g := f.(messages := sorted);
    PermutedIndexed(f, sorted);
    forall m | m in sorted
      ensures exists x <- f.messages :: SamePending(x, m)
    {
      assert m in multiset(f.messages);
      assert SamePending(m, m);
    }
    KeepsSame(f, g);
    MatchItemsKeep(g, 0, sorted, listing);
    var h := MatchItems(g, 0, sorted, listing);
    IndexedQueue(f);
    KeepsThen(f, g, h);
    HighKeeps(f, h, GetContents(f, listing, ok).highArticle);
  }

  // ---- everything the server reports ---------------------------------------

  predicate FromServer(e: Event) {
    e.Refreshed? || e.Opened? || e.Synced? || e.Removed? || e.Vanished?
  }

  /**
   Nothing the server reports touches a pending edit: every message left has the edits pending
   that it had, new messages have none, and the queue loses exactly messages that are gone.
   */
  lemma ServerKeepsEdits(f: Folder, e: Event)
    requires Indexed(f) && FromServer(e)
    ensures KeepsEdits(f, Step(f, e))
  {
    hide Indexed, KeepsEdits, GetContents, RefreshItems, Removals, MessageRemoved, SyncDeletions;
    match e
    case Refreshed(rows, ok) =>
      KeepsItself(f);
      RefreshItemsKeep(f, SortItems(FolderState.Usable(rows)));
    case Opened(listing, ok) => GetContentsKeeps(f, listing, ok);
    case Synced(deleted, visible, listed) => SyncDeletionsKeeps(f, deleted, visible, listed);
    case Removed(hrefs) => RemovalsKeepEdits(f, hrefs);
    case Vanished(href) => MessageRemovedKeeps(f, href);
    case _ =>
  }
}
