/**
 Pending read-state edits and the server.  As long as what the server sends about a message
 does not contradict a read-state edit the user has pending on it, every pending edit agrees
 with the stored flag, over whole runs.
 */
module PendingAgreement {
  import opened Basics
  import opened MessageFlags
  import opened FolderState
  import opened FolderIndex
  import opened UserEdits

  /** No message has a pending read-state edit that disagrees with its stored flag. */
  ghost predicate Agreeing(f: Folder) {
    forall m <- f.messages :: !m.Conflicting()
  }

  // ---- what the server may send --------------------------------------------

  /** The rows contradict no edit pending on the message with their uid. */
  ghost predicate RowsHeed(f: Folder, rows: seq<Item>) {
    forall it <- rows, m <- f.messages ::
      it.Usable() && m.uid == it.uid.value ==> !Contradicts(it.flags, m.changeFlags, m.changeMask)
  }

  /** The listed read states contradict no edit pending on the message registered there. */
  ghost predicate ReadsHeed(f: Folder, listed: seq<Listed>) {
    forall l <- listed, m <- f.messages ::
      l.href in f.byHref && f.byHref[l.href] == m.serial && SEEN in m.changeMask ==> (SEEN in m.changeFlags) == l.read
  }

  /** Each row of a full listing contradicts no edit pending on the message it lands on. */
  ghost predicate ListingHeeds(ms: seq<Message>, m: nat, rest: seq<Message>, items: seq<Item>)
    requires m + |rest| <= |ms|
    decreases items
  {
    if rest == [] || items == [] then true
    else if !items[0].Usable() then ListingHeeds(ms, m, rest, items[1..])
    else
      var tail := DropUntil(rest, items[0].uid.value);
      tail == [] ||
      (var x := ms[Landing(ms, m, m + |tail|, tail[0].serial)];
       && !Contradicts(items[0].flags, x.changeFlags, x.changeMask)
       && ListingHeeds(ms, m + 1, tail[1..], items[1..]))
  }

  /** The server's part of an event contradicts no pending read-state edit. */
  ghost predicate Heeds(f: Folder, e: Event) {
    match e
    case Refreshed(rows, ok) => ok ==> RowsHeed(f, rows)
    case Opened(listing, _) =>
      var sorted := SortMessages(f.messages);
      assert |sorted| == |multiset(sorted)|;
      ListingHeeds(sorted, 0, sorted, listing)
    case Synced(_, _, listed) => ReadsHeed(f, listed)
    case _ => true
  }

  // ---- removals ------------------------------------------------------------

  lemma RemoveAtAgrees(f: Folder, k: nat)
    requires Agreeing(f) && k < |f.messages|
    ensures Agreeing(RemoveAt(f, k))
    ensures forall x <- RemoveAt(f, k).messages :: x in f.messages
  {
  }

  lemma MessageRemovedAgrees(f: Folder, href: string)
    requires Agreeing(f)
    ensures Agreeing(MessageRemoved(f, href))
    ensures forall x <- MessageRemoved(f, href).messages :: x in f.messages
  {
    hide BinarySearch, RemoveAt, Fetch, Agreeing;
    match FindByHref(f, href)
    case None =>
    case Some(m) =>
      var k := BinarySearch(f.messages, 0, |f.messages| - 1, m.serial);
      if k != -1 { RemoveAtAgrees(f, k); }
  }

  lemma {:induction false} RemovalsAgree(f: Folder, hrefs: seq<string>)
    requires Agreeing(f)
    ensures Agreeing(Removals(f, hrefs))
    decreases hrefs
  {
    if hrefs != [] {
      hide MessageRemoved;
      MessageRemovedAgrees(f, hrefs[0]);
      RemovalsAgree(CountDeleted(MessageRemoved(f, hrefs[0])), hrefs[1..]);
    }
  }

  // ---- refresh -------------------------------------------------------------

  /** After a row every message has the uid and the edits it had, or is new and has none. */
  lemma RowKeepsEdits(f: Folder, it: Item)
    requires Indexed(f) && it.Usable()
    ensures forall x <- RefreshItem(f, it).messages ::
              || (x.changeMask == {} && x.uid == it.uid.value)
              || exists m <- f.messages :: m.uid == x.uid
                                           && m.changeFlags == x.changeFlags && m.changeMask == x.changeMask
                                           && (x.flags == m.flags || (x.uid == it.uid.value && x.flags == it.flags))
  {
    hide Fetch, BinarySearch, RemoveFast, MessageRemoved, U32;
    FindNone(f, it.uid.value);
    var g := RefreshItem(f, it);
    match Find(f, it.uid.value)
    case Some(m) =>
      forall x | x in g.messages
        ensures exists m <- f.messages :: m.uid == x.uid
                                          && m.changeFlags == x.changeFlags && m.changeMask == x.changeMask
                                          && (x.flags == m.flags || (x.uid == it.uid.value && x.flags == it.flags))
      {
        var i :| 0 <= i < |g.messages| && g.messages[i] == x;
        assert f.messages[i] in f.messages;
        FetchMember(f.messages, f.messages[i]);
      }
    case None =>
      var cleared := if it.href in f.byHref then MessageRemoved(CountDeleted(f), it.href) else f;
      RemovedSubset(f, it.href);
      assert forall x <- cleared.messages :: x in f.messages;
  }

  lemma RemovedSubset(f: Folder, href: string)
    ensures forall x <- MessageRemoved(CountDeleted(f), href).messages :: x in f.messages
  {
    hide BinarySearch, Fetch;
  }

  lemma RefreshItemAgrees(f: Folder, rows: seq<Item>)
    requires Indexed(f) && Agreeing(f) && rows != [] && (forall it <- rows :: it.Usable()) && RowsHeed(f, rows)
    ensures Agreeing(RefreshItem(f, rows[0])) && RowsHeed(RefreshItem(f, rows[0]), rows[1..])
  {
    hide Indexed, RefreshItem;
    assert rows[0] in rows && forall it <- rows[1..] :: it in rows;
    RowKeepsEdits(f, rows[0]);
  }

  lemma {:induction false} RefreshItemsAgree(f: Folder, rows: seq<Item>)
    requires Indexed(f) && Agreeing(f) && (forall it <- rows :: it.Usable()) && RowsHeed(f, rows)
    ensures Agreeing(RefreshItems(f, rows))
    decreases rows
  {
    hide Indexed, RefreshItem, RowsHeed, Agreeing;
    if rows != [] {
      RefreshItemAgrees(f, rows);
      RefreshItemIndexed(f, rows[0]);
      RefreshItemsAgree(RefreshItem(f, rows[0]), rows[1..]);
    }
  }

  // ---- deletion sync -------------------------------------------------------

  lemma ReadStateAgrees(f: Folder, listed: seq<Listed>, m: Message)
    requires Indexed(f) && Agreeing(f) && listed != [] && ReadsHeed(f, listed)
    requires FindByHref(f, listed[0].href) == Some(m) && m in f.messages
    ensures var g := if (SEEN in m.flags) != listed[0].read then ChangeFlags(f, m, FlipSeen(m.flags)) else f;
            Agreeing(g) && ReadsHeed(g, listed[1..])
  {
    hide Fetch, Position, U32;
    assert listed[0] in listed && forall l <- listed[1..] :: l in listed;
    FetchFrom(f.messages, f.byHref[listed[0].href]);
    var g := if (SEEN in m.flags) != listed[0].read then ChangeFlags(f, m, FlipSeen(m.flags)) else f;
    assert g.byHref == f.byHref;
    forall x | x in g.messages
      ensures x in f.messages || x == m.(flags := FlipSeen(m.flags))
    {
      var i :| 0 <= i < |g.messages| && g.messages[i] == x;
    }
  }

  lemma {:induction false} MarkListedAgrees(f: Folder, listed: seq<Listed>)
    requires Indexed(f) && Agreeing(f) && ReadsHeed(f, listed)
    ensures Agreeing(MarkListed(f, listed))
    decreases listed
  {
    hide Indexed, Fetch, ChangeFlags, ReadsHeed, Agreeing;
    if listed != [] {
      match FindByHref(f, listed[0].href) {
        case None =>
          LaterReadsHeed(f, listed);
          MarkListedAgrees(f, listed[1..]);
        case Some(m) =>
          FetchFrom(f.messages, f.byHref[listed[0].href]);
          var g := if (SEEN in m.flags) != listed[0].read then ChangeFlags(f, m, FlipSeen(m.flags)) else f;
          ReadStateAgrees(f, listed, m);
          ChangeFlagsIndexed(f, m, FlipSeen(m.flags));
          MarkListedAgrees(g, listed[1..]);
      }
    }
  }

  lemma LaterReadsHeed(f: Folder, listed: seq<Listed>)
    requires listed != [] && ReadsHeed(f, listed)
    ensures ReadsHeed(f, listed[1..])
  {
    assert forall l <- listed[1..] :: l in listed;
  }

  lemma {:induction false} RemoveUnknownAgrees(f: Folder, known: set<nat>, k: int)
    requires Agreeing(f) && -1 <= k < |f.messages|
    ensures Agreeing(RemoveUnknown(f, known, k))
    decreases k + 1
  {
    if k >= 0 {
      if f.messages[k].serial in known {
        RemoveUnknownAgrees(f, known, k - 1);
      } else {
        RemoveAtAgrees(CountDeleted(f), k);
        RemoveUnknownAgrees(RemoveAt(CountDeleted(f), k), known, k - 1);
      }
    }
  }

  lemma SyncDeletionsAgrees(f: Folder, deleted: int, visible: int, listed: seq<Listed>)
    requires Indexed(f) && Agreeing(f) && ReadsHeed(f, listed)
    ensures Agreeing(SyncDeletions(f, deleted, visible, listed))
  {
    hide Indexed, MarkListed, RemoveUnknown, Known, U32;
    MarkListedAgrees(f, listed);
    var g := MarkListed(f, listed);
    RemoveUnknownAgrees(g, Known(f, listed), |g.messages| - 1);
  }

  // ---- full listing --------------------------------------------------------

  /** The messages differ at most in flags and hrefs. */
  ghost predicate SameEdits(ms: seq<Message>, ns: seq<Message>) {
    |ms| == |ns| && forall i :: 0 <= i < |ms| ==>
      ms[i].serial == ns[i].serial && ms[i].changeFlags == ns[i].changeFlags && ms[i].changeMask == ns[i].changeMask
  }

  lemma SamePosition(ms: seq<Message>, ns: seq<Message>, m: nat, copyLen: nat, serial: nat)
    requires SameEdits(ms, ns) && m < |ms| && 0 < copyLen <= |ms|
    ensures Landing(ms, m, copyLen, serial) == Landing(ns, m, copyLen, serial)
  {
    var a, b := Position(ms[..copyLen], serial), Position(ns[..copyLen], serial);
    assert forall i :: 0 <= i < copyLen ==> ms[..copyLen][i].serial == ns[..copyLen][i].serial;
    assert a < copyLen ==> ns[..copyLen][a].serial == serial;
    assert b < copyLen ==> ms[..copyLen][b].serial == serial;
  }

  lemma LandAgrees(f: Folder, k: nat, it: Item)
    requires Agreeing(f) && Distinct(f.messages) && k < |f.messages|
    requires !Contradicts(it.flags, f.messages[k].changeFlags, f.messages[k].changeMask)
    ensures Agreeing(Land(f, k, it)) && SameEdits(f.messages, Land(f, k, it).messages)
    ensures Distinct(Land(f, k, it).messages)
  {
    var m, g := f.messages[k], Land(f, k, it);
    forall i | 0 <= i < |f.messages|
      ensures g.messages[i] == f.messages[i] || (g.messages[i].flags == it.flags && i == k)
              || (i == k && g.messages[i].flags == m.flags)
      ensures g.messages[i].serial == f.messages[i].serial && g.messages[i].changeFlags == f.messages[i].changeFlags
      ensures g.messages[i].changeMask == f.messages[i].changeMask
    {
    }
  }

  lemma {:induction false} MatchItemsAgree(f: Folder, ms: seq<Message>, m: nat, rest: seq<Message>, items: seq<Item>)
    requires Agreeing(f) && Distinct(f.messages) && SameEdits(ms, f.messages) && m + |rest| <= |ms|
    requires ListingHeeds(ms, m, rest, items)
    ensures Agreeing(MatchItems(f, m, rest, items))
    decreases items
  {
    hide Agreeing, Distinct, Land, Landing, DropUntil;
    if rest != [] && items != [] {
      if !items[0].Usable() {
        MatchItemsAgree(f, ms, m, rest, items[1..]);
      } else {
        var tail := DropUntil(rest, items[0].uid.value);
        if tail != [] {
          var k := Landing(f.messages, m, m + |tail|, tail[0].serial);
          SamePosition(ms, f.messages, m, m + |tail|, tail[0].serial);
          LandAgrees(f, k, items[0]);
          MatchItemsAgree(Land(f, k, items[0]), ms, m + 1, tail[1..], items[1..]);
        }
      }
    }
  }

  lemma GetContentsAgrees(f: Folder, listing: seq<Item>, ok: bool)
    requires Indexed(f) && Agreeing(f) && Heeds(f, Opened(listing, ok))
    ensures Agreeing(GetContents(f, listing, ok))
  {
    hide MatchItems, ListingHigh, ListingHeeds;
    var sorted := SortMessages(f.messages);
    assert |sorted| == |multiset(sorted)|;
    PermutedDistinct(f.messages, sorted);
    forall m | m in sorted
      ensures !m.Conflicting()
    {
      assert m in multiset(f.messages);
    }
    MatchItemsAgree(f.(messages := sorted), sorted, 0, sorted, listing);
  }

  // ---- the user's side -----------------------------------------------------

  lemma ReplaceAgrees(f: Folder, m: Message, g: Folder)
    requires Agreeing(f) && !m.Conflicting() && g.messages == Replace(f.messages, m)
    ensures Agreeing(g)
  {
    forall x | x in g.messages
      ensures !x.Conflicting()
    {
      var i :| 0 <= i < |g.messages| && g.messages[i] == x;
      assert f.messages[i] in f.messages;
    }
  }

  lemma SetFlagsAgrees(f: Folder, uid: string, flags: Word, mask: Word)
    requires Indexed(f) && Agreeing(f)
    ensures Agreeing(SetFlags(f, uid, flags, mask))
  {
    hide Indexed, Edited, Fetch, Replace, EditedMask;
    FindNone(f, uid);
    match Find(f, uid)
    case None =>
    case Some(m) =>
      EditedKeepsAgreement(m, flags, mask);
      ReplaceAgrees(f, Edited(m, flags, mask), SetFlags(f, uid, flags, mask));
  }

  lemma SetTagAgrees(f: Folder, uid: string, name: string, value: Option<string>)
    requires Indexed(f) && Agreeing(f)
    ensures Agreeing(SetTag(f, uid, name, value))
  {
    hide Indexed, Fetch, Replace;
    FindNone(f, uid);
    match Find(f, uid)
    case None =>
    case Some(m) =>
      var tags := if value.Some? then m.tags[name := value.value] else Without(m.tags, name);
      ReplaceAgrees(f, m.(tags := tags), SetTag(f, uid, name, value));
  }

  lemma FlushedAgrees(m: Message)
    ensures !Flushed(m).Conflicting()
  {
  }

  lemma {:induction false} FlushLoopAgrees(f: Folder, i: nat)
    requires Agreeing(f)
    ensures Agreeing(FlushLoop(f, i))
    decreases |f.changed| - i
  {
    hide Flushed, Fetch, Agreeing, Replace;
    if i < |f.changed| {
      match Fetch(f.messages, f.changed[i]) {
        case None => FlushLoopAgrees(f, i + 1);
        case Some(m) =>
          var g := f.(messages := Replace(f.messages, Flushed(m)));
          FlushedAgrees(m);
          ReplaceAgrees(f, Flushed(m), g);
          if Flushed(m).changeMask == {} {
            QueueAside(g, RemoveFastAt(g.changed, i));
            FlushLoopAgrees(g.(changed := RemoveFastAt(g.changed, i)), i);
          } else {
            FlushLoopAgrees(g, i + 1);
          }
      }
    }
  }

  lemma QueueAside(f: Folder, changed: seq<nat>)
    requires Agreeing(f)
    ensures Agreeing(f.(changed := changed))
  {
  }

  lemma FlushAgrees(f: Folder, gone: seq<string>)
    requires Agreeing(f)
    ensures Agreeing(Flush(f, gone))
  {
    hide FlushLoop, Removals, AnyReadEdit, AnyDelete;
    FlushLoopAgrees(f, 0);
    RemovalsAgree(FlushLoop(f, 0), gone);
  }

  // ---- steps and runs ------------------------------------------------------

  lemma RefreshAgrees(f: Folder, rows: seq<Item>, ok: bool)
    requires Indexed(f) && Agreeing(f) && (ok ==> RowsHeed(f, rows))
    ensures Agreeing(Refresh(f, rows, ok))
  {
    hide Indexed, Agreeing, RefreshItems;
    if ok {
      var items := SortItems(FolderState.Usable(rows));
      forall it | it in items
        ensures it in FolderState.Usable(rows)
      {
        assert it in multiset(FolderState.Usable(rows));
      }
      RefreshItemsAgree(f, items);
    }
  }

  /** An event in which the server contradicts no pending read-state edit keeps them all in agreement. */
  lemma StepAgrees(f: Folder, e: Event)
    requires Indexed(f) && Agreeing(f) && Heeds(f, e)
    ensures Agreeing(Step(f, e))
  {
    hide Indexed, GetContents, Refresh, Removals, MessageRemoved, SyncDeletions, SetFlags, SetTag, Flush;
    match e
    case Refreshed(rows, ok) => RefreshAgrees(f, rows, ok);
    case Opened(listing, ok) => GetContentsAgrees(f, listing, ok);
    case Synced(deleted, visible, listed) => SyncDeletionsAgrees(f, deleted, visible, listed);
    case Removed(hrefs) => RemovalsAgree(f, hrefs);
    case Vanished(href) => MessageRemovedAgrees(f, href);
    case FlagsSet(uid, flags, mask) => SetFlagsAgrees(f, uid, flags, mask);
    case TagSet(uid, name, value) => SetTagAgrees(f, uid, name, value);
    case FlagsSent(gone) => FlushAgrees(f, gone);
    case Reconnected(_) =>
  }

  lemma {:induction false} LoadAgrees(f: Folder, rows: seq<Row>)
    requires Agreeing(f)
    ensures Agreeing(LoadRows(f, rows))
    decreases rows
  {
    if rows != [] {
      var href := if rows[0].href == Some("") then None else rows[0].href;
      LoadAgrees(Add(f, rows[0].uid, href, rows[0].flags), rows[1..]);
    }
  }
}
