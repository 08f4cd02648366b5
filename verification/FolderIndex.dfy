/**
 Index agreement: `messages` holds every message once, `messages_by_uid` is in
 one-to-one correspondence with it, and `messages_by_href` is sound.  Every
 operation keeps this, whatever the server answers.
 */
module FolderIndex {
  import opened Basics
  import opened MessageFlags
  import opened FolderState

  ghost predicate Distinct(ms: seq<Message>) {
    forall i, j :: 0 <= i < j < |ms| ==> ms[i].serial != ms[j].serial
  }

  /** The serial number leads to a message of the array that bears the uid. */
  ghost predicate BearsUid(ms: seq<Message>, serial: nat, uid: string) {
    var m := Fetch(ms, serial);
    m.Some? && m.value.uid == uid
  }

  ghost predicate BearsHref(ms: seq<Message>, serial: nat, href: string) {
    var m := Fetch(ms, serial);
    m.Some? && m.value.href == Some(href)
  }

  /** Every message of the array is there once and registered under its uid. */
  ghost predicate Stored(f: Folder) {
    && Distinct(f.messages)
    && (forall m <- f.messages :: m.serial < f.nextSerial)
    && (forall m <- f.messages :: m.uid in f.byUid && f.byUid[m.uid] == m.serial)
  }

  ghost predicate UidsSound(f: Folder) {
    forall u <- f.byUid :: BearsUid(f.messages, f.byUid[u], u)
  }

  ghost predicate HrefsSound(f: Folder) {
    forall h <- f.byHref :: BearsHref(f.messages, f.byHref[h], h)
  }

  ghost predicate QueueBounded(f: Folder) {
    forall s <- f.changed :: s < f.nextSerial
  }

  ghost predicate Indexed(f: Folder) {
    Stored(f) && UidsSound(f) && HrefsSound(f) && QueueBounded(f)
  }

  // ---- fetching after an update --------------------------------------------

  lemma FetchMember(ms: seq<Message>, m: Message)
    requires Distinct(ms) && m in ms
    ensures Fetch(ms, m.serial) == Some(m)
  {
    var i :| 0 <= i < |ms| && ms[i] == m;
    assert Position(ms, m.serial) <= i;
  }

  lemma FetchFrom(ms: seq<Message>, serial: nat)
    ensures Fetch(ms, serial).Some? ==> Fetch(ms, serial).value in ms && Fetch(ms, serial).value.serial == serial
    ensures Fetch(ms, serial).None? <==> forall m <- ms :: m.serial != serial
  {
  }

  lemma FetchReplaced(ms: seq<Message>, m: Message, serial: nat)
    ensures Fetch(Replace(ms, m), serial) ==
            if serial == m.serial && Fetch(ms, serial).Some? then Some(m) else Fetch(ms, serial)
  {
    var rs := Replace(ms, m);
    assert forall i :: 0 <= i < |ms| ==> rs[i].serial == ms[i].serial;
    assert Position(rs, serial) == Position(ms, serial);
  }

  lemma FetchAppended(ms: seq<Message>, m: Message, serial: nat)
    ensures Fetch(ms + [m], serial) ==
            if Fetch(ms, serial).Some? then Fetch(ms, serial) else if serial == m.serial then Some(m) else None
  {
    var k := Position(ms, serial);
    assert k < |ms| ==> (ms + [m])[k] == ms[k];
    assert (ms + [m])[|ms|] == m;
  }

  lemma RemovedMembers(ms: seq<Message>, k: nat)
    requires k < |ms| && Distinct(ms)
    ensures Distinct(ms[..k] + ms[k + 1..])
    ensures forall m :: m in ms[..k] + ms[k + 1..] <==> m in ms && m != ms[k]
  {
    var r := ms[..k] + ms[k + 1..];
    forall m | m in ms && m != ms[k]
      ensures m in r
    {
      var i :| 0 <= i < |ms| && ms[i] == m;
      assert r[if i < k then i else i - 1] == m;
    }
  }

  lemma FetchRemoved(ms: seq<Message>, k: nat, serial: nat)
    requires k < |ms| && Distinct(ms)
    ensures Fetch(ms[..k] + ms[k + 1..], serial) ==
            if serial == ms[k].serial then None else Fetch(ms, serial)
  {
    var r := ms[..k] + ms[k + 1..];
    RemovedMembers(ms, k);
    FetchFrom(ms, serial);
    FetchFrom(r, serial);
    FetchMember(ms, ms[k]);
    if serial != ms[k].serial && Fetch(ms, serial).Some? {
      FetchMember(r, Fetch(ms, serial).value);
    }
  }

  lemma FetchPermuted(ms: seq<Message>, ns: seq<Message>, serial: nat)
    requires Distinct(ms) && multiset(ns) == multiset(ms)
    ensures Distinct(ns)
    ensures Fetch(ns, serial) == Fetch(ms, serial)
  {
    PermutedDistinct(ms, ns);
    FetchFrom(ms, serial);
    FetchFrom(ns, serial);
    forall m
      ensures m in ns <==> m in ms
    {
      assert m in ns <==> m in multiset(ns);
    }
    if Fetch(ms, serial).Some? { FetchMember(ns, Fetch(ms, serial).value); }
  }

  lemma PermutedDistinct(ms: seq<Message>, ns: seq<Message>)
    requires Distinct(ms) && multiset(ns) == multiset(ms)
    ensures Distinct(ns)
  {
    forall i, j | 0 <= i < j < |ns| && ns[i].serial == ns[j].serial
      ensures false
    {
      assert ns[i] in multiset(ns) && ns[j] in multiset(ns);
      FetchMember(ms, ns[i]);
      FetchMember(ms, ns[j]);
      OnlyOnce(ms, ns[i]);
      TwiceCounted(ns, i, j);
    }
  }

  lemma TwiceCounted(ns: seq<Message>, i: nat, j: nat)
    requires i < j < |ns| && ns[i] == ns[j]
    ensures multiset(ns)[ns[i]] >= 2
  {
    assert ns == ns[..i] + [ns[i]] + ns[i + 1..j] + [ns[j]] + ns[j + 1..];
  }

  lemma OnlyOnce(ms: seq<Message>, m: Message)
    requires Distinct(ms)
    ensures multiset(ms)[m] <= 1
  {
    if ms != [] {
      assert ms == [ms[0]] + ms[1..];
      OnlyOnce(ms[1..], m);
      assert ms[0] !in ms[1..];
    }
  }

  // ---- primitive updates ---------------------------------------------------

  lemma AddIndexed(f: Folder, uid: string, href: Option<string>, flags: Word)
    requires Indexed(f) && uid !in f.byUid
    ensures Indexed(Add(f, uid, href, flags))
  {
    hide Fetch, U32;
    var g := Add(f, uid, href, flags);
    var m := g.messages[|f.messages|];
    assert Distinct(g.messages) by { assert forall x <- f.messages :: x.serial < m.serial; }
    forall s: nat
      ensures Fetch(g.messages, s) ==
              if Fetch(f.messages, s).Some? then Fetch(f.messages, s) else if s == m.serial then Some(m) else None
      ensures Fetch(f.messages, f.nextSerial).None?
    {
      FetchAppended(f.messages, m, s);
      FetchFrom(f.messages, f.nextSerial);
    }
    assert HrefsSound(g) by {
      forall h | h in g.byHref
        ensures BearsHref(g.messages, g.byHref[h], h)
      {
        if Some(h) != href { assert BearsHref(f.messages, f.byHref[h], h); }
      }
    }
  }

  lemma RemoveFastMembers(q: seq<nat>, x: nat)
    ensures forall y <- RemoveFast(q, x) :: y in q
    ensures forall y <- q :: y == x || y in RemoveFast(q, x)
  {
    var r := RemoveFast(q, x);
    var k := IndexIn(q, x);
    forall y | y in q && y != x
      ensures y in r
    {
      var i :| 0 <= i < |q| && q[i] == y;
      if k < |q| {
        assert r[if i == |q| - 1 then k else i] == y;
      }
    }
  }

  lemma RemoveAtIndexed(f: Folder, k: nat)
    requires Indexed(f) && k < |f.messages|
    ensures Indexed(RemoveAt(f, k))
  {
    hide Fetch;
    var g := RemoveAt(f, k);
    var m := f.messages[k];
    RemovedMembers(f.messages, k);
    RemoveFastMembers(f.changed, m.serial);
    forall s
      ensures Fetch(g.messages, s) == if s == m.serial then None else Fetch(f.messages, s)
    {
      FetchRemoved(f.messages, k, s);
    }
    FetchMember(f.messages, m);
    assert Stored(g);
    assert UidsSound(g) by {
      forall u | u in g.byUid
        ensures BearsUid(g.messages, g.byUid[u], u)
      {
        assert BearsUid(f.messages, f.byUid[u], u);
      }
    }
    assert HrefsSound(g) by {
      forall h | h in g.byHref
        ensures BearsHref(g.messages, g.byHref[h], h)
      {
        assert BearsHref(f.messages, f.byHref[h], h);
      }
    }
  }

  /** Overwriting the record of one message, its uid and an already set href kept. */
  lemma ReplaceIndexed(f: Folder, old': Message, new': Message, g: Folder)
    requires Indexed(f) && old' in f.messages
    requires new'.serial == old'.serial && new'.uid == old'.uid
    requires old'.href.Some? ==> new'.href == old'.href
    requires g.messages == Replace(f.messages, new')
    requires g.byUid == f.byUid && g.nextSerial == f.nextSerial
    requires QueueBounded(g)
    requires forall h <- g.byHref :: (h in f.byHref && g.byHref[h] == f.byHref[h])
                                     || (g.byHref[h] == new'.serial && new'.href == Some(h))
    ensures Indexed(g)
  {
    hide Fetch;
    FetchMember(f.messages, old');
    forall s
      ensures Fetch(g.messages, s) == if s == new'.serial then Some(new') else Fetch(f.messages, s)
    {
      FetchReplaced(f.messages, new', s);
    }
    assert Stored(g) by {
      forall m | m in g.messages
        ensures m.serial < g.nextSerial && m.uid in g.byUid && g.byUid[m.uid] == m.serial
      {
        var i :| 0 <= i < |g.messages| && g.messages[i] == m;
        assert f.messages[i] in f.messages;
      }
    }
    assert UidsSound(g) by {
      forall u | u in g.byUid
        ensures BearsUid(g.messages, g.byUid[u], u)
      {
        assert BearsUid(f.messages, f.byUid[u], u);
      }
    }
    assert HrefsSound(g) by {
      forall h | h in g.byHref
        ensures BearsHref(g.messages, g.byHref[h], h)
      {
        if h in f.byHref && g.byHref[h] == f.byHref[h] { assert BearsHref(f.messages, f.byHref[h], h); }
      }
    }
  }

  lemma ChangeFlagsIndexed(f: Folder, m: Message, flags: Word)
    requires Indexed(f) && m in f.messages
    ensures Indexed(ChangeFlags(f, m, flags))
  {
    ReplaceIndexed(f, m, m.(flags := flags), ChangeFlags(f, m, flags));
  }

  /** Permuting the array keeps the index. */
  lemma PermutedIndexed(f: Folder, ms: seq<Message>)
    requires Indexed(f) && multiset(ms) == multiset(f.messages)
    ensures Indexed(f.(messages := ms))
  {
    hide Fetch;
    forall m
      ensures m in ms <==> m in f.messages
    {
      assert m in ms <==> m in multiset(ms);
    }
    forall s
      ensures Distinct(ms) && Fetch(ms, s) == Fetch(f.messages, s)
    {
      FetchPermuted(f.messages, ms, s);
    }
  }

  /** Nothing but the array, the two indexes, the serial counter and the queue matters. */
  lemma SameIndex(f: Folder, g: Folder)
    requires Indexed(f) && QueueBounded(g)
    requires g.messages == f.messages && g.byUid == f.byUid && g.byHref == f.byHref && g.nextSerial == f.nextSerial
    ensures Indexed(g)
  {
  }

  lemma IndexedQueue(f: Folder)
    requires Indexed(f)
    ensures QueueBounded(f)
  {
  }

  /** Counters do not matter to the index. */
  lemma SameTables(f: Folder, g: Folder)
    requires Indexed(f)
    requires g.messages == f.messages && g.byUid == f.byUid && g.byHref == f.byHref
    requires g.nextSerial == f.nextSerial && g.changed == f.changed
    ensures Indexed(g)
  {
  }

  // ---- operations ----------------------------------------------------------

  lemma MessageRemovedIndexed(f: Folder, href: string)
    requires Indexed(f)
    ensures Indexed(MessageRemoved(f, href))
  {
    hide BinarySearch, RemoveAt, Indexed, Fetch;
    match FindByHref(f, href)
    case None =>
    case Some(m) =>
      var k := BinarySearch(f.messages, 0, |f.messages| - 1, m.serial);
      if k != -1 { RemoveAtIndexed(f, k); }
  }

  /** A removal registers no uid. */
  lemma MessageRemovedKeys(f: Folder, href: string)
    ensures MessageRemoved(f, href).byUid.Keys <= f.byUid.Keys
  {
    hide Fetch;
  }

  lemma {:induction false} RemovalsIndexed(f: Folder, hrefs: seq<string>)
    requires Indexed(f)
    ensures Indexed(Removals(f, hrefs))
    decreases hrefs
  {
    hide Fetch, Distinct;
    if hrefs != [] {
      MessageRemovedIndexed(f, hrefs[0]);
      SameIndex(MessageRemoved(f, hrefs[0]), CountDeleted(MessageRemoved(f, hrefs[0])));
      RemovalsIndexed(CountDeleted(MessageRemoved(f, hrefs[0])), hrefs[1..]);
    }
  }

  ghost predicate DistinctUids(rows: seq<Row>) {
    forall i, j :: 0 <= i < j < |rows| ==> rows[i].uid != rows[j].uid
  }

  lemma {:induction false} LoadIndexed(f: Folder, rows: seq<Row>)
    requires Indexed(f) && DistinctUids(rows)
    requires forall r <- rows :: r.uid !in f.byUid
    ensures Indexed(LoadRows(f, rows))
    decreases rows
  {
    if rows != [] {
      var href := if rows[0].href == Some("") then None else rows[0].href;
      AddIndexed(f, rows[0].uid, href, rows[0].flags);
      LoadIndexed(Add(f, rows[0].uid, href, rows[0].flags), rows[1..]);
    }
  }

  /** A uid without a message in the array has no entry either. */
  lemma FindNone(f: Folder, uid: string)
    requires Indexed(f)
    ensures Find(f, uid).None? <==> uid !in f.byUid
    ensures Find(f, uid).Some? ==> Find(f, uid).value in f.messages && Find(f, uid).value.uid == uid
  {
    FetchFrom(f.messages, if uid in f.byUid then f.byUid[uid] else 0);
    if uid in f.byUid { assert BearsUid(f.messages, f.byUid[uid], uid); }
  }

  lemma RefreshItemIndexed(f: Folder, it: Item)
    requires Indexed(f) && it.Usable()
    ensures Indexed(RefreshItem(f, it))
  {
    hide Fetch, Distinct;
    FindNone(f, it.uid.value);
    match Find(f, it.uid.value)
    case Some(m) => ChangeFlagsIndexed(f, m, it.flags);
    case None =>
      var cleared := if it.href in f.byHref then MessageRemoved(CountDeleted(f), it.href) else f;
      SameIndex(f, CountDeleted(f));
      MessageRemovedIndexed(CountDeleted(f), it.href);
      MessageRemovedKeys(CountDeleted(f), it.href);
      AddIndexed(cleared, it.uid.value, Some(it.href), it.flags);
  }

  lemma {:induction false} RefreshItemsIndexed(f: Folder, items: seq<Item>)
    requires Indexed(f) && forall it <- items :: it.Usable()
    ensures Indexed(RefreshItems(f, items))
    decreases items
  {
    if items != [] {
      RefreshItemIndexed(f, items[0]);
      RefreshItemsIndexed(RefreshItem(f, items[0]), items[1..]);
    }
  }

  lemma {:induction false} MarkListedIndexed(f: Folder, listing: seq<Listed>)
    requires Indexed(f)
    ensures Indexed(MarkListed(f, listing))
    decreases listing
  {
    hide Indexed, Fetch, ChangeFlags;
    if listing != [] {
      match FindByHref(f, listing[0].href) {
        case None => MarkListedIndexed(f, listing[1..]);
        case Some(m) =>
          FetchFrom(f.messages, f.byHref[listing[0].href]);
          var g := if (SEEN in m.flags) != listing[0].read then ChangeFlags(f, m, FlipSeen(m.flags)) else f;
          ChangeFlagsIndexed(f, m, FlipSeen(m.flags));
          MarkListedIndexed(g, listing[1..]);
      }
    }
  }

  lemma {:induction false} RemoveUnknownIndexed(f: Folder, known: set<nat>, k: int)
    requires Indexed(f) && -1 <= k < |f.messages|
    ensures Indexed(RemoveUnknown(f, known, k))
    decreases k + 1
  {
    hide Fetch, Distinct;
    if k >= 0 {
      if f.messages[k].serial in known {
        RemoveUnknownIndexed(f, known, k - 1);
      } else {
        SameIndex(f, CountDeleted(f));
        RemoveAtIndexed(CountDeleted(f), k);
        RemoveUnknownIndexed(RemoveAt(CountDeleted(f), k), known, k - 1);
      }
    }
  }

  lemma SetHrefIndexed(f: Folder, m: Message, href: string)
    requires Indexed(f) && m in f.messages && m.href.None?
    ensures Indexed(SetHref(f, m, href))
  {
    ReplaceIndexed(f, m, m.(href := Some(href)), SetHref(f, m, href));
  }

  lemma LandIndexed(f: Folder, k: nat, it: Item)
    requires Indexed(f) && k < |f.messages|
    ensures Indexed(Land(f, k, it))
  {
    hide Indexed, ChangeFlags;
    var m := f.messages[k];
    if m.href.None? {
      var g := SetHref(f, m, it.href);
      SetHrefIndexed(f, m, it.href);
      assert g.messages[k] == m.(href := Some(it.href));
      ChangeFlagsIndexed(g, g.messages[k], it.flags);
    } else {
      ChangeFlagsIndexed(f, m, it.flags);
    }
  }

  lemma {:induction false} MatchItemsIndexed(f: Folder, m: nat, rest: seq<Message>, items: seq<Item>)
    requires Indexed(f) && m + |rest| <= |f.messages|
    ensures Indexed(MatchItems(f, m, rest, items))
    decreases items
  {
    hide Indexed, Land, Landing, DropUntil;
    if rest != [] && items != [] {
      if !items[0].Usable() {
        MatchItemsIndexed(f, m, rest, items[1..]);
      } else {
        var tail := DropUntil(rest, items[0].uid.value);
        if tail != [] {
          var k := Landing(f.messages, m, m + |tail|, tail[0].serial);
          LandIndexed(f, k, items[0]);
          MatchItemsIndexed(Land(f, k, items[0]), m + 1, tail[1..], items[1..]);
        }
      }
    }
  }

  lemma GetContentsIndexed(f: Folder, items: seq<Item>, ok: bool)
    requires Indexed(f)
    ensures Indexed(GetContents(f, items, ok))
  {
    var sorted := SortMessages(f.messages);
    assert |sorted| == |multiset(sorted)|;
    PermutedIndexed(f, sorted);
    MatchItemsIndexed(f.(messages := sorted), 0, sorted, items);
  }

  lemma SetFlagsIndexed(f: Folder, uid: string, flags: Word, mask: Word)
    requires Indexed(f)
    ensures Indexed(SetFlags(f, uid, flags, mask))
  {
    FindNone(f, uid);
    match Find(f, uid)
    case None =>
    case Some(m) => ReplaceIndexed(f, m, Edited(m, flags, mask), SetFlags(f, uid, flags, mask));
  }

  lemma SetTagIndexed(f: Folder, uid: string, name: string, value: Option<string>)
    requires Indexed(f)
    ensures Indexed(SetTag(f, uid, name, value))
  {
    FindNone(f, uid);
    match Find(f, uid)
    case None =>
    case Some(m) =>
      var tags := if value.Some? then m.tags[name := value.value] else Without(m.tags, name);
      ReplaceIndexed(f, m, m.(tags := tags), SetTag(f, uid, name, value));
  }

  lemma {:induction false} FlushLoopIndexed(f: Folder, i: nat)
    requires Indexed(f)
    ensures Indexed(FlushLoop(f, i))
    decreases |f.changed| - i
  {
    hide Fetch, Distinct;
    if i < |f.changed| {
      match Fetch(f.messages, f.changed[i]) {
        case None => FlushLoopIndexed(f, i + 1);
        case Some(m) =>
          var g := f.(messages := Replace(f.messages, Flushed(m)));
          FetchFrom(f.messages, f.changed[i]);
          ReplaceIndexed(f, m, Flushed(m), g);
          if Flushed(m).changeMask == {} {
            assert forall s <- RemoveFastAt(g.changed, i) :: s in f.changed;
            SameIndex(g, g.(changed := RemoveFastAt(g.changed, i)));
            FlushLoopIndexed(g.(changed := RemoveFastAt(g.changed, i)), i);
          } else {
            FlushLoopIndexed(g, i + 1);
          }
      }
    }
  }

  lemma FlushIndexed(f: Folder, gone: seq<string>)
    requires Indexed(f)
    ensures Indexed(Flush(f, gone))
  {
    var g := FlushLoop(f, 0);
    FlushLoopIndexed(f, 0);
    RemovalsIndexed(g, gone);
  }

  // ---- every event ---------------------------------------------------------

  lemma RefreshIndexed(f: Folder, rows: seq<Item>, ok: bool)
    requires Indexed(f)
    ensures Indexed(Refresh(f, rows, ok))
  {
    hide Indexed, RefreshItems;
    RefreshItemsIndexed(f, SortItems(FolderState.Usable(rows)));
  }

  lemma SyncDeletionsIndexed(f: Folder, deleted: int, visible: int, listed: seq<Listed>)
    requires Indexed(f)
    ensures Indexed(SyncDeletions(f, deleted, visible, listed))
  {
    hide Indexed, MarkListed, RemoveUnknown, Known, U32;
    var marked := MarkListed(f, listed);
    MarkListedIndexed(f, listed);
    RemoveUnknownIndexed(marked, Known(f, listed), |marked.messages| - 1);
    IndexedQueue(f);
    SameIndex(f, f.(deletedCount := U32(deleted)));
  }

  lemma ReconnectIndexed(f: Folder, total: Option<nat>)
    requires Indexed(f)
    ensures Indexed(Reconnect(f, total))
  {
    SameIndex(f, Reconnect(f, total));
  }

  /** Whatever happens to a folder, its indexes agree with its array. */
  lemma StepIndexed(f: Folder, e: Event)
    requires Indexed(f)
    ensures Indexed(Step(f, e))
  {
    hide Indexed, GetContents, Refresh, Removals, MessageRemoved, SyncDeletions, SetFlags, SetTag, Flush, Reconnect;
    match e
    case Refreshed(rows, ok) => RefreshIndexed(f, rows, ok);
    case Opened(listing, ok) => GetContentsIndexed(f, listing, ok);
    case Synced(deleted, visible, listed) => SyncDeletionsIndexed(f, deleted, visible, listed);
    case Removed(hrefs) => RemovalsIndexed(f, hrefs);
    case Vanished(href) => MessageRemovedIndexed(f, href);
    case FlagsSet(uid, flags, mask) => SetFlagsIndexed(f, uid, flags, mask);
    case TagSet(uid, name, value) => SetTagIndexed(f, uid, name, value);
    case FlagsSent(gone) => FlushIndexed(f, gone);
    case Reconnected(total) => ReconnectIndexed(f, total);
  }
}
