/**
 A full listing followed by a refresh on the same rows leaves every usable row known
 by uid, provided no row to be fetched sits at an href that the index holds for
 another listed message.
 */
module RefreshCompleteness {
  import opened Basics
  import opened FolderState
  import opened FolderIndex
  import opened ArticleNumbers
  import opened NoLostMail

  /** No row takes an href registered to a different message that is still listed. */
  ghost predicate Undisturbed(f: Folder, listed: set<string>, rows: seq<Item>)
    requires forall it <- rows :: it.Usable()
  {
    forall it <- rows :: it.href in f.byHref ==> HrefFree(f, listed, it)
  }

  ghost predicate HrefFree(f: Folder, listed: set<string>, it: Item)
    requires it.href in f.byHref && it.Usable()
  {
    var m := Fetch(f.messages, f.byHref[it.href]);
    m.Some? ==> m.value.uid == it.uid.value || m.value.uid !in listed
  }

  ghost predicate OwnHrefs(rows: seq<Item>) {
    forall a <- rows, b <- rows :: a.href == b.href ==> a == b
  }

  /** A serial number keeps its uid through a refreshed row. */
  lemma RefreshItemUid(f: Folder, it: Item, serial: nat)
    requires Indexed(f) && it.Usable() && serial < f.nextSerial
    requires Fetch(RefreshItem(f, it).messages, serial).Some?
    ensures Fetch(f.messages, serial).Some?
    ensures Fetch(f.messages, serial).value.uid == Fetch(RefreshItem(f, it).messages, serial).value.uid
  {
    hide Fetch, BinarySearch, RemoveFast, Replace, U32, MessageRemoved;
    FindNone(f, it.uid.value);
    match Find(f, it.uid.value)
    case Some(m) =>
      FetchIs(f, m);
      FetchReplaced(f.messages, m.(flags := it.flags), serial);
    case None =>
      var cleared := if it.href in f.byHref then MessageRemoved(CountDeleted(f), it.href) else f;
      var g := RefreshItem(f, it);
      FetchAppended(cleared.messages, g.messages[|cleared.messages|], serial);
      RemovedFetch(f, it.href, serial);
  }

  lemma FetchIs(f: Folder, m: Message)
    requires Indexed(f) && m in f.messages
    ensures Fetch(f.messages, m.serial) == Some(m)
  {
    FetchMember(f.messages, m);
  }

  lemma RemovedFetch(f: Folder, href: string, serial: nat)
    requires Indexed(f)
    ensures var g := MessageRemoved(CountDeleted(f), href);
            && g.nextSerial == f.nextSerial
            && (Fetch(g.messages, serial).Some? ==> Fetch(g.messages, serial) == Fetch(f.messages, serial))
  {
    hide Fetch, RemoveFast, BinarySearch;
    var c := CountDeleted(f);
    match FindByHref(c, href)
    case None =>
    case Some(m) =>
      var k := BinarySearch(c.messages, 0, |c.messages| - 1, m.serial);
      if k != -1 { FetchRemoved(c.messages, k, serial); }
  }

  /** A row touches no href entry but its own. */
  lemma OnlyOwnHref(f: Folder, it: Item, h: string)
    requires Indexed(f) && it.Usable() && h != it.href
    ensures var g := RefreshItem(f, it);
            (h in g.byHref <==> h in f.byHref) && (h in f.byHref ==> g.byHref[h] == f.byHref[h])
  {
    hide Find, MessageRemoved, Indexed, U32, Replace;
    CountedIndexed(f);
    RemovalKeepsHrefs(CountDeleted(f), it.href, h);
  }

  lemma CountedIndexed(f: Folder)
    requires Indexed(f)
    ensures Indexed(CountDeleted(f))
  {
    SameTables(f, CountDeleted(f));
  }

  lemma RemovalKeepsHrefs(f: Folder, href: string, h: string)
    requires Indexed(f) && h != href
    ensures var g := MessageRemoved(f, href);
            (h in g.byHref <==> h in f.byHref) && (h in f.byHref ==> g.byHref[h] == f.byHref[h])
  {
    hide Fetch, BinarySearch, RemoveFast, U32;
    match FindByHref(f, href)
    case None =>
    case Some(m) =>
      assert BearsHref(f.messages, f.byHref[href], href);
      FetchFrom(f.messages, f.byHref[href]);
      var k := BinarySearch(f.messages, 0, |f.messages| - 1, m.serial);
      if k != -1 { FetchMember(f.messages, f.messages[k]); }
  }

  lemma OwnHref(f: Folder, it: Item)
    requires Indexed(f) && it.Usable()
    ensures var g := RefreshItem(f, it);
            it.href in g.byHref ==>
              (it.href in f.byHref && g.byHref[it.href] == f.byHref[it.href])
              || (it.uid.value in g.byUid && g.byHref[it.href] == g.byUid[it.uid.value])
  {
    hide Find, MessageRemoved, Indexed, U32, Replace;
  }

  lemma RefreshItemHrefs(f: Folder, it: Item)
    requires Indexed(f) && it.Usable()
    ensures var g := RefreshItem(f, it);
            && (forall h <- g.byHref :: h == it.href || (h in f.byHref && g.byHref[h] == f.byHref[h]))
            && (it.href in g.byHref ==> (it.href in f.byHref && g.byHref[it.href] == f.byHref[it.href])
                                        || (it.uid.value in g.byUid && g.byHref[it.href] == g.byUid[it.uid.value]))
            && (forall h <- f.byHref :: f.byHref[h] < f.nextSerial)
  {
    hide Fetch, RefreshItem;
    OwnHref(f, it);
    var g := RefreshItem(f, it);
    forall h | h in g.byHref && h != it.href
      ensures h in f.byHref && g.byHref[h] == f.byHref[h]
    {
      OnlyOwnHref(f, it, h);
    }
    forall h | h in f.byHref
      ensures f.byHref[h] < f.nextSerial
    {
      assert BearsHref(f.messages, f.byHref[h], h);
      FetchFrom(f.messages, f.byHref[h]);
    }
  }

  lemma UndisturbedStep(f: Folder, listed: set<string>, rows: seq<Item>)
    requires Indexed(f) && rows != [] && forall it <- rows :: it.Usable()
    requires Undisturbed(f, listed, rows) && OwnHrefs(rows)
    ensures Undisturbed(RefreshItem(f, rows[0]), listed, rows[1..])
  {
    hide RefreshItem, Fetch, Indexed;
    var it := rows[0];
    var g := RefreshItem(f, it);
    RefreshItemHrefs(f, it);
    RefreshItemKnows(f, it);
    RefreshItemIndexed(f, it);
    forall r | r in rows[1..] && r.href in g.byHref
      ensures HrefFree(g, listed, r)
    {
      assert r in rows;
      var serial := g.byHref[r.href];
      if Fetch(g.messages, serial).Some? {
        BearerNamed(g, serial);
        if r.href in f.byHref && serial == f.byHref[r.href] {
          RefreshItemUid(f, it, serial);
          assert HrefFree(f, listed, r);
        }
      }
    }
  }

  lemma {:induction false} RefreshKeepsListed(f: Folder, listed: set<string>, rows: seq<Item>)
    requires Indexed(f) && forall it <- rows :: it.Usable()
    requires Undisturbed(f, listed, rows) && OwnHrefs(rows)
    ensures forall u <- listed :: u in f.byUid ==> u in RefreshItems(f, rows).byUid
    ensures forall it <- rows :: it.uid.value in listed ==> it.uid.value in RefreshItems(f, rows).byUid
    decreases rows
  {
    hide RefreshItem, Indexed, Undisturbed;
    if rows != [] {
      var it := rows[0];
      var g := RefreshItem(f, it);
      UndisturbedStep(f, listed, rows);
      RefreshItemIndexed(f, it);
      RefreshItemKnows(f, it);
      forall u | u in listed && u in f.byUid
        ensures u in g.byUid
      {
        if u != it.uid.value {
          RefreshForgetsIff(f, it, u);
          ListedKept(f, listed, rows, u);
        }
      }
      assert forall a <- rows[1..] :: a in rows;
      RefreshKeepsListed(g, listed, rows[1..]);
      assert forall a :: a in rows <==> a == rows[0] || a in rows[1..];
    }
  }

  lemma ListedKept(f: Folder, listed: set<string>, rows: seq<Item>, u: string)
    requires Indexed(f) && rows != [] && forall it <- rows :: it.Usable()
    requires Undisturbed(f, listed, rows) && u in listed && u in f.byUid && u != rows[0].uid.value
    ensures rows[0].href in f.byHref ==> f.byHref[rows[0].href] != f.byUid[u]
  {
    hide Fetch;
    var it := rows[0];
    assert BearsUid(f.messages, f.byUid[u], u);
    if it.href in f.byHref { assert HrefFree(f, listed, it); }
  }

  /** Everything listed is known once the listing has been followed by a refresh. */
  lemma OpenThenRefreshKnowsAll(f: Folder, listing: seq<Item>, fetched: seq<Item>, listed: set<string>)
    requires Indexed(f) && Numbered(listing) && DistinctArticles(listing) && OwnHrefs(listing)
    requires listed == set it <- listing | it.Usable() :: it.uid.value
    requires var g := GetContents(f, listing, true);
             && (forall it :: it in fetched <==>
                                it in listing && it.article.Some? && it.article.value > g.highArticle)
             && Undisturbed(g, listed, FolderState.Usable(fetched))
    ensures var g := GetContents(f, listing, true);
            forall it <- listing :: it.Usable() ==> it.uid.value in Refresh(g, fetched, true).byUid
  {
    hide Indexed, GetContents, SortItems, RefreshItems, Undisturbed, Numbered, DistinctArticles;
    var g := GetContents(f, listing, true);
    var rows := SortItems(FolderState.Usable(fetched));
    forall it
      ensures it in rows <==> it in fetched && it.Usable()
    {
      assert it in rows <==> it in multiset(FolderState.Usable(fetched));
    }
    FullListingMissesNothing(f, listing);
    GetContentsIndexed(f, listing, true);
    OpenKeepsUids(f, listing);
    UidsRegistered(f);
    SortedUndisturbed(g, listed, fetched);
    assert forall a <- rows :: a in listing;
    RefreshKeepsListed(g, listed, rows);
  }

  lemma SortedUndisturbed(g: Folder, listed: set<string>, fetched: seq<Item>)
    requires Undisturbed(g, listed, FolderState.Usable(fetched))
    ensures Undisturbed(g, listed, SortItems(FolderState.Usable(fetched)))
  {
    var rows := SortItems(FolderState.Usable(fetched));
    forall it | it in rows && it.href in g.byHref
      ensures HrefFree(g, listed, it)
    {
      assert it in multiset(FolderState.Usable(fetched));
    }
  }

  lemma OpenKeepsUids(f: Folder, listing: seq<Item>)
    ensures GetContents(f, listing, true).byUid == f.byUid
  {
    hide MatchItems;
    var sorted := SortMessages(f.messages);
    assert |sorted| == |multiset(sorted)|;
    MatchKeepsUids(f.(messages := sorted), 0, sorted, listing);
  }

  lemma {:induction false} MatchKeepsUids(f: Folder, m: nat, rest: seq<Message>, items: seq<Item>)
    requires m + |rest| <= |f.messages|
    ensures MatchItems(f, m, rest, items).byUid == f.byUid
    decreases items
  {
    hide Landing, DropUntil;
    if rest != [] && items != [] {
      if !items[0].Usable() {
        MatchKeepsUids(f, m, rest, items[1..]);
      } else {
        var tail := DropUntil(rest, items[0].uid.value);
        if tail != [] {
          var k := Landing(f.messages, m, m + |tail|, tail[0].serial);
          MatchKeepsUids(Land(f, k, items[0]), m + 1, tail[1..], items[1..]);
        }
      }
    }
  }

  // ---- what a row does to its message --------------------------------------

  /**
   After a refreshed row its uid finds one message with the row's flags: the old message,
   nothing else of it changed, or a new one.  Every other message left is as it was.
   */
  lemma RefreshItemExact(f: Folder, it: Item)
    requires Indexed(f) && it.Usable()
    ensures var g := RefreshItem(f, it);
            var m := match Find(f, it.uid.value)
              case Some(old') => old'.(flags := it.flags)
              case None => Message(it.uid.value, Some(it.href), f.nextSerial, it.flags, {}, {}, map[]);
            && Find(g, it.uid.value) == Some(m) && g.highArticle == Max(f.highArticle, it.article.value)
            && (forall s: nat :: s != m.serial && Fetch(g.messages, s).Some? ==>
                   Fetch(g.messages, s) == Fetch(f.messages, s))
            && (Find(f, it.uid.value).Some? ==> |g.messages| == |f.messages|)
  {
    hide Fetch, BinarySearch, RemoveFast, Replace, U32, MessageRemoved;
    FindNone(f, it.uid.value);
    match Find(f, it.uid.value)
    case Some(m) => KnownRow(f, it, m);
    case None => NewRow(f, it);
  }

  lemma KnownRow(f: Folder, it: Item, m: Message)
    requires Indexed(f) && it.Usable() && Find(f, it.uid.value) == Some(m) && m in f.messages
    ensures var g := RefreshItem(f, it);
            && Find(g, it.uid.value) == Some(m.(flags := it.flags)) && |g.messages| == |f.messages|
            && g.highArticle == Max(f.highArticle, it.article.value)
            && (forall s: nat :: s != m.serial ==> Fetch(g.messages, s) == Fetch(f.messages, s))
  {
    hide Fetch, U32, Replace;
    FetchIs(f, m);
    forall s: nat
      ensures Fetch(Replace(f.messages, m.(flags := it.flags)), s) ==
              if s == m.serial then Some(m.(flags := it.flags)) else Fetch(f.messages, s)
    {
      FetchReplaced(f.messages, m.(flags := it.flags), s);
    }
    assert m.(flags := m.flags) == m;
  }

  lemma NewRow(f: Folder, it: Item)
    requires Indexed(f) && it.Usable() && Find(f, it.uid.value).None?
    ensures var g := RefreshItem(f, it);
            && Find(g, it.uid.value)
               == Some(Message(it.uid.value, Some(it.href), f.nextSerial, it.flags, {}, {}, map[]))
            && g.highArticle == Max(f.highArticle, it.article.value)
            && (forall s: nat :: s != f.nextSerial && Fetch(g.messages, s).Some? ==>
                   Fetch(g.messages, s) == Fetch(f.messages, s))
  {
    hide Fetch, BinarySearch, RemoveFast, U32, MessageRemoved, Indexed;
    var cleared := if it.href in f.byHref then MessageRemoved(CountDeleted(f), it.href) else f;
    ClearedSerials(f, it.href);
    RemovalKeepsHigh(f, it.href);
    var m := Message(it.uid.value, Some(it.href), f.nextSerial, it.flags, {}, {}, map[]);
    forall s: nat
      ensures Fetch(cleared.messages + [m], s) ==
              if Fetch(cleared.messages, s).Some? then Fetch(cleared.messages, s)
              else if s == m.serial then Some(m) else None
      ensures Fetch(cleared.messages, s).Some? ==>
              Fetch(cleared.messages, s) == Fetch(f.messages, s) && s != f.nextSerial
    {
      FetchAppended(cleared.messages, m, s);
      RemovedFetch(f, it.href, s);
      SerialBelow(f, s);
    }
  }

  lemma SerialBelow(f: Folder, s: nat)
    requires Indexed(f)
    ensures Fetch(f.messages, s).Some? ==> s < f.nextSerial
  {
    FetchFrom(f.messages, s);
  }

  lemma ClearedSerials(f: Folder, href: string)
    requires Indexed(f)
    ensures MessageRemoved(CountDeleted(f), href).nextSerial == f.nextSerial
  {
    RemovedFetch(f, href, 0);
  }

  lemma RemovalKeepsHigh(f: Folder, href: string)
    ensures MessageRemoved(CountDeleted(f), href).highArticle == f.highArticle
  {
  }

  // ---- flags of a full listing ---------------------------------------------

  /** The usable rows name the first messages of the sorted copy, in order. */
  ghost predicate Aligned(rest: seq<Message>, items: seq<Item>)
    decreases items
  {
    rest == [] || items == []
    || (if items[0].Usable() then items[0].uid.value == rest[0].uid && Aligned(rest[1..], items[1..])
        else Aligned(rest, items[1..]))
  }

  function Described(m: Message, it: Item): Message {
    m.(flags := it.flags, href := if m.href.None? then Some(it.href) else m.href)
  }

  /** The rest of the copy with each of its messages as the rows describe it. */
  function DescribedAll(rest: seq<Message>, items: seq<Item>): (r: seq<Message>)
    ensures |r| == |rest|
    decreases items
  {
    if rest == [] || items == [] then rest
    else if !items[0].Usable() then DescribedAll(rest, items[1..])
    else [Described(rest[0], items[0])] + DescribedAll(rest[1..], items[1..])
  }

  lemma LandHere(f: Folder, before: seq<Message>, m: Message, after: seq<Message>, it: Item)
    requires Distinct(f.messages) && f.messages == before + [m] + after
    ensures Land(f, |before|, it).messages == before + [Described(m, it)] + after
    ensures Distinct(before + [Described(m, it)] + after)
    ensures Landing(f.messages, |before|, |f.messages|, m.serial) == |before|
  {
    var k, ms := |before|, before + [Described(m, it)] + after;
    assert f.messages[k] == m && m.(flags := m.flags) == m;
    assert forall i :: 0 <= i < |ms| ==> ms[i].serial == f.messages[i].serial;
    assert ms == f.messages[k := Described(m, it)];
  }

  lemma DropNothing(rest: seq<Message>, uid: string)
    requires rest != [] && rest[0].uid == uid
    ensures DropUntil(rest, uid) == rest
  {
  }

  /** With no local message passed over, each row describes its own message. */
  lemma {:induction false} MatchAligned(f: Folder, before: seq<Message>, rest: seq<Message>, items: seq<Item>)
    requires Distinct(f.messages) && f.messages == before + rest && Aligned(rest, items)
    ensures MatchItems(f, |before|, rest, items).messages == before + DescribedAll(rest, items)
    decreases items
  {
    hide Land, Described, DropUntil, Landing, Distinct;
    if rest != [] && items != [] {
      if !items[0].Usable() {
        MatchAligned(f, before, rest, items[1..]);
      } else {
        var it, m, after := items[0], rest[0], rest[1..];
        assert f.messages == before + [m] + after;
        LandHere(f, before, m, after, it);
        DropNothing(rest, it.uid.value);
        var landed := before + [Described(m, it)];
        MatchAligned(Land(f, |before|, it), landed, after, items[1..]);
        assert landed + DescribedAll(after, items[1..]) ==
               before + ([Described(m, it)] + DescribedAll(after, items[1..]));
      }
    }
  }

  lemma {:induction false} DescribedAt(rest: seq<Message>, items: seq<Item>, i: nat)
    requires i < |rest|
    ensures var rows := FolderState.Usable(items);
            DescribedAll(rest, items)[i] == if i < |rows| then Described(rest[i], rows[i]) else rest[i]
    decreases items
  {
    hide Described;
    if items != [] {
      if !items[0].Usable() {
        DescribedAt(rest, items[1..], i);
      } else if i > 0 {
        DescribedAt(rest[1..], items[1..], i - 1);
      }
    }
  }

  /**
   When the listing's usable rows name the local messages in uid order, with none passed
   over, a full listing gives each message the flags of its own row, and an href if it had
   none; nothing else changes.
   */
  lemma ListingDescribes(f: Folder, items: seq<Item>, ok: bool, i: nat)
    requires Indexed(f) && Aligned(SortMessages(f.messages), items) && i < |f.messages|
    ensures var sorted, rows := SortMessages(f.messages), FolderState.Usable(items);
            && |GetContents(f, items, ok).messages| == |sorted| == |f.messages|
            && GetContents(f, items, ok).messages[i] == if i < |rows| then Described(sorted[i], rows[i]) else sorted[i]
  {
    hide MatchItems, DescribedAll, Described, SortMessages, Aligned, ListingHigh;
    var sorted := SortMessages(f.messages);
    assert |sorted| == |multiset(sorted)|;
    PermutedDistinct(f.messages, sorted);
    assert [] + sorted == sorted && [] + DescribedAll(sorted, items) == DescribedAll(sorted, items);
    MatchAligned(f.(messages := sorted), [], sorted, items);
    DescribedAt(sorted, items, i);
  }
}
