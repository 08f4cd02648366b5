/**
 When the re-sort of a full listing is harmless.  An array in serial order stays in serial
 order exactly when its uids already sort in order of arrival, which they do as long as
 every new message arrives with a uid after all known ones.
 */
module ArrivalOrder {
  import opened FolderState
  import opened FolderIndex
  import opened SearchOrder
  import opened UidOrder
  import opened NoLostMail
  import opened RefreshCompleteness

  ghost predicate Ascending(ms: seq<Message>) {
    SerialOrder(ms, 0, |ms| - 1)
  }

  // ---- sorting by uid ------------------------------------------------------

  lemma InsertedInFront(m: Message, sorted: seq<Message>)
    requires sorted == [] || StrLe(m.uid, sorted[0].uid)
    ensures InsertMessage(m, sorted) == [m] + sorted
  {
    hide StrLe;
  }

  lemma SortUnfold(ms: seq<Message>)
    requires ms != []
    ensures SortMessages(ms) == InsertMessage(ms[0], SortMessages(ms[1..])) && ms == [ms[0]] + ms[1..]
  {
    hide InsertMessage;
  }

  lemma FirstSorted(ms: seq<Message>)
    requires MessagesSorted(ms) && ms != []
    ensures MessagesSorted(ms[1..]) && (ms[1..] == [] || StrLe(ms[0].uid, ms[1..][0].uid))
  {
    hide StrLe;
  }

  lemma {:induction false} SortedStays(ms: seq<Message>)
    requires MessagesSorted(ms)
    ensures SortMessages(ms) == ms
  {
    if ms != [] {
      hide StrLe, MessagesSorted, SortMessages, InsertMessage;
      FirstSorted(ms);
      SortedStays(ms[1..]);
      SortUnfold(ms);
      InsertedInFront(ms[0], ms[1..]);
    }
  }

  lemma FirstIsLeast(a: seq<Message>, b: seq<Message>)
    requires Ascending(a) && Ascending(b) && multiset(a) == multiset(b) && a != []
    ensures b != [] && a[0] == b[0]
  {
    assert a[0] in multiset(b);
    assert b[0] in multiset(a);
    var i :| 0 <= i < |a| && a[i] == b[0];
    var j :| 0 <= j < |b| && b[j] == a[0];
  }

  lemma TailAscends(a: seq<Message>)
    requires Ascending(a) && a != []
    ensures Ascending(a[1..])
  {
  }

  lemma TailMultiset(a: seq<Message>)
    requires a != []
    ensures multiset(a[1..]) == multiset(a) - multiset{a[0]}
  {
    assert a == [a[0]] + a[1..];
  }

  lemma NoMessages(b: seq<Message>)
    requires multiset(b) == multiset([])
    ensures b == []
  {
    assert |b| == |multiset(b)|;
  }

  /** Two arrays of the same messages in serial order are the same. */
  lemma {:induction false} AscendingUnique(a: seq<Message>, b: seq<Message>)
    requires Ascending(a) && Ascending(b) && multiset(a) == multiset(b)
    ensures a == b
  {
    hide Ascending;
    if a == [] {
      NoMessages(b);
    } else {
      FirstIsLeast(a, b);
      TailAscends(a);
      TailAscends(b);
      TailMultiset(a);
      TailMultiset(b);
      AscendingUnique(a[1..], b[1..]);
      assert a == [a[0]] + a[1..] && b == [b[0]] + b[1..];
    }
  }

  /** Sorting by uid keeps serial order exactly when the uids are in order already. */
  lemma SortKeepsOrderIff(ms: seq<Message>)
    requires Ascending(ms)
    ensures Ascending(SortMessages(ms)) <==> MessagesSorted(ms)
  {
    hide Ascending, MessagesSorted;
    SortMessagesSorted(ms);
    if Ascending(SortMessages(ms)) { AscendingUnique(SortMessages(ms), ms); }
    if MessagesSorted(ms) { SortedStays(ms); }
  }

  // ---- the full listing ----------------------------------------------------

  ghost predicate SameSerials(ms: seq<Message>, ns: seq<Message>) {
    |ms| == |ns| && forall i :: 0 <= i < |ms| ==> ms[i].serial == ns[i].serial
  }

  lemma LandKeepsSerials(f: Folder, k: nat, it: Item)
    requires k < |f.messages|
    ensures SameSerials(f.messages, Land(f, k, it).messages) && Land(f, k, it).nextSerial == f.nextSerial
  {
  }

  lemma SerialsFollow(ms: seq<Message>, ns: seq<Message>, rs: seq<Message>)
    requires SameSerials(ms, ns) && SameSerials(ns, rs)
    ensures SameSerials(ms, rs)
  {
  }

  lemma {:induction false} MatchKeepsSerials(f: Folder, m: nat, rest: seq<Message>, items: seq<Item>)
    requires m + |rest| <= |f.messages|
    ensures var g := MatchItems(f, m, rest, items);
            SameSerials(f.messages, g.messages) && g.nextSerial == f.nextSerial
    decreases items
  {
    hide Landing, DropUntil, Land, SameSerials;
    if rest == [] || items == [] {
      SameItself(f.messages);
    } else if !items[0].Usable() {
      MatchKeepsSerials(f, m, rest, items[1..]);
    } else {
      var tail := DropUntil(rest, items[0].uid.value);
      if tail == [] {
        SameItself(f.messages);
      } else {
        var k := Landing(f.messages, m, m + |tail|, tail[0].serial);
        var landed := Land(f, k, items[0]);
        LandKeepsSerials(f, k, items[0]);
        MatchKeepsSerials(landed, m + 1, tail[1..], items[1..]);
        SerialsFollow(f.messages, landed.messages, MatchItems(landed, m + 1, tail[1..], items[1..]).messages);
      }
    }
  }

  lemma SameItself(ms: seq<Message>)
    ensures SameSerials(ms, ms)
  {
  }

  lemma SameSerialsInOrder(f: Folder, ms: seq<Message>, g: Folder)
    requires InOrder(f) && multiset(ms) == multiset(f.messages)
    requires SameSerials(ms, g.messages) && g.nextSerial == f.nextSerial
    ensures InOrder(g) <==> Ascending(ms)
  {
    forall m | m in g.messages
      ensures m.serial < g.nextSerial
    {
      var i :| 0 <= i < |g.messages| && g.messages[i] == m;
      assert ms[i] in multiset(f.messages);
    }
  }

  /** A full listing keeps serial order exactly when the uids are in order of arrival. */
  lemma ListingKeepsOrderIff(f: Folder, listing: seq<Item>, ok: bool)
    requires InOrder(f)
    ensures InOrder(GetContents(f, listing, ok)) <==> MessagesSorted(f.messages)
  {
    hide InOrder, Ascending, MessagesSorted, MatchItems, ListingHigh, SortMessages;
    var sorted := SortMessages(f.messages);
    assert |sorted| == |multiset(sorted)|;
    assert Ascending(f.messages) by { OrderedMessages(f); }
    SortKeepsOrderIff(f.messages);
    MatchKeepsSerials(f.(messages := sorted), 0, sorted, listing);
    SameSerialsInOrder(f, sorted, GetContents(f, listing, ok));
  }

  lemma OrderedMessages(f: Folder)
    requires InOrder(f)
    ensures Ascending(f.messages)
  {
  }

  // ---- uids in order of arrival --------------------------------------------

  /** Of two registered messages the later one has the later uid. */
  ghost predicate UidsArrive(f: Folder) {
    forall u <- f.byUid, v <- f.byUid :: f.byUid[u] <= f.byUid[v] ==> StrLe(u, v)
  }

  /** For an array in serial order that is the order of the array. */
  lemma UidsArriveIff(f: Folder)
    requires Indexed(f) && InOrder(f)
    ensures UidsArrive(f) <==> MessagesSorted(f.messages)
  {
    hide StrLe, Fetch;
    if UidsArrive(f) {
      forall i, j | 0 <= i < j < |f.messages|
        ensures StrLe(f.messages[i].uid, f.messages[j].uid)
      {
        assert f.messages[i] in f.messages && f.messages[j] in f.messages;
      }
    }
    if MessagesSorted(f.messages) {
      forall u, v | u in f.byUid && v in f.byUid && f.byUid[u] <= f.byUid[v]
        ensures StrLe(u, v)
      {
        SortedPair(f, u, v);
      }
    }
  }

  lemma SortedPair(f: Folder, u: string, v: string)
    requires Indexed(f) && InOrder(f) && MessagesSorted(f.messages)
    requires u in f.byUid && v in f.byUid && f.byUid[u] <= f.byUid[v]
    ensures StrLe(u, v)
  {
    hide StrLe;
    assert BearsUid(f.messages, f.byUid[u], u) && BearsUid(f.messages, f.byUid[v], v);
    StrLeTotal(u, u);
  }

  /** The refreshed rows are known, or sort after every known uid. */
  ghost predicate RowsArrive(f: Folder, rows: seq<Item>) {
    forall it <- rows :: it.Usable() ==> it.uid.value in f.byUid || After(f, it.uid.value)
  }

  ghost predicate After(f: Folder, uid: string) {
    forall u <- f.byUid :: StrLe(u, uid)
  }

  /** New messages arrive with uids after all known ones. */
  ghost predicate Arriving(f: Folder, e: Event) {
    e.Refreshed? && e.ok ==> RowsArrive(f, e.rows)
  }

  lemma QuietArrives(f: Folder, g: Folder)
    requires UidsArrive(f) && Quiet(f, g)
    ensures UidsArrive(g)
  {
    hide StrLe;
  }

  /** A row leaves the index as it was, or registers its uid with a serial number above all others. */
  lemma RowRegisters(f: Folder, it: Item)
    requires Indexed(f) && it.Usable()
    ensures var g := RefreshItem(f, it);
            && (it.uid.value in f.byUid ==> g.byUid == f.byUid)
            && (it.uid.value !in f.byUid ==>
                  && it.uid.value in g.byUid && g.byUid[it.uid.value] == f.nextSerial
                  && forall u <- g.byUid :: u == it.uid.value || (u in f.byUid && g.byUid[u] == f.byUid[u]))
            && (forall u <- f.byUid :: f.byUid[u] < f.nextSerial)
  {
    hide Fetch, BinarySearch, RemoveFast;
    FindNone(f, it.uid.value);
    RemovedFetch(f, it.href, 0);
    forall u | u in f.byUid
      ensures f.byUid[u] < f.nextSerial
    {
      assert BearsUid(f.messages, f.byUid[u], u);
      FetchFrom(f.messages, f.byUid[u]);
    }
  }

  lemma RowArrives(f: Folder, rows: seq<Item>)
    requires Indexed(f) && UidsArrive(f) && RowsArrive(f, rows) && rows != []
    requires (forall it <- rows :: it.Usable()) && ItemsSorted(rows)
    ensures UidsArrive(RefreshItem(f, rows[0])) && RowsArrive(RefreshItem(f, rows[0]), rows[1..])
  {
    hide Indexed, RefreshItem, StrLe;
    var it := rows[0];
    assert it.Usable();
    var uid, g := it.uid.value, RefreshItem(f, it);
    RowRegisters(f, it);
    ItemsTail(rows);
    StrLeTotal(uid, uid);
    assert it in rows;
    forall r | r in rows[1..] && r.uid.value !in g.byUid
      ensures After(g, r.uid.value)
    {
      assert r in rows && StrLe(uid, r.uid.value);
      if uid !in f.byUid {
        forall u | u in g.byUid
          ensures StrLe(u, r.uid.value)
        {
          if u != uid { StrLeTransitive(u, uid, r.uid.value); }
        }
      }
    }
  }

  lemma {:induction false} RefreshItemsArrive(f: Folder, rows: seq<Item>)
    requires Indexed(f) && UidsArrive(f) && RowsArrive(f, rows)
    requires (forall it <- rows :: it.Usable()) && ItemsSorted(rows)
    ensures UidsArrive(RefreshItems(f, rows))
    decreases rows
  {
    hide Indexed, RefreshItem, UidsArrive, RowsArrive, ItemsSorted;
    if rows != [] {
      RowArrives(f, rows);
      RefreshItemIndexed(f, rows[0]);
      ItemsTail(rows);
      RefreshItemsArrive(RefreshItem(f, rows[0]), rows[1..]);
    }
  }

  lemma RefreshArrives(f: Folder, rows: seq<Item>, ok: bool)
    requires Indexed(f) && UidsArrive(f) && (ok ==> RowsArrive(f, rows))
    ensures UidsArrive(Refresh(f, rows, ok))
  {
    hide Indexed, UidsArrive, After, RefreshItems;
    if ok {
      var usable := FolderState.Usable(rows);
      SortItemsSorted(usable);
      forall it | it in SortItems(usable)
        ensures it in rows
      {
        assert it in multiset(usable);
      }
      RefreshItemsArrive(f, SortItems(usable));
    }
  }

  /** As long as new messages arrive with later uids, the uids stay in order of arrival. */
  lemma StepArrives(f: Folder, e: Event)
    requires Indexed(f) && UidsArrive(f) && Arriving(f, e)
    ensures UidsArrive(Step(f, e))
  {
    hide Indexed, UidsArrive, RowsArrive, Quiet, Refresh, GetContents;
    if !Learns(e) {
      StepQuiet(f, e);
      QuietArrives(f, Step(f, e));
    } else if e.Refreshed? {
      RefreshArrives(f, e.rows, e.ok);
    } else {
      OpenKeepsUids(f, e.listing);
      SameUidsArrive(f, Step(f, e));
    }
  }

  lemma SameUidsArrive(f: Folder, g: Folder)
    requires UidsArrive(f) && g.byUid == f.byUid
    ensures UidsArrive(g)
  {
    hide StrLe;
  }
}
