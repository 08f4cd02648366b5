/**
 Finding a message by binary search over serial numbers.  The search finds every
 message exactly when the array is in serial order; re-sorting the array by uid, as
 the full listing does, can hide messages from it.
 */
module SearchOrder {
  import opened Basics
  import opened MessageFlags
  import opened FolderState
  import opened FolderIndex

  ghost predicate SerialOrder(ms: seq<Message>, lo: int, hi: int)
    requires 0 <= lo && hi < |ms|
  {
    forall i, j :: lo <= i < j <= hi ==> ms[i].serial < ms[j].serial
  }

  ghost predicate InOrder(f: Folder) {
    && SerialOrder(f.messages, 0, |f.messages| - 1)
    && forall m <- f.messages :: m.serial < f.nextSerial
  }

  lemma SearchUnfold(ms: seq<Message>, lo: int, hi: int, serial: nat)
    requires 0 <= lo <= hi < |ms|
    ensures var mid := (lo + hi) / 2;
            && lo <= mid <= hi
            && BinarySearch(ms, lo, hi, serial) ==
               if serial == ms[mid].serial then mid
               else if serial < ms[mid].serial then BinarySearch(ms, lo, mid - 1, serial)
               else BinarySearch(ms, mid + 1, hi, serial)
  {
  }

  lemma {:induction false} SearchFinds(ms: seq<Message>, lo: int, hi: int, k: int)
    requires 0 <= lo <= k <= hi < |ms| && SerialOrder(ms, lo, hi)
    ensures BinarySearch(ms, lo, hi, ms[k].serial) == k
    decreases hi - lo
  {
    hide BinarySearch;
    SearchUnfold(ms, lo, hi, ms[k].serial);
    var mid := (lo + hi) / 2;
    if k < mid {
      assert ms[k].serial < ms[mid].serial;
      SearchFinds(ms, lo, mid - 1, k);
    } else if mid < k {
      assert ms[mid].serial < ms[k].serial;
      SearchFinds(ms, mid + 1, hi, k);
    }
  }

  /** The search goes to the side on which the message is. */
  lemma SearchSides(ms: seq<Message>, lo: int, hi: int, k: int)
    requires 0 <= lo <= k <= hi < |ms| && BinarySearch(ms, lo, hi, ms[k].serial) == k
    ensures var mid := (lo + hi) / 2;
            && (k < mid ==> ms[k].serial < ms[mid].serial && BinarySearch(ms, lo, mid - 1, ms[k].serial) == k)
            && (mid < k ==> ms[mid].serial < ms[k].serial && BinarySearch(ms, mid + 1, hi, ms[k].serial) == k)
  {
  }

  ghost predicate AllFound(ms: seq<Message>, lo: int, hi: int)
    requires 0 <= lo && hi < |ms|
  {
    forall k :: lo <= k <= hi ==> BinarySearch(ms, lo, hi, ms[k].serial) == k
  }

  lemma {:induction false} OrderFromSearch(ms: seq<Message>, lo: int, hi: int)
    requires 0 <= lo && hi < |ms| && AllFound(ms, lo, hi)
    ensures SerialOrder(ms, lo, hi)
    decreases hi - lo + 1
  {
    hide BinarySearch;
    if lo <= hi {
      var mid := (lo + hi) / 2;
      forall k | lo <= k <= hi
        ensures k < mid ==> ms[k].serial < ms[mid].serial && BinarySearch(ms, lo, mid - 1, ms[k].serial) == k
        ensures mid < k ==> ms[mid].serial < ms[k].serial && BinarySearch(ms, mid + 1, hi, ms[k].serial) == k
      {
        SearchSides(ms, lo, hi, k);
      }
      OrderFromSearch(ms, lo, mid - 1);
      OrderFromSearch(ms, mid + 1, hi);
      forall i, j | lo <= i < j <= hi
        ensures ms[i].serial < ms[j].serial
      {
        if i < mid < j {
          assert ms[i].serial < ms[mid].serial < ms[j].serial;
        }
      }
    }
  }

  /** The search finds every message of an array exactly when the array is in serial order. */
  lemma EveryMessageFoundIff(ms: seq<Message>)
    ensures AllFound(ms, 0, |ms| - 1) <==> SerialOrder(ms, 0, |ms| - 1)
  {
    if SerialOrder(ms, 0, |ms| - 1) {
      forall k | 0 <= k < |ms|
        ensures BinarySearch(ms, 0, |ms| - 1, ms[k].serial) == k
      {
        SearchFinds(ms, 0, |ms| - 1, k);
      }
    }
    if AllFound(ms, 0, |ms| - 1) {
      OrderFromSearch(ms, 0, |ms| - 1);
    }
  }

  /** The folder without the message at position `k`, found under the href. */
  ghost predicate RemovesAt(f: Folder, href: string, k: nat, g: Folder) {
    && k < |f.messages| && f.messages[k].href == Some(href)
    && g.messages == f.messages[..k] + f.messages[k + 1..]
    && href !in g.byHref && f.messages[k].uid !in g.byUid
  }

  lemma RemoveAtRemoves(f: Folder, href: string, k: nat)
    requires k < |f.messages| && f.messages[k].href == Some(href)
    ensures RemovesAt(f, href, k, RemoveAt(f, k))
  {
    hide RemoveFast;
  }

  /**
   Whatever the array order, reporting an href gone removes exactly the message
   registered under it or changes nothing; in serial order it does remove it.
   */
  lemma MessageRemovedExact(f: Folder, href: string)
    requires Indexed(f)
    ensures href !in f.byHref ==> MessageRemoved(f, href) == f
    ensures MessageRemoved(f, href) == f
            || (href in f.byHref
                && RemovesAt(f, href, Position(f.messages, f.byHref[href]), MessageRemoved(f, href)))
    ensures href in f.byHref && InOrder(f) ==>
              RemovesAt(f, href, Position(f.messages, f.byHref[href]), MessageRemoved(f, href))
  {
    hide BinarySearch, Position, RemoveAt, RemovesAt, Stored, UidsSound, QueueBounded;
    if href in f.byHref {
      var serial := f.byHref[href];
      assert BearsHref(f.messages, serial, href);
      var k := Position(f.messages, serial);
      var found := BinarySearch(f.messages, 0, |f.messages| - 1, serial);
      SameSerialSamePlace(f, found, k);
      if InOrder(f) { SearchFinds(f.messages, 0, |f.messages| - 1, k); }
      RemoveAtRemoves(f, href, k);
    }
  }

  lemma SameSerialSamePlace(f: Folder, i: int, k: nat)
    requires Indexed(f) && k < |f.messages|
    ensures 0 <= i < |f.messages| && f.messages[i].serial == f.messages[k].serial ==> i == k
  {
  }

  const B_THEN_A := [Row("b", Some("/b"), {}), Row("a", Some("/a"), {})]
  const MESSAGE_B := Message("b", Some("/b"), 0, {}, {}, {}, map[])
  const MESSAGE_A := Message("a", Some("/a"), 1, {}, {}, {}, map[])

  lemma DisorderLoaded()
    ensures Load(B_THEN_A, 0) ==
            Folder([MESSAGE_B, MESSAGE_A], map["b" := 0, "a" := 1], map["/b" := 0, "/a" := 1], 2, 0, 0, 2, [])
  {
    var f := Add(EMPTY, "b", Some("/b"), {});
    assert B_THEN_A[1..] == [B_THEN_A[1]] && B_THEN_A[1..][1..] == [];
    assert LoadRows(EMPTY, B_THEN_A) == LoadRows(f, [B_THEN_A[1]]) == LoadRows(Add(f, "a", Some("/a"), {}), []);
  }

  /**
   Serial order is lost by a full listing: when uids do not sort in order of arrival,
   a message registered under its href is no longer found, and its removal is skipped.
   */
  lemma ListingHidesMessage()
    ensures var f := Load(B_THEN_A, 0);
            var g := GetContents(f, [], true);
            InOrder(f) && "/b" in g.byHref && MessageRemoved(g, "/b") == g
  {
    hide SortMessages, LoadRows;
    DisorderLoaded();
    assert StrLe("b", "a") == false;
    SortTwo(MESSAGE_B, MESSAGE_A);
    assert BinarySearch([MESSAGE_A, MESSAGE_B], 0, 1, 0) == -1;
    hide BinarySearch;
  }

  lemma SortTwo(b: Message, a: Message)
    requires !StrLe(b.uid, a.uid)
    ensures SortMessages([b, a]) == [a, b]
  {
    assert [b, a][1..] == [a];
    assert [a][1..] == [];
    assert SortMessages([a]) == InsertMessage(a, SortMessages([]));
  }

  // ---- what keeps serial order ---------------------------------------------

  lemma AddInOrder(f: Folder, uid: string, href: Option<string>, flags: Word)
    requires InOrder(f)
    ensures InOrder(Add(f, uid, href, flags))
  {
  }

  lemma RemoveAtInOrder(f: Folder, k: nat)
    requires InOrder(f) && k < |f.messages|
    ensures InOrder(RemoveAt(f, k))
  {
  }

  lemma ReplaceInOrder(f: Folder, m: Message, g: Folder)
    requires InOrder(f) && g.messages == Replace(f.messages, m) && g.nextSerial == f.nextSerial
    ensures InOrder(g)
  {
    forall x | x in g.messages
      ensures x.serial < g.nextSerial
    {
      var i :| 0 <= i < |g.messages| && g.messages[i] == x;
      assert f.messages[i] in f.messages;
    }
  }

  lemma MessageRemovedInOrder(f: Folder, href: string)
    requires InOrder(f)
    ensures InOrder(MessageRemoved(f, href))
  {
    hide BinarySearch, RemoveAt, InOrder, Fetch;
    match FindByHref(f, href)
    case None =>
    case Some(m) =>
      var k := BinarySearch(f.messages, 0, |f.messages| - 1, m.serial);
      if k != -1 { RemoveAtInOrder(f, k); }
  }

  lemma {:induction false} RemovalsInOrder(f: Folder, hrefs: seq<string>)
    requires InOrder(f)
    ensures InOrder(Removals(f, hrefs))
    decreases hrefs
  {
    if hrefs != [] {
      MessageRemovedInOrder(f, hrefs[0]);
      RemovalsInOrder(CountDeleted(MessageRemoved(f, hrefs[0])), hrefs[1..]);
    }
  }

  lemma {:induction false} LoadInOrder(f: Folder, rows: seq<Row>)
    requires InOrder(f)
    ensures InOrder(LoadRows(f, rows))
    decreases rows
  {
    if rows != [] {
      var href := if rows[0].href == Some("") then None else rows[0].href;
      AddInOrder(f, rows[0].uid, href, rows[0].flags);
      LoadInOrder(Add(f, rows[0].uid, href, rows[0].flags), rows[1..]);
    }
  }

  lemma RefreshItemInOrder(f: Folder, it: Item)
    requires InOrder(f) && it.Usable()
    ensures InOrder(RefreshItem(f, it))
  {
    hide Find;
    match Find(f, it.uid.value)
    case Some(m) => ReplaceInOrder(f, m.(flags := it.flags), ChangeFlags(f, m, it.flags));
    case None =>
      var cleared := if it.href in f.byHref then MessageRemoved(CountDeleted(f), it.href) else f;
      MessageRemovedInOrder(CountDeleted(f), it.href);
      AddInOrder(cleared, it.uid.value, Some(it.href), it.flags);
  }

  lemma {:induction false} RefreshItemsInOrder(f: Folder, items: seq<Item>)
    requires InOrder(f) && forall it <- items :: it.Usable()
    ensures InOrder(RefreshItems(f, items))
    decreases items
  {
    if items != [] {
      RefreshItemInOrder(f, items[0]);
      RefreshItemsInOrder(RefreshItem(f, items[0]), items[1..]);
    }
  }

  lemma {:induction false} MarkListedInOrder(f: Folder, listing: seq<Listed>)
    requires InOrder(f)
    ensures InOrder(MarkListed(f, listing))
    decreases listing
  {
    if listing != [] {
      match FindByHref(f, listing[0].href) {
        case None => MarkListedInOrder(f, listing[1..]);
        case Some(m) =>
          var g := if (SEEN in m.flags) != listing[0].read then ChangeFlags(f, m, FlipSeen(m.flags)) else f;
          ReplaceInOrder(f, m.(flags := FlipSeen(m.flags)), ChangeFlags(f, m, FlipSeen(m.flags)));
          MarkListedInOrder(g, listing[1..]);
      }
    }
  }

  lemma {:induction false} RemoveUnknownInOrder(f: Folder, known: set<nat>, k: int)
    requires InOrder(f) && -1 <= k < |f.messages|
    ensures InOrder(RemoveUnknown(f, known, k))
    decreases k + 1
  {
    if k >= 0 {
      if f.messages[k].serial in known {
        RemoveUnknownInOrder(f, known, k - 1);
      } else {
        RemoveAtInOrder(CountDeleted(f), k);
        RemoveUnknownInOrder(RemoveAt(CountDeleted(f), k), known, k - 1);
      }
    }
  }

  lemma {:induction false} FlushLoopInOrder(f: Folder, i: nat)
    requires InOrder(f)
    ensures InOrder(FlushLoop(f, i))
    decreases |f.changed| - i
  {
    hide Flushed, Fetch;
    if i < |f.changed| {
      match Fetch(f.messages, f.changed[i]) {
        case None => FlushLoopInOrder(f, i + 1);
        case Some(m) =>
          var g := f.(messages := Replace(f.messages, Flushed(m)));
          ReplaceInOrder(f, Flushed(m), g);
          if Flushed(m).changeMask == {} {
            FlushLoopInOrder(g.(changed := RemoveFastAt(g.changed, i)), i);
          } else {
            FlushLoopInOrder(g, i + 1);
          }
      }
    }
  }
}
