/**
 What a refresh forgets.  A row with a new uid at an href the index holds for another
 message pushes that message out; the theorems here say exactly which uids are known
 when the refresh is over, and what that means for a full listing followed by a refresh.
 */
module RefreshLosses {
  import opened Basics
  import opened MessageFlags
  import opened FolderState
  import opened FolderIndex
  import opened ArticleNumbers
  import opened SearchOrder
  import opened NoLostMail
  import opened RefreshCompleteness

  /** Recording the row makes the client forget the message of uid `u`. */
  ghost predicate Evicts(f: Folder, it: Item, u: string)
    requires it.Usable()
  {
    && u != it.uid.value && u in f.byUid && it.uid.value !in f.byUid
    && it.href in f.byHref && f.byHref[it.href] == f.byUid[u]
    && BinarySearch(f.messages, 0, |f.messages| - 1, f.byUid[u]) != -1
  }

  ghost predicate AllUsable(rows: seq<Item>) {
    forall it <- rows :: it.Usable()
  }

  ghost predicate Names(rows: seq<Item>, u: string) {
    exists it <- rows :: it.uid == Some(u)
  }

  /** Row `k` evicts the message of uid `u`, and no later row brings it back. */
  ghost predicate LostAt(f: Folder, rows: seq<Item>, u: string, k: nat)
    requires AllUsable(rows)
  {
    && k < |rows|
    && Evicts(RefreshItems(f, rows[..k]), rows[k], u)
    && !Names(rows[k + 1..], u)
  }

  // ---- rows one by one -----------------------------------------------------

  lemma {:induction false} RefreshItemsSplit(f: Folder, rows: seq<Item>, last: Item)
    requires AllUsable(rows) && last.Usable()
    ensures RefreshItems(f, rows + [last]) == RefreshItem(RefreshItems(f, rows), last)
    decreases rows
  {
    hide RefreshItem;
    if rows == [] {
      assert ([] + [last])[1..] == [];
      assert RefreshItems(f, [] + [last]) == RefreshItem(f, last);
    } else {
      assert (rows + [last])[1..] == rows[1..] + [last];
      RefreshItemsSplit(RefreshItem(f, rows[0]), rows[1..], last);
    }
  }

  /** A row registers its own uid; any other uid it leaves alone or forgets. */
  lemma RefreshItemUids(f: Folder, it: Item, u: string)
    requires Indexed(f) && it.Usable()
    ensures var g := RefreshItem(f, it);
            && (u in g.byUid <==> u == it.uid.value || (u in f.byUid && !Evicts(f, it, u)))
            && (u in g.byUid && u in f.byUid ==> g.byUid[u] == f.byUid[u])
  {
    hide Fetch, BinarySearch, RemoveFast;
    RefreshItemKnows(f, it);
    FindNone(f, it.uid.value);
    if u in f.byUid && u != it.uid.value { RefreshForgetsIff(f, it, u); }
  }

  lemma LostEarlier(f: Folder, front: seq<Item>, last: Item, u: string, k: nat)
    requires AllUsable(front) && AllUsable(front + [last]) && last.Usable() && last.uid.value != u && k < |front|
    ensures LostAt(f, front + [last], u, k) <==> LostAt(f, front, u, k)
  {
    hide Evicts, RefreshItems;
    var rows := front + [last];
    assert rows[..k] == front[..k] && rows[k] == front[k];
    assert rows[k + 1..] == front[k + 1..] + [last];
  }

  lemma LostLast(f: Folder, front: seq<Item>, last: Item, u: string)
    requires AllUsable(front) && AllUsable(front + [last])
    ensures LostAt(f, front + [last], u, |front|) <==> Evicts(RefreshItems(f, front), last, u)
  {
    hide Evicts, RefreshItems;
    var rows := front + [last];
    assert rows[..|front|] == front && rows[|front|] == last && rows[|front| + 1..] == [];
  }

  lemma LastNames(f: Folder, front: seq<Item>, last: Item, u: string, k: nat)
    requires AllUsable(front + [last]) && last.Usable() && last.uid.value == u
    ensures !LostAt(f, front + [last], u, k)
  {
    hide RefreshItems;
    var rows := front + [last];
    if k < |front| {
      var later := rows[k + 1..];
      assert later[|later| - 1] == last && last in later;
    }
  }

  /**
   What is known after a refresh, exactly: the uids known before and those of its rows, but
   for those evicted by a row after which no row names them.
   */
  lemma {:induction false} RefreshKnowsIff(f: Folder, rows: seq<Item>, u: string)
    requires Indexed(f) && AllUsable(rows)
    ensures Indexed(RefreshItems(f, rows))
    ensures u in RefreshItems(f, rows).byUid <==>
              (u in f.byUid || Names(rows, u)) && !exists k :: LostAt(f, rows, u, k)
    decreases |rows|
  {
    hide Indexed, RefreshItem, RefreshItems, LostAt, Evicts;
    if rows == [] {
      NothingLost(f, u);
    } else {
      var front, last := rows[..|rows| - 1], rows[|rows| - 1];
      assert rows == front + [last];
      RefreshItemsSplit(f, front, last);
      RefreshKnowsIff(f, front, u);
      var g := RefreshItems(f, front);
      RefreshItemIndexed(g, last);
      RefreshItemUids(g, last, u);
      assert Names(rows, u) <==> Names(front, u) || last.uid == Some(u);
      if last.uid.value == u {
        forall k: nat
          ensures !LostAt(f, rows, u, k)
        {
          LastNames(f, front, last, u, k);
        }
      } else {
        LostOneOf(f, front, last, u);
      }
    }
  }

  lemma NothingLost(f: Folder, u: string)
    ensures RefreshItems(f, []) == f && !exists k :: LostAt(f, [], u, k)
  {
  }

  lemma LostOneOf(f: Folder, front: seq<Item>, last: Item, u: string)
    requires AllUsable(front) && AllUsable(front + [last]) && last.Usable() && last.uid.value != u
    ensures (exists k :: LostAt(f, front + [last], u, k)) <==>
              (exists k :: LostAt(f, front, u, k)) || Evicts(RefreshItems(f, front), last, u)
  {
    hide LostAt, Evicts;
    LostLast(f, front, last, u);
    forall k: nat
      ensures k < |front| ==> (LostAt(f, front + [last], u, k) <==> LostAt(f, front, u, k))
      ensures LostAt(f, front, u, k) ==> k < |front|
      ensures LostAt(f, front + [last], u, k) ==> k <= |front|
    {
      LostInside(f, front, u, k);
      LostInside(f, front + [last], u, k);
      if k < |front| { LostEarlier(f, front, last, u, k); }
    }
  }

  lemma LostInside(f: Folder, rows: seq<Item>, u: string, k: nat)
    requires AllUsable(rows)
    ensures LostAt(f, rows, u, k) ==> k < |rows|
  {
  }

  // ---- in serial order: a condition on state and rows alone -----------------

  /** The row sits at the href registered to the message of uid `u`. */
  ghost predicate Takes(f: Folder, it: Item, u: string)
    requires it.Usable()
  {
    it.uid.value != u && u in f.byUid && it.href in f.byHref && f.byHref[it.href] == f.byUid[u]
  }

  /** Row `k` finds its uid unknown: from the start, or since an earlier new row took its place. */
  ghost predicate Fresh(f: Folder, rows: seq<Item>, k: nat)
    requires AllUsable(rows)
    decreases k
  {
    k < |rows| && (assert rows[k].Usable(); rows[k].uid.value !in f.byUid
                   || exists j: nat | j < k :: Fresh(f, rows, j) && Takes(f, rows[j], rows[k].uid.value))
  }

  /** Every uid and every href is listed once. */
  ghost predicate OneRowEach(rows: seq<Item>) {
    forall i, j :: 0 <= i < j < |rows| ==> rows[i].uid != rows[j].uid && rows[i].href != rows[j].href
  }

  /** A row leaves alone every href but its own, and the message registered there. */
  lemma OtherHrefKept(f: Folder, it: Item, h: string, u: string)
    requires Indexed(f) && it.Usable() && h != it.href
    ensures var g := RefreshItem(f, it);
            && (h in g.byHref <==> h in f.byHref) && (h in f.byHref ==> g.byHref[h] == f.byHref[h])
            && (h in f.byHref && u in f.byUid && f.byUid[u] == f.byHref[h] ==> u in g.byUid && g.byUid[u] == f.byUid[u])
  {
    hide Fetch, BinarySearch, RemoveFast, Indexed;
    OnlyOwnHref(f, it, h);
    RefreshItemUids(f, it, u);
    if h in f.byHref && it.href in f.byHref { OneHrefEach(f, h, it.href); }
  }

  lemma OneHrefEach(f: Folder, h: string, h': string)
    requires Indexed(f) && h in f.byHref && h' in f.byHref && h != h'
    ensures f.byHref[h] != f.byHref[h']
  {
    assert BearsHref(f.messages, f.byHref[h], h) && BearsHref(f.messages, f.byHref[h'], h');
  }

  lemma {:induction false} OtherHrefsKept(f: Folder, rows: seq<Item>, h: string, u: string)
    requires Indexed(f) && AllUsable(rows) && forall it <- rows :: it.href != h
    ensures var g := RefreshItems(f, rows);
            && (h in g.byHref <==> h in f.byHref) && (h in f.byHref ==> g.byHref[h] == f.byHref[h])
            && (h in f.byHref && u in f.byUid && f.byUid[u] == f.byHref[h] ==> u in g.byUid && g.byUid[u] == f.byUid[u])
    decreases rows
  {
    hide Indexed, RefreshItem;
    if rows != [] {
      OtherHrefKept(f, rows[0], h, u);
      RefreshItemIndexed(f, rows[0]);
      OtherHrefsKept(RefreshItem(f, rows[0]), rows[1..], h, u);
    }
  }

  /** In serial order the search finds every message that has an entry. */
  lemma SearchHits(f: Folder, u: string)
    requires Indexed(f) && InOrder(f) && u in f.byUid
    ensures BinarySearch(f.messages, 0, |f.messages| - 1, f.byUid[u]) != -1
  {
    hide BinarySearch;
    assert BearsUid(f.messages, f.byUid[u], u);
    SearchFinds(f.messages, 0, |f.messages| - 1, Position(f.messages, f.byUid[u]));
  }

  /** The message registered at an href has a uid. */
  lemma OwnerNamed(f: Folder, h: string) returns (o: string)
    requires Indexed(f) && h in f.byHref
    ensures o in f.byUid && f.byUid[o] == f.byHref[h]
  {
    hide Fetch;
    assert BearsHref(f.messages, f.byHref[h], h);
    BearerNamed(f, f.byHref[h]);
    o := Fetch(f.messages, f.byHref[h]).value.uid;
  }

  lemma OneUidEach(f: Folder, u: string, v: string)
    requires Indexed(f) && u in f.byUid && v in f.byUid && f.byUid[u] == f.byUid[v]
    ensures u == v
  {
    assert BearsUid(f.messages, f.byUid[u], u) && BearsUid(f.messages, f.byUid[v], v);
  }

  /** What a row evicts from a state in serial order, with its href untouched since `f`. */
  lemma EvictsTaken(f: Folder, g: Folder, it: Item, u: string)
    requires Indexed(f) && Indexed(g) && InOrder(g) && it.Usable()
    requires it.href in g.byHref <==> it.href in f.byHref
    requires it.href in f.byHref ==> g.byHref[it.href] == f.byHref[it.href]
    requires forall o <- f.byUid :: it.href in f.byHref && f.byUid[o] == f.byHref[it.href] ==>
                                      o in g.byUid && g.byUid[o] == f.byUid[o]
    ensures Evicts(g, it, u) <==> it.uid.value !in g.byUid && Takes(f, it, u)
  {
    hide Indexed, InOrder, BinarySearch;
    if u in g.byUid { SearchHits(g, u); }
    if it.href in f.byHref {
      var o := OwnerNamed(f, it.href);
      if u in g.byUid && g.byUid[u] == g.byUid[o] { OneUidEach(g, u, o); }
      if u in f.byUid && f.byUid[u] == f.byUid[o] { OneUidEach(f, u, o); }
    }
  }

  lemma PrefixState(f: Folder, rows: seq<Item>, k: nat, u: string)
    requires Indexed(f) && InOrder(f) && AllUsable(rows) && OneRowEach(rows) && k < |rows|
    ensures Evicts(RefreshItems(f, rows[..k]), rows[k], u) <==>
              rows[k].uid.value !in RefreshItems(f, rows[..k]).byUid && Takes(f, rows[k], u)
  {
    hide Indexed, InOrder, RefreshItems, Evicts, Takes;
    var front, it := rows[..k], rows[k];
    assert AllUsable(front);
    var g := RefreshItems(f, front);
    RefreshItemsIndexed(f, front);
    RefreshItemsInOrder(f, front);
    forall o
      ensures (it.href in g.byHref <==> it.href in f.byHref)
              && (it.href in f.byHref ==> g.byHref[it.href] == f.byHref[it.href])
      ensures it.href in f.byHref && o in f.byUid && f.byUid[o] == f.byHref[it.href] ==>
              o in g.byUid && g.byUid[o] == f.byUid[o]
    {
      OtherHrefsKept(f, front, it.href, o);
    }
    EvictsTaken(f, g, it, u);
  }

  /** In serial order row `k` evicts exactly the message whose href it takes, if its uid is new by then. */
  lemma {:induction false} EvictsIff(f: Folder, rows: seq<Item>, k: nat, u: string)
    requires Indexed(f) && InOrder(f) && AllUsable(rows) && OneRowEach(rows) && k < |rows|
    ensures Evicts(RefreshItems(f, rows[..k]), rows[k], u) <==> Fresh(f, rows, k) && Takes(f, rows[k], u)
    decreases k
  {
    hide Indexed, InOrder, RefreshItems, Evicts, Takes;
    assert rows[k].Usable();
    var front, v := rows[..k], rows[k].uid.value;
    assert AllUsable(front);
    PrefixState(f, rows, k, u);
    RefreshKnowsIff(f, front, v);
    assert !Names(front, v);
    forall j: nat
      ensures LostAt(f, front, v, j) <==> j < k && Fresh(f, rows, j) && Takes(f, rows[j], v)
    {
      if j < k {
        EvictsIff(f, rows, j, v);
        assert front[..j] == rows[..j] && front[j] == rows[j];
      }
    }
  }

  /** Some row that is new by then takes the href of the message, and no later row names it. */
  ghost predicate Displaced(f: Folder, rows: seq<Item>, u: string)
    requires AllUsable(rows)
  {
    exists k: nat | k < |rows| :: Fresh(f, rows, k) && Takes(f, rows[k], u) && !Names(rows[k + 1..], u)
  }

  /** In serial order what a refresh forgets can be read off the state it starts from and its rows. */
  lemma RefreshLosesIff(f: Folder, rows: seq<Item>, u: string)
    requires Indexed(f) && InOrder(f) && AllUsable(rows) && OneRowEach(rows)
    ensures u in RefreshItems(f, rows).byUid <==> (u in f.byUid || Names(rows, u)) && !Displaced(f, rows, u)
  {
    hide Indexed, InOrder, RefreshItems, Evicts, Takes, Fresh;
    RefreshKnowsIff(f, rows, u);
    forall k: nat
      ensures LostAt(f, rows, u, k) <==>
                k < |rows| && Fresh(f, rows, k) && Takes(f, rows[k], u) && !Names(rows[k + 1..], u)
    {
      if k < |rows| { EvictsIff(f, rows, k, u); }
    }
  }

  // ---- a full listing followed by a refresh --------------------------------

  /** The rows a refresh asks for after the full listing: those above its high article number. */
  ghost predicate Above(fetched: seq<Item>, listing: seq<Item>, high: nat) {
    forall it :: it in fetched <==> it in listing && it.article.Some? && it.article.value > high
  }

  lemma SortedUsable(fetched: seq<Item>)
    ensures AllUsable(SortItems(FolderState.Usable(fetched)))
    ensures forall it :: it in SortItems(FolderState.Usable(fetched)) <==> it in fetched && it.Usable()
  {
    var rows := SortItems(FolderState.Usable(fetched));
    forall it
      ensures it in rows <==> it in fetched && it.Usable()
    {
      assert it in rows <==> it in multiset(FolderState.Usable(fetched));
    }
  }

  /** Once listed, a uid is known or about to be fetched. */
  lemma ListedReached(f: Folder, listing: seq<Item>, fetched: seq<Item>, it: Item)
    requires Indexed(f) && Numbered(listing) && DistinctArticles(listing) && it in listing && it.Usable()
    requires Above(fetched, listing, GetContents(f, listing, true).highArticle)
    ensures it.uid.value in GetContents(f, listing, true).byUid
            || Names(SortItems(FolderState.Usable(fetched)), it.uid.value)
  {
    hide Indexed, GetContents, SortItems, Numbered, DistinctArticles;
    FullListingMissesNothing(f, listing);
    OpenKeepsUids(f, listing);
    UidsRegistered(f);
    SortedUsable(fetched);
  }

  /**
   After a full listing and a refresh on the same rows a listed uid is known, unless a row of
   the refresh evicts its message and no later row names it.
   */
  lemma OpenThenRefreshKnowsIff(f: Folder, listing: seq<Item>, fetched: seq<Item>, it: Item)
    requires Indexed(f) && Numbered(listing) && DistinctArticles(listing) && it in listing && it.Usable()
    requires Above(fetched, listing, GetContents(f, listing, true).highArticle)
    ensures var g := GetContents(f, listing, true);
            var rows := SortItems(FolderState.Usable(fetched));
            && AllUsable(rows)
            && (it.uid.value in Refresh(g, fetched, true).byUid <==> !exists k :: LostAt(g, rows, it.uid.value, k))
  {
    hide Indexed, GetContents, SortItems, RefreshItems, LostAt, Numbered, DistinctArticles;
    ListedReached(f, listing, fetched, it);
    GetContentsIndexed(f, listing, true);
    SortedUsable(fetched);
    RefreshKnowsIff(GetContents(f, listing, true), SortItems(FolderState.Usable(fetched)), it.uid.value);
  }

  /** When the listing left the array in serial order, that can be read off the listed state. */
  lemma OpenThenRefreshLosesIff(f: Folder, listing: seq<Item>, fetched: seq<Item>, it: Item)
    requires Indexed(f) && Numbered(listing) && DistinctArticles(listing) && it in listing && it.Usable()
    requires Above(fetched, listing, GetContents(f, listing, true).highArticle)
    requires InOrder(GetContents(f, listing, true)) && OneRowEach(SortItems(FolderState.Usable(fetched)))
    ensures var g := GetContents(f, listing, true);
            var rows := SortItems(FolderState.Usable(fetched));
            && AllUsable(rows)
            && (it.uid.value !in Refresh(g, fetched, true).byUid <==> Displaced(g, rows, it.uid.value))
  {
    hide Indexed, InOrder, GetContents, SortItems, RefreshItems, Displaced, Numbered, DistinctArticles, OneRowEach;
    ListedReached(f, listing, fetched, it);
    GetContentsIndexed(f, listing, true);
    SortedUsable(fetched);
    RefreshLosesIff(GetContents(f, listing, true), SortItems(FolderState.Usable(fetched)), it.uid.value);
  }

  // ---- a listed message that is lost ---------------------------------------

  const OLD_ROW := Item(Some("a"), Some(3), "/n", {SEEN})
  const NEW_ROW := Item(Some("x"), Some(9), "/m", {})

  /** The client knows "a" at "/m"; the server has moved it to "/n" and put a new message at "/m". */
  function SoleMessage(high: nat): Folder {
    Folder([Message("a", Some("/m"), 0, {SEEN}, {}, {}, map[])], map["a" := 0], map["/m" := 0], 1, high, 0, 0, [])
  }

  lemma SoleLoaded()
    ensures Load([Row("a", Some("/m"), {SEEN})], 0) == SoleMessage(0) && Indexed(SoleMessage(0))
            && Indexed(SoleMessage(3)) && InOrder(SoleMessage(3))
  {
    var rows := [Row("a", Some("/m"), {SEEN})];
    assert rows[1..] == [];
    assert LoadRows(EMPTY, rows) == LoadRows(SoleMessage(0), []);
    assert Indexed(EMPTY);
    LoadIndexed(EMPTY, rows);
    SameIndex(SoleMessage(0), SoleMessage(3));
  }

  lemma SoleListed()
    ensures GetContents(SoleMessage(0), [OLD_ROW, NEW_ROW], true) == SoleMessage(3)
  {
    var f, ms, items := SoleMessage(0), SoleMessage(0).messages, [OLD_ROW, NEW_ROW];
    assert ms[1..] == [] && items[1..] == [NEW_ROW] && items[1..][1..] == [];
    assert SortMessages(ms) == InsertMessage(ms[0], SortMessages([])) == ms;
    assert DropUntil(ms, "a") == ms;
    assert Replace(ms, ms[0]) == ms;
    assert MatchItems(f, 0, ms, items) == MatchItems(f, 1, [], [NEW_ROW]) == f;
    assert ListingHigh(ms, items, 0) == ListingHigh([], [NEW_ROW], 3) == TrailingHigh([NEW_ROW], 3);
    assert TrailingHigh([NEW_ROW], 3) == TrailingHigh([], 3);
  }

  lemma OneNewRow()
    ensures SortItems(FolderState.Usable([NEW_ROW])) == [NEW_ROW]
  {
    assert [NEW_ROW][1..] == [];
    assert FolderState.Usable([NEW_ROW]) == [NEW_ROW] + FolderState.Usable([]);
    assert SortItems([NEW_ROW]) == InsertItem(NEW_ROW, SortItems([]));
  }

  /**
   A server that puts a new message where the client still has another one: the full listing
   names "a", the refresh that follows asks for the rows above it, and "a" is forgotten.
   */
  lemma ReusedHrefEvicts()
    ensures var f := Load([Row("a", Some("/m"), {SEEN})], 0);
            var listing := [OLD_ROW, NEW_ROW];
            var g := GetContents(f, listing, true);
            && Indexed(f) && Numbered(listing) && DistinctArticles(listing) && OneRowEach(listing)
            && Above([NEW_ROW], listing, g.highArticle) && "a" in g.byUid
            && "a" !in Refresh(g, [NEW_ROW], true).byUid
  {
    hide GetContents, RefreshItems, LoadRows;
    SoleLoaded();
    SoleListed();
    OneNewRow();
    assert forall it <- [OLD_ROW, NEW_ROW] :: it == OLD_ROW || it == NEW_ROW;
    assert NEW_ROW in [OLD_ROW, NEW_ROW];
    assert Fresh(SoleMessage(3), [NEW_ROW], 0) && Takes(SoleMessage(3), NEW_ROW, "a");
    assert !Names([NEW_ROW][1..], "a");
    RefreshLosesIff(SoleMessage(3), [NEW_ROW], "a");
  }
}
