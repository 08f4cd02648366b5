/**
 What loading, confirmed removals, the end of a flush and a refresh leave in the folder,
 each told from the folder and the data alone.
 */
module FolderEffects {
  import opened Basics
  import opened MessageFlags
  import opened FolderState
  import opened FolderIndex
  import opened PendingQueue
  import opened SearchOrder
  import opened RefreshCompleteness
  import opened RefreshLosses

  // ---- loading -------------------------------------------------------------

  /** A saved row as a message: an empty href counts as none, and nothing is pending. */
  ghost predicate FromRow(m: Message, r: Row, serial: nat) {
    && m.uid == r.uid && m.flags == r.flags && m.serial == serial
    && m.href == (if r.href == Some("") then None else r.href)
    && m.changeFlags == {} && m.changeMask == {} && m.tags == map[]
  }

  lemma {:induction false} LoadRowsExact(f: Folder, rows: seq<Row>)
    ensures var g := LoadRows(f, rows);
            && |g.messages| == |f.messages| + |rows| && g.messages[..|f.messages|] == f.messages
            && (forall i :: 0 <= i < |rows| ==> FromRow(g.messages[|f.messages| + i], rows[i], f.nextSerial + i))
            && g.changed == f.changed && g.deletedCount == f.deletedCount && g.nextSerial == f.nextSerial + |rows|
    decreases rows
  {
    hide U32;
    if rows != [] {
      var href := if rows[0].href == Some("") then None else rows[0].href;
      var g, h := Add(f, rows[0].uid, href, rows[0].flags), LoadRows(f, rows);
      LoadRowsExact(g, rows[1..]);
      assert h.messages[..|f.messages|] == h.messages[..|g.messages|][..|f.messages|];
      assert h.messages[|f.messages|] == h.messages[..|g.messages|][|f.messages|];
      forall i | 0 <= i < |rows|
        ensures FromRow(h.messages[|f.messages| + i], rows[i], f.nextSerial + i)
      {
        if i > 0 { assert FromRow(h.messages[|g.messages| + (i - 1)], rows[1..][i - 1], g.nextSerial + (i - 1)); }
      }
    }
  }

  /** A loaded folder holds the saved rows as its messages, in order, and nothing else. */
  lemma LoadExact(rows: seq<Row>, highArticle: nat)
    ensures var g := Load(rows, highArticle);
            && |g.messages| == |rows| && (forall i :: 0 <= i < |rows| ==> FromRow(g.messages[i], rows[i], i))
            && g.highArticle == highArticle && g.changed == [] && g.deletedCount == 0
  {
    LoadRowsExact(EMPTY, rows);
    assert forall i :: 0 <= i < |rows| ==> FromRow(LoadRows(EMPTY, rows).messages[0 + i], rows[i], 0 + i);
  }

  // ---- confirmed removals --------------------------------------------------

  /** One of the hrefs is registered to the message. */
  ghost predicate Confirmed(f: Folder, hrefs: seq<string>, serial: nat) {
    exists h <- hrefs :: h in f.byHref && f.byHref[h] == serial
  }

  /** What is left of a folder in serial order after one confirmed removal. */
  ghost predicate OnlyWithout(f: Folder, href: string, g: Folder) {
    && (forall m :: m in g.messages <==> m in f.messages && !(href in f.byHref && f.byHref[href] == m.serial))
    && (forall h :: h in g.byHref <==> h in f.byHref && h != href)
    && (forall h <- g.byHref :: g.byHref[h] == f.byHref[h])
  }

  lemma OneRemoved(f: Folder, href: string)
    requires Indexed(f) && InOrder(f)
    ensures OnlyWithout(f, href, MessageRemoved(f, href)) && MessageRemoved(f, href).deletedCount == f.deletedCount
  {
    hide Indexed, InOrder, MessageRemoved, RemovesAt, Position;
    var g := MessageRemoved(f, href);
    MessageRemovedExact(f, href);
    RemovedCount(f, href);
    forall h | h != href
      ensures (h in g.byHref <==> h in f.byHref) && (h in f.byHref ==> g.byHref[h] == f.byHref[h])
    {
      RemovalKeepsHrefs(f, href, h);
    }
    if href in f.byHref { RemovedOne(f, href, g); }
  }

  lemma RemovedCount(f: Folder, href: string)
    ensures MessageRemoved(f, href).deletedCount == f.deletedCount
  {
    hide BinarySearch, Fetch, RemoveFast;
  }

  lemma RemovedOne(f: Folder, href: string, g: Folder)
    requires Indexed(f) && href in f.byHref
    requires RemovesAt(f, href, Position(f.messages, f.byHref[href]), g)
    ensures href !in g.byHref && forall m :: m in g.messages <==> m in f.messages && f.byHref[href] != m.serial
  {
    hide UidsSound, HrefsSound, QueueBounded;
    var k := Position(f.messages, f.byHref[href]);
    RemovedMembers(f.messages, k);
    forall m | m in f.messages
      ensures m.serial == f.byHref[href] <==> m == f.messages[k]
    {
      FetchMember(f.messages, m);
      FetchMember(f.messages, f.messages[k]);
    }
  }

  /**
   The server's confirmations take exactly their messages out of a folder in serial order: what
   is left are the messages registered under none of the hrefs, none of the hrefs stays
   registered, all others do, and every confirmation is counted.
   */
  lemma {:induction false} RemovalsExact(f: Folder, hrefs: seq<string>)
    requires Indexed(f) && InOrder(f) && f.deletedCount < 0x1_0000_0000
    ensures var g := Removals(f, hrefs);
            && Indexed(g) && InOrder(g)
            && (forall m :: m in g.messages <==> m in f.messages && !Confirmed(f, hrefs, m.serial))
            && (forall h :: h in g.byHref <==> h in f.byHref && h !in hrefs)
            && (forall h <- g.byHref :: g.byHref[h] == f.byHref[h])
            && g.deletedCount == U32(f.deletedCount + |hrefs|)
    decreases hrefs
  {
    hide Indexed, InOrder, MessageRemoved;
    if hrefs != [] {
      var one := MessageRemoved(f, hrefs[0]);
      var g := CountDeleted(one);
      OneRemoved(f, hrefs[0]);
      MessageRemovedIndexed(f, hrefs[0]);
      MessageRemovedInOrder(f, hrefs[0]);
      SameTables(one, g);
      SameMessagesOrder(one, g);
      RemovalsExact(g, hrefs[1..]);
      assert forall h :: h in hrefs <==> h == hrefs[0] || h in hrefs[1..];
      assert g.deletedCount == U32(f.deletedCount + 1);
      U32Sum(f.deletedCount + 1, |hrefs[1..]|);
      forall m | m in f.messages
        ensures Confirmed(f, hrefs, m.serial) <==>
                (hrefs[0] in f.byHref && f.byHref[hrefs[0]] == m.serial) || Confirmed(g, hrefs[1..], m.serial)
      {
        OneMoreConfirmed(f, hrefs, g, m.serial);
      }
    }
  }

  lemma SameMessagesOrder(f: Folder, g: Folder)
    requires InOrder(f) && g.messages == f.messages && g.nextSerial == f.nextSerial
    ensures InOrder(g)
  {
  }

  lemma OneMoreConfirmed(f: Folder, hrefs: seq<string>, g: Folder, serial: nat)
    requires hrefs != []
    requires forall h :: h in g.byHref <==> h in f.byHref && h != hrefs[0]
    requires forall h <- g.byHref :: g.byHref[h] == f.byHref[h]
    ensures Confirmed(f, hrefs, serial) <==>
            (hrefs[0] in f.byHref && f.byHref[hrefs[0]] == serial) || Confirmed(g, hrefs[1..], serial)
  {
    assert forall h :: h in hrefs <==> h == hrefs[0] || h in hrefs[1..];
  }

  // ---- the end of a flush --------------------------------------------------

  /** A queued message asks to be deleted. */
  ghost predicate DeletionQueued(f: Folder) {
    exists m <- f.messages :: m.serial in f.changed && DELETED in m.changeMask && DELETED in m.changeFlags
  }

  lemma DeletionQueuedIff(f: Folder)
    requires Flushable(f)
    ensures AnyDelete(FlushLoop(f, 0)) <==> DeletionQueued(f)
  {
    hide FlushLoop, Flushed, Flushable, AnyDelete, DeletionHrefs;
    var g := FlushLoop(f, 0);
    LoopLeaves(f);
    AnyDeleteIff(g);
    var hrefs := DeletionHrefs(g.messages, g.changed);
    if hrefs != [] {
      assert hrefs[0] in hrefs;
      DeletionsPosted(f, hrefs[0]);
    }
    if m :| m in f.messages && m.serial in f.changed && DELETED in m.changeMask && DELETED in m.changeFlags {
      DeletionsPosted(f, m.href);
      assert AsksDeletion(Some(m));
      assert m.href in hrefs;
    }
  }

  /** The message as the flush leaves it: its edits sent if it was queued. */
  ghost predicate LeftBy(f: Folder, m: Message, x: Message) {
    x == if m.serial in f.changed then Flushed(m) else m
  }

  /**
   A run of the flusher, in serial order: if a deletion was queued and no read-state edit, the
   messages at the hrefs whose deletion the server confirms are gone, each confirmation is
   counted, and the queue is empty; otherwise every message stays.
   */
  lemma FlushExact(f: Folder, gone: seq<string>)
    requires Indexed(f) && InOrder(f) && Flushable(f) && f.deletedCount < 0x1_0000_0000
    ensures var g := Flush(f, gone);
            var confirmed := if DeletionQueued(f) && !AnyReadEdit(f) then gone else [];
            && (forall x :: x in g.messages <==>
                  exists m <- f.messages :: !Confirmed(f, confirmed, m.serial) && LeftBy(f, m, x))
            && (forall h :: h in g.byHref <==> h in f.byHref && h !in confirmed)
            && g.deletedCount == U32(f.deletedCount + |confirmed|)
            && (!AnyReadEdit(f) ==> g.changed == [])
  {
    hide Indexed, InOrder, Flushable, FlushLoop, Removals, Flushed, AnyDelete, AnyReadEdit, DeletionQueued;
    var l := FlushLoop(f, 0);
    LoopFields(f);
    LoopLeaves(f);
    FlushLoopIndexed(f, 0);
    FlushLoopInOrder(f, 0);
    DeletionQueuedIff(f);
    var confirmed := if DeletionQueued(f) && !AnyReadEdit(f) then gone else [];
    RemovalsExact(l, confirmed);
    NoRemovals(l);
    forall x
      ensures x in Removals(l, confirmed).messages <==>
              exists m <- f.messages :: !Confirmed(f, confirmed, m.serial) && LeftBy(f, m, x)
    {
      LeftMember(f, l, confirmed, x);
    }
  }

  lemma NoRemovals(f: Folder)
    ensures Removals(f, []) == f
  {
  }

  lemma LeftMember(f: Folder, l: Folder, confirmed: seq<string>, x: Message)
    requires l.byHref == f.byHref
    requires forall m :: m in l.messages <==>
                           exists y <- f.messages :: m == if y.serial in f.changed then Flushed(y) else y
    ensures x in l.messages && !Confirmed(l, confirmed, x.serial) <==>
            exists m <- f.messages :: !Confirmed(f, confirmed, m.serial) && LeftBy(f, m, x)
  {
    hide Flushed;
    forall m: Message
      ensures Flushed(m).serial == m.serial
    {
      FlushedSame(m);
    }
    if x in l.messages && !Confirmed(l, confirmed, x.serial) {
      var y :| y in f.messages && x == if y.serial in f.changed then Flushed(y) else y;
      assert LeftBy(f, y, x);
    }
    if m :| m in f.messages && !Confirmed(f, confirmed, m.serial) && LeftBy(f, m, x) {
      assert x in l.messages;
    }
  }

  lemma LoopFields(f: Folder)
    requires Flushable(f)
    ensures var l := FlushLoop(f, 0);
            l.byHref == f.byHref && l.deletedCount == f.deletedCount
  {
    hide FlushLoop, Flushable;
    FlushLoopOutcome(f, 0);
  }

  // ---- after a refresh -----------------------------------------------------

  /**
   A row with a new uid registers its message under its href, and is counted as a deletion if
   something was registered there; a row of a known uid leaves hrefs and counter alone.
   */
  lemma RefreshItemHref(f: Folder, it: Item)
    requires Indexed(f) && it.Usable()
    ensures var g := RefreshItem(f, it);
            if it.uid.value in f.byUid then g.byHref == f.byHref && g.deletedCount == f.deletedCount
            else
              && FindByHref(g, it.href) == Find(g, it.uid.value) && Find(g, it.uid.value).Some?
              && g.deletedCount == if it.href in f.byHref then U32(f.deletedCount + 1) else f.deletedCount
  {
    hide Indexed, MessageRemoved, Fetch, Replace, U32;
    FindNone(f, it.uid.value);
    RefreshItemIndexed(f, it);
    RefreshItemExact(f, it);
    RemovedCount(CountDeleted(f), it.href);
  }

  /** The flags the last row of that uid gives. */
  function LastFlags(rows: seq<Item>, u: string): Option<Word> {
    if rows == [] then None
    else
      var last := rows[|rows| - 1];
      if last.uid == Some(u) then Some(last.flags) else LastFlags(rows[..|rows| - 1], u)
  }

  lemma RowFlags(f: Folder, it: Item, u: string)
    requires Indexed(f) && it.Usable() && u in RefreshItem(f, it).byUid
    ensures var g := RefreshItem(f, it);
            && Find(g, u).Some?
            && (u == it.uid.value ==> Find(g, u).value.flags == it.flags)
            && (u != it.uid.value ==> u in f.byUid && Find(g, u) == Find(f, u))
  {
    hide Indexed, RefreshItem, Find, Evicts;
    RefreshItemIndexed(f, it);
    RefreshItemUids(f, it, u);
    RefreshItemExact(f, it);
    FindNone(RefreshItem(f, it), u);
    if u != it.uid.value { OtherFound(f, it, u); }
  }

  lemma OtherFound(f: Folder, it: Item, u: string)
    requires it.Usable() && Indexed(f) && Indexed(RefreshItem(f, it)) && u != it.uid.value
    requires var g := RefreshItem(f, it); u in g.byUid && u in f.byUid && g.byUid[u] == f.byUid[u]
    ensures Find(RefreshItem(f, it), u) == Find(f, u)
  {
    hide RefreshItem, Fetch, HrefsSound, QueueBounded;
    var g, s := RefreshItem(f, it), f.byUid[u];
    RefreshItemExact(f, it);
    assert BearsUid(g.messages, s, u) && BearsUid(f.messages, s, u);
    assert Find(g, it.uid.value).value.uid == it.uid.value by { FindNone(g, it.uid.value); }
    FetchFrom(g.messages, s);
    FetchFrom(g.messages, g.byUid[it.uid.value]);
  }

  /** After a refresh every known message with a row has the flags of its last row; the others keep theirs. */
  lemma {:induction false} RefreshFlags(f: Folder, rows: seq<Item>, u: string)
    requires Indexed(f) && AllUsable(rows) && u in RefreshItems(f, rows).byUid
    ensures Indexed(RefreshItems(f, rows)) && Find(RefreshItems(f, rows), u).Some?
    ensures match LastFlags(rows, u)
            case Some(flags) => Find(RefreshItems(f, rows), u).value.flags == flags
            case None => Find(RefreshItems(f, rows), u) == Find(f, u)
    decreases |rows|
  {
    hide Indexed, RefreshItem, RefreshItems, Find;
    RefreshItemsIndexed(f, rows);
    if rows == [] {
      NothingLost(f, u);
      FindNone(f, u);
    } else {
      var front, last := rows[..|rows| - 1], rows[|rows| - 1];
      assert rows == front + [last];
      RefreshItemsSplit(f, front, last);
      RefreshItemsIndexed(f, front);
      RowFlags(RefreshItems(f, front), last, u);
      if last.uid.value != u { RefreshFlags(f, front, u); }
    }
  }
}
