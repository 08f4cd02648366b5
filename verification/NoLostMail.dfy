/**
 No lost mail over whole runs: whatever the server receives, renumbers, alters and removes,
 and whatever the client does in between, every row at or below the high article
 number has been known to the client.
 */
module NoLostMail {
  import opened Basics
  import opened MessageFlags
  import opened FolderState
  import opened FolderIndex
  import opened ArticleNumbers

  // ---- one refresh ---------------------------------------------------------

  /** The uids known at some moment of a refresh, on top of those known before. */
  ghost function RefreshEver(f: Folder, items: seq<Item>, ever: set<string>): set<string>
    requires forall it <- items :: it.Usable()
    decreases items
  {
    if items == [] then ever
    else
      var g := RefreshItem(f, items[0]);
      RefreshEver(g, items[1..], ever + g.byUid.Keys)
  }

  lemma RefreshItemKnows(f: Folder, it: Item)
    requires Indexed(f) && it.Usable()
    ensures it.uid.value in RefreshItem(f, it).byUid
    ensures RefreshItem(f, it).highArticle == Max(f.highArticle, it.article.value)
  {
    hide BinarySearch, Fetch;
    FindNone(f, it.uid.value);
  }

  lemma {:induction false} RefreshKnowsRows(f: Folder, items: seq<Item>, ever: set<string>)
    requires Indexed(f) && f.byUid.Keys <= ever && forall it <- items :: it.Usable()
    ensures var g := RefreshItems(f, items);
            var after := RefreshEver(f, items, ever);
            && ever <= after && g.byUid.Keys <= after
            && (forall it <- items :: it.uid.value in after && it.article.value <= g.highArticle)
            && f.highArticle <= g.highArticle
            && (g.highArticle == f.highArticle || exists it <- items :: it.article == Some(g.highArticle))
    decreases items
  {
    if items != [] {
      hide RefreshItem, Indexed;
      var g := RefreshItem(f, items[0]);
      RefreshItemKnows(f, items[0]);
      RefreshItemIndexed(f, items[0]);
      RefreshKnowsRows(g, items[1..], ever + g.byUid.Keys);
      assert forall it :: it in items <==> it == items[0] || it in items[1..];
    }
  }

  // ---- operations that learn nothing ---------------------------------------

  /** The operation registers no uid, old or new, and keeps the high article number. */
  ghost predicate Quiet(f: Folder, g: Folder) {
    && g.highArticle == f.highArticle && g.byUid.Keys <= f.byUid.Keys
    && forall u <- g.byUid :: g.byUid[u] == f.byUid[u]
  }

  lemma MessageRemovedQuiet(f: Folder, href: string)
    ensures Quiet(f, MessageRemoved(f, href))
  {
    hide BinarySearch, Fetch;
  }

  lemma {:induction false} RemovalsQuiet(f: Folder, hrefs: seq<string>)
    ensures Quiet(f, Removals(f, hrefs))
    decreases hrefs
  {
    if hrefs != [] {
      MessageRemovedQuiet(f, hrefs[0]);
      hide MessageRemoved;
      RemovalsQuiet(CountDeleted(MessageRemoved(f, hrefs[0])), hrefs[1..]);
    }
  }

  lemma {:induction false} MarkListedQuiet(f: Folder, listing: seq<Listed>)
    ensures Quiet(f, MarkListed(f, listing))
    decreases listing
  {
    hide Fetch;
    if listing != [] {
      match FindByHref(f, listing[0].href) {
        case None => MarkListedQuiet(f, listing[1..]);
        case Some(m) =>
          MarkListedQuiet(if (SEEN in m.flags) != listing[0].read then ChangeFlags(f, m, FlipSeen(m.flags)) else f,
                          listing[1..]);
      }
    }
  }

  lemma {:induction false} RemoveUnknownQuiet(f: Folder, known: set<nat>, k: int)
    requires -1 <= k < |f.messages|
    ensures Quiet(f, RemoveUnknown(f, known, k))
    decreases k + 1
  {
    if k >= 0 {
      if f.messages[k].serial in known {
        RemoveUnknownQuiet(f, known, k - 1);
      } else {
        RemoveUnknownQuiet(RemoveAt(CountDeleted(f), k), known, k - 1);
      }
    }
  }

  lemma {:induction false} FlushLoopQuiet(f: Folder, i: nat)
    ensures Quiet(f, FlushLoop(f, i))
    decreases |f.changed| - i
  {
    hide Flushed, Fetch;
    if i < |f.changed| {
      match Fetch(f.messages, f.changed[i]) {
        case None => FlushLoopQuiet(f, i + 1);
        case Some(m) =>
          var g := f.(messages := Replace(f.messages, Flushed(m)));
          if Flushed(m).changeMask == {} {
            FlushLoopQuiet(g.(changed := RemoveFastAt(g.changed, i)), i);
          } else {
            FlushLoopQuiet(g, i + 1);
          }
      }
    }
  }

  lemma {:induction false} MatchItemsQuiet(f: Folder, m: nat, rest: seq<Message>, items: seq<Item>)
    requires m + |rest| <= |f.messages|
    ensures Quiet(f, MatchItems(f, m, rest, items))
    decreases items
  {
    hide Landing, DropUntil;
    if rest != [] && items != [] {
      if !items[0].Usable() {
        MatchItemsQuiet(f, m, rest, items[1..]);
      } else {
        var tail := DropUntil(rest, items[0].uid.value);
        if tail != [] {
          var k := Landing(f.messages, m, m + |tail|, tail[0].serial);
          MatchItemsQuiet(Land(f, k, items[0]), m + 1, tail[1..], items[1..]);
        }
      }
    }
  }

  // ---- mailbox runs --------------------------------------------------------

  /** Server and client; `top` is the highest article number ever assigned. */
  datatype Mailbox = Mailbox(server: seq<Item>, top: nat, folder: Folder, ever: set<string>)

  datatype MailEvent =
    | Deliver(row: Item, gap: nat)
    | Renumber(index: nat, gap: nat)
    | Alter(index: nat, href: string, flags: Word)
    | Withdraw(index: nat)
    | Client(event: Event)

  /**
   What the server may answer: its rows in any order, cut to the asked article range.  A
   search that fails may have returned anything.
   */
  ghost predicate Possible(w: Mailbox, e: MailEvent) {
    match e
    case Deliver(row, gap) => w.top + 1 + gap < 0x1_0000_0000
    case Renumber(index, gap) => index < |w.server| && w.top + 1 + gap < 0x1_0000_0000
    case Alter(index, _, _) => index < |w.server|
    case Withdraw(index) => index < |w.server|
    case Client(Refreshed(rows, ok)) =>
      ok ==> forall it :: it in rows <==> it in w.server && it.article.Some? && it.article.value > w.folder.highArticle
    case Client(Opened(listing, ok)) => ok ==> multiset(listing) == multiset(w.server)
    case Client(_) => true
  }

  ghost function MailStep(w: Mailbox, e: MailEvent): Mailbox
    requires Possible(w, e)
  {
    match e
    case Deliver(row, gap) =>
      var next := w.top + 1 + gap;
      w.(server := w.server + [if row.article.Some? then row.(article := Some(next)) else row], top := next)
    case Renumber(index, gap) =>
      var next := w.top + 1 + gap;
      w.(server := w.server[index := w.server[index].(article := Some(next))], top := next)
    case Alter(index, href, flags) => w.(server := w.server[index := w.server[index].(href := href, flags := flags)])
    case Withdraw(index) => w.(server := w.server[..index] + w.server[index + 1..])
    case Client(event) =>
      var ever := if event.Refreshed? && event.ok
                  then RefreshEver(w.folder, SortItems(FolderState.Usable(event.rows)), w.ever) else w.ever;
      w.(folder := Step(w.folder, event), ever := ever)
  }

  ghost predicate Everknown(w: Mailbox) {
    forall it <- w.server :: it.Usable() && it.article.value <= w.folder.highArticle ==> it.uid.value in w.ever
  }

  ghost predicate Sound(w: Mailbox) {
    && Indexed(w.folder)
    && w.folder.byUid.Keys <= w.ever
    && w.folder.highArticle <= w.top < 0x1_0000_0000
    && Numbered(w.server) && DistinctArticles(w.server)
    && (forall it <- w.server :: it.article.Some? ==> it.article.value <= w.top)
    && Everknown(w)
  }

  /** The row is there, perhaps at another href or with other flags. */
  ghost predicate OnServer(rows: seq<Item>, it: Item) {
    exists r <- rows :: r.uid == it.uid && r.article == it.article
  }

  /** Rows are kept, dropped, altered, or given a number above all others. */
  lemma ServerRowsSound(w: Mailbox, server: seq<Item>, top: nat)
    requires Sound(w) && w.top <= top < 0x1_0000_0000 && DistinctArticles(server)
    requires forall it <- server ::
               OnServer(w.server, it) || it.article.None? || (it.article == Some(top) && w.top < top)
    ensures Sound(w.(server := server, top := top))
  {
    hide Indexed, DistinctArticles;
  }

  lemma DeliverSound(w: Mailbox, row: Item, gap: nat)
    requires Sound(w) && Possible(w, Deliver(row, gap))
    ensures Sound(MailStep(w, Deliver(row, gap)))
  {
    hide Indexed, Sound;
    SoundRows(w);
    var w' := MailStep(w, Deliver(row, gap));
    assert DistinctArticles(w'.server);
    ServerRowsSound(w, w'.server, w'.top);
  }

  lemma SoundRows(w: Mailbox)
    requires Sound(w)
    ensures DistinctArticles(w.server)
    ensures forall i :: 0 <= i < |w.server| && w.server[i].article.Some? ==> w.server[i].article.value <= w.top
  {
    assert forall i :: 0 <= i < |w.server| ==> w.server[i] in w.server;
  }

  lemma RenumberSound(w: Mailbox, index: nat, gap: nat)
    requires Sound(w) && Possible(w, Renumber(index, gap))
    ensures Sound(MailStep(w, Renumber(index, gap)))
  {
    hide Indexed, Sound;
    SoundRows(w);
    var w' := MailStep(w, Renumber(index, gap));
    forall it | it in w'.server
      ensures OnServer(w.server, it) || it.article == Some(w'.top)
    {
      var i :| 0 <= i < |w'.server| && w'.server[i] == it;
      if i != index { assert w.server[i] == it; }
    }
    ServerRowsSound(w, w'.server, w'.top);
  }

  lemma WithdrawSound(w: Mailbox, index: nat)
    requires Sound(w) && Possible(w, Withdraw(index))
    ensures Sound(MailStep(w, Withdraw(index)))
  {
    hide Indexed, Sound;
    SoundRows(w);
    SoundTop(w);
    ServerRowsSound(w, w.server[..index] + w.server[index + 1..], w.top);
  }

  lemma AlterSound(w: Mailbox, index: nat, href: string, flags: Word)
    requires Sound(w) && Possible(w, Alter(index, href, flags))
    ensures Sound(MailStep(w, Alter(index, href, flags)))
  {
    hide Indexed, Sound;
    SoundRows(w);
    SoundTop(w);
    var server := w.server[index := w.server[index].(href := href, flags := flags)];
    forall it | it in server
      ensures OnServer(w.server, it)
    {
      var i :| 0 <= i < |server| && server[i] == it;
      assert w.server[i] in w.server;
    }
    ServerRowsSound(w, server, w.top);
  }

  lemma SoundTop(w: Mailbox)
    requires Sound(w)
    ensures w.top < 0x1_0000_0000
  {
  }

  lemma QuietSound(w: Mailbox, g: Folder)
    requires Sound(w) && Quiet(w.folder, g) && Indexed(g)
    ensures Sound(w.(folder := g))
  {
    hide Indexed, DistinctArticles;
  }

  lemma SyncDeletionsQuiet(f: Folder, deleted: int, visible: int, listed: seq<Listed>)
    ensures Quiet(f, SyncDeletions(f, deleted, visible, listed))
  {
    hide MarkListed, RemoveUnknown, Known, U32;
    var marked := MarkListed(f, listed);
    MarkListedQuiet(f, listed);
    RemoveUnknownQuiet(marked, Known(f, listed), |marked.messages| - 1);
  }

  lemma FlushQuiet(f: Folder, gone: seq<string>)
    ensures Quiet(f, Flush(f, gone))
  {
    hide FlushLoop, Removals;
    FlushLoopQuiet(f, 0);
    RemovalsQuiet(FlushLoop(f, 0), gone);
  }

  lemma EditQuiet(f: Folder, uid: string, flags: Word, mask: Word, name: string, value: Option<string>)
    ensures Quiet(f, SetFlags(f, uid, flags, mask)) && Quiet(f, SetTag(f, uid, name, value))
  {
    hide Find, Edited, Replace;
  }

  predicate Learns(e: Event) {
    (e.Refreshed? || e.Opened?) && e.ok
  }

  lemma FailedQuiet(f: Folder, rows: seq<Item>)
    ensures Quiet(f, GetContents(f, rows, false)) && Refresh(f, rows, false) == f
  {
    hide MatchItems;
    var sorted := SortMessages(f.messages);
    assert |sorted| == |multiset(sorted)|;
    MatchItemsQuiet(f.(messages := sorted), 0, sorted, rows);
  }

  /** Every event that is not a successful listing is quiet. */
  lemma StepQuiet(f: Folder, e: Event)
    requires !Learns(e)
    ensures Quiet(f, Step(f, e))
  {
    hide GetContents, Refresh, Removals, MessageRemoved, SyncDeletions, SetFlags, SetTag, Flush;
    match e
    case Refreshed(rows, _) => FailedQuiet(f, rows);
    case Opened(listing, _) => FailedQuiet(f, listing);
    case Synced(deleted, visible, listed) => SyncDeletionsQuiet(f, deleted, visible, listed);
    case Removed(hrefs) => RemovalsQuiet(f, hrefs);
    case Vanished(href) => MessageRemovedQuiet(f, href);
    case FlagsSet(uid, flags, mask) => EditQuiet(f, uid, flags, mask, "", None);
    case TagSet(uid, name, value) => EditQuiet(f, uid, {}, {}, name, value);
    case FlagsSent(gone) => FlushQuiet(f, gone);
    case Reconnected(total) =>
  }

  lemma RefreshStepSound(w: Mailbox, rows: seq<Item>)
    requires Sound(w) && Possible(w, Client(Refreshed(rows, true)))
    ensures Sound(MailStep(w, Client(Refreshed(rows, true))))
  {
    hide Indexed, RefreshItems, SortItems, RefreshEver;
    var items := SortItems(FolderState.Usable(rows));
    forall it
      ensures it in items <==> it in rows && it.Usable()
    {
      assert it in items <==> it in multiset(FolderState.Usable(rows));
    }
    RefreshKnowsRows(w.folder, items, w.ever);
    RefreshItemsIndexed(w.folder, items);
  }

  lemma OpenStepSound(w: Mailbox, listing: seq<Item>)
    requires Sound(w) && Possible(w, Client(Opened(listing, true)))
    ensures Sound(MailStep(w, Client(Opened(listing, true))))
  {
    hide Indexed, MatchItems, ListingHigh, SortMessages, Tied;
    var f := w.folder;
    var g := GetContents(f, listing, true);
    forall it
      ensures it in listing <==> it in w.server
    {
      assert it in listing <==> it in multiset(w.server);
    }
    PermutedArticles(w.server, listing);
    FullListingMissesNothing(f, listing);
    HighBounded(SortMessages(f.messages), listing, 0, w.top);
    GetContentsIndexed(f, listing, true);
    GetContentsQuiet(f, listing);
    UidsRegistered(f);
  }

  lemma UidsRegistered(f: Folder)
    requires Indexed(f)
    ensures Uids(f.messages) <= f.byUid.Keys
  {
  }

  lemma GetContentsQuiet(f: Folder, listing: seq<Item>)
    ensures GetContents(f, listing, true).byUid.Keys <= f.byUid.Keys
  {
    hide MatchItems;
    var sorted := SortMessages(f.messages);
    assert |sorted| == |multiset(sorted)|;
    MatchItemsQuiet(f.(messages := sorted), 0, sorted, listing);
  }

  lemma PermutedArticles(rows: seq<Item>, listing: seq<Item>)
    requires multiset(rows) == multiset(listing) && DistinctArticles(rows)
    ensures DistinctArticles(listing)
  {
    hide DistinctArticles;
    forall i, j | 0 <= i < j < |listing| && listing[i].article.Some? && listing[i].article == listing[j].article
      ensures false
    {
      SameArticleSameRow(rows, listing, listing[i], listing[j]);
      RowTwice(listing, i, j);
      RowOnlyOnce(rows, listing[i]);
    }
    ArticlesApart(listing);
  }

  lemma ArticlesApart(rows: seq<Item>)
    requires forall i, j :: 0 <= i < j < |rows| && rows[i].article.Some? ==> rows[i].article != rows[j].article
    ensures DistinctArticles(rows)
  {
  }

  lemma SameArticleSameRow(rows: seq<Item>, listing: seq<Item>, a: Item, b: Item)
    requires multiset(rows) == multiset(listing) && DistinctArticles(rows)
    requires a in listing && b in listing && a.article.Some? && a.article == b.article
    ensures a == b
  {
    assert a in multiset(rows) && b in multiset(rows);
    var p :| 0 <= p < |rows| && rows[p] == a;
    var q :| 0 <= q < |rows| && rows[q] == b;
  }

  lemma RowTwice(rows: seq<Item>, i: nat, j: nat)
    requires i < j < |rows| && rows[i] == rows[j]
    ensures multiset(rows)[rows[i]] >= 2
  {
    assert rows == rows[..i] + [rows[i]] + rows[i + 1..j] + [rows[j]] + rows[j + 1..];
  }

  lemma RowOnlyOnce(rows: seq<Item>, row: Item)
    requires DistinctArticles(rows) && row.article.Some?
    ensures multiset(rows)[row] <= 1
  {
    if rows != [] {
      assert rows == [rows[0]] + rows[1..];
      RowOnlyOnce(rows[1..], row);
      assert rows[0] == row ==> row !in rows[1..];
    }
  }

  lemma {:induction false} HighBounded(rest: seq<Message>, items: seq<Item>, high: nat, top: nat)
    requires Numbered(items) && high <= top
    requires forall it <- items :: it.article.Some? ==> it.article.value <= top
    ensures ListingHigh(rest, items, high) <= top
    decreases items
  {
    hide DropUntil;
    if rest == [] || items == [] {
      TrailingHighExact(items, high);
    } else if !items[0].Usable() {
      HighBounded(rest, items[1..], high, top);
    } else {
      var tail := DropUntil(rest, items[0].uid.value);
      var article := items[0].article.value;
      if tail == [] {
        TrailingHighExact(items[1..], if article < high then article - 1 else high);
      } else {
        HighBounded(tail[1..], items[1..], Max(high, article), top);
      }
    }
  }

  lemma MailStepSound(w: Mailbox, e: MailEvent)
    requires Sound(w) && Possible(w, e)
    ensures Sound(MailStep(w, e))
  {
    hide Sound, Possible, MailStep, Step, Quiet;
    match e {
      case Deliver(row, gap) => DeliverSound(w, row, gap);
      case Renumber(index, gap) => RenumberSound(w, index, gap);
      case Alter(index, href, flags) => AlterSound(w, index, href, flags);
      case Withdraw(index) => WithdrawSound(w, index);
      case Client(event) =>
        if !Learns(event) {
          QuietClientSound(w, event);
        } else if event.Refreshed? {
          RefreshStepSound(w, event.rows);
        } else {
          OpenStepSound(w, event.listing);
        }
    }
  }

  lemma QuietClientSound(w: Mailbox, event: Event)
    requires Sound(w) && Possible(w, Client(event)) && !Learns(event)
    ensures Sound(MailStep(w, Client(event)))
  {
    hide Indexed, Quiet, Numbered, DistinctArticles, Everknown, Step;
    StepQuiet(w.folder, event);
    StepIndexed(w.folder, event);
    QuietSound(w, Step(w.folder, event));
  }

  /** A run: each event is possible in the state it meets. */
  ghost predicate MailRun(w: Mailbox, events: seq<MailEvent>, w': Mailbox)
    decreases events
  {
    if events == [] then w' == w
    else Possible(w, events[0]) && MailRun(MailStep(w, events[0]), events[1..], w')
  }

  /**
   No lost mail over runs: in every state a run reaches, every usable row on the server
   at or below the high article number has been known to the client.
   */
  lemma {:induction false} NoLostMailOverRuns(w: Mailbox, events: seq<MailEvent>, w': Mailbox)
    requires Sound(w) && MailRun(w, events, w')
    ensures Sound(w')
    ensures Everknown(w')
    decreases events
  {
    hide Possible, MailStep, Indexed, DistinctArticles;
    if events != [] {
      MailStepSound(w, events[0]);
      NoLostMailOverRuns(MailStep(w, events[0]), events[1..], w');
    }
  }

  /** A run may start from any loaded folder whose saved high number is not ahead of its uids. */
  lemma LoadedMailboxSound(rows: seq<Row>, highArticle: nat, server: seq<Item>, top: nat)
    requires DistinctUids(rows) && highArticle <= top < 0x1_0000_0000
    requires Numbered(server) && DistinctArticles(server)
    requires forall it <- server :: it.article.Some? ==> it.article.value <= top
    requires forall it <- server :: it.Usable() && it.article.value <= highArticle ==>
                                      exists r <- rows :: r.uid == it.uid.value
    ensures var f := Load(rows, highArticle);
            Sound(Mailbox(server, top, f, f.byUid.Keys))
  {
    var f := Load(rows, highArticle);
    assert Indexed(EMPTY);
    LoadIndexed(EMPTY, rows);
    LoadedUids(EMPTY, rows);
    SameIndex(LoadRows(EMPTY, rows), f);
  }

  lemma {:induction false} LoadedUids(f: Folder, rows: seq<Row>)
    ensures forall r <- rows :: r.uid in LoadRows(f, rows).byUid
    ensures f.byUid.Keys <= LoadRows(f, rows).byUid.Keys
    decreases rows
  {
    if rows != [] {
      var href := if rows[0].href == Some("") then None else rows[0].href;
      LoadedUids(Add(f, rows[0].uid, href, rows[0].flags), rows[1..]);
    }
  }

  // ---- what stays known ----------------------------------------------------

  /**
   A refreshed row makes the client forget another uid exactly when the row's own uid
   is new, its href is registered to that other message, and the search finds it.
   */
  lemma RefreshForgetsIff(f: Folder, it: Item, uid: string)
    requires Indexed(f) && it.Usable() && uid in f.byUid && uid != it.uid.value
    ensures uid !in RefreshItem(f, it).byUid <==>
            && it.uid.value !in f.byUid
            && it.href in f.byHref && f.byHref[it.href] == f.byUid[uid]
            && BinarySearch(f.messages, 0, |f.messages| - 1, f.byUid[uid]) != -1
  {
    hide Fetch, BinarySearch, RemoveFast;
    FindNone(f, it.uid.value);
    FindNone(f, uid);
    if it.href in f.byHref {
      FetchFrom(f.messages, f.byHref[it.href]);
      assert BearsHref(f.messages, f.byHref[it.href], it.href);
      BearerNamed(f, f.byHref[it.href]);
    }
    assert BearsUid(f.messages, f.byUid[uid], uid);
  }

  /** A message is registered under its own uid and no other. */
  lemma BearerNamed(f: Folder, serial: nat)
    requires Indexed(f) && Fetch(f.messages, serial).Some?
    ensures var m := Fetch(f.messages, serial).value;
            && m.serial == serial && m.uid in f.byUid && f.byUid[m.uid] == serial
            && (forall u <- f.byUid :: f.byUid[u] == serial ==> u == m.uid)
  {
    FetchFrom(f.messages, serial);
    assert forall u <- f.byUid :: BearsUid(f.messages, f.byUid[u], u);
  }
}
