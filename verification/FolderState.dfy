/**
 The mail folder index as a value: what an `ExchangeFolder` holds, and what each
 of its operations does to it.  The class in ExchangeFolder.dfy is proved against
 these functions; the invariants are proved about them.

 A message object is identified by its serial number (`mmsg->seq`), which is never
 reused while the folder is open.
 */
module FolderState {
  import opened Basics
  import opened MessageFlags

  datatype Message = Message(
    uid: string,
    href: Option<string>,
    serial: nat,
    flags: Word,
    changeFlags: Word,
    changeMask: Word,
    tags: map<string, string>)
  {
    /** Whether an edit of the message still waits to be sent. */
    predicate Pending() {
      changeMask != {} || tags != map[]
    }

    /** A pending read-state edit that disagrees with the stored read state. */
    predicate Conflicting() {
      Contradicts(flags, changeFlags, changeMask)
    }

    /** The flags the user believes the message has. */
    function Effective(): Word {
      Overlay(flags, changeFlags, changeMask)
    }
  }

  datatype Folder = Folder(
    messages: seq<Message>,
    byUid: map<string, nat>,
    byHref: map<string, nat>,
    nextSerial: nat,
    highArticle: nat,
    deletedCount: nat,
    unread: nat,
    changed: seq<nat>)

  /** One row of a server listing; an absent property is `None`. */
  datatype Item = Item(uid: Option<string>, article: Option<nat>, href: string, flags: Word)
  {
    /** The rows the folder code looks at: those with a uid and an article number. */
    predicate Usable() {
      uid.Some? && article.Some?
    }
  }

  /** One row of the saved summary. */
  datatype Row = Row(uid: string, href: Option<string>, flags: Word)

  /** One row of the deletion listing. */
  datatype Listed = Listed(href: string, read: bool)

  // ---- lookups -------------------------------------------------------------

  /** The first position of the message with the given serial, or the length. */
  function Position(ms: seq<Message>, serial: nat): (k: nat)
    ensures k <= |ms|
    ensures k < |ms| ==> ms[k].serial == serial
    ensures forall i :: 0 <= i < k ==> ms[i].serial != serial
  {
    if ms == [] || ms[0].serial == serial then 0 else 1 + Position(ms[1..], serial)
  }

  function Fetch(ms: seq<Message>, serial: nat): Option<Message> {
    var k := Position(ms, serial);
    if k < |ms| then Some(ms[k]) else None
  }

  function Find(f: Folder, uid: string): Option<Message> {
    if uid in f.byUid then Fetch(f.messages, f.byUid[uid]) else None
  }

  function FindByHref(f: Folder, href: string): Option<Message> {
    if href in f.byHref then Fetch(f.messages, f.byHref[href]) else None
  }

  /** Binary search over positions `lo..hi` (both included), or -1. */
  function BinarySearch(ms: seq<Message>, lo: int, hi: int, serial: nat): (k: int)
    requires 0 <= lo && hi < |ms|
    ensures k == -1 || (lo <= k <= hi && ms[k].serial == serial)
    decreases hi - lo + 1
  {
    if lo > hi then -1
    else
      var mid := (lo + hi) / 2;
      if serial == ms[mid].serial then mid
      else if serial < ms[mid].serial then BinarySearch(ms, lo, mid - 1, serial)
      else BinarySearch(ms, mid + 1, hi, serial)
  }

  // ---- primitive updates ---------------------------------------------------

  /** The array with the message object of `m`'s serial now holding `m`. */
  function Replace(ms: seq<Message>, m: Message): (r: seq<Message>)
    ensures |r| == |ms|
  {
    seq(|ms|, i requires 0 <= i < |ms| => if ms[i].serial == m.serial then m else ms[i])
  }

  /** Removal from an array by moving its last element into the gap. */
  function RemoveFastAt(q: seq<nat>, i: nat): seq<nat>
    requires i < |q|
  {
    q[i := q[|q| - 1]][..|q| - 1]
  }

  function IndexIn(q: seq<nat>, x: nat): (k: nat)
    ensures k <= |q|
    ensures k < |q| ==> q[k] == x
    ensures forall i :: 0 <= i < k ==> q[i] != x
  {
    if q == [] || q[0] == x then 0 else 1 + IndexIn(q[1..], x)
  }

  function RemoveFast(q: seq<nat>, x: nat): seq<nat> {
    var k := IndexIn(q, x);
    if k < |q| then RemoveFastAt(q, k) else q
  }

  /** `unread_count` moves by one, as a 32-bit counter. */
  function CountUnread(f: Folder, delta: int): Folder {
    f.(unread := U32(f.unread + delta))
  }

  function CountDeleted(f: Folder): Folder {
    f.(deletedCount := U32(f.deletedCount + 1))
  }

  function Add(f: Folder, uid: string, href: Option<string>, flags: Word): Folder {
    var m := Message(uid, href, f.nextSerial, flags, {}, {}, map[]);
    var g := f.(messages := f.messages + [m],
                byUid := f.byUid[uid := m.serial],
                byHref := if href.Some? then f.byHref[href.value := m.serial] else f.byHref,
                nextSerial := f.nextSerial + 1);
    if SEEN in flags then g else CountUnread(g, 1)
  }

  function RemoveAt(f: Folder, k: nat): Folder
    requires k < |f.messages|
  {
    var m := f.messages[k];
    var g := f.(messages := f.messages[..k] + f.messages[k + 1..],
                byUid := Without(f.byUid, m.uid),
                byHref := if m.href.Some? then Without(f.byHref, m.href.value) else f.byHref,
                changed := if m.Pending() then RemoveFast(f.changed, m.serial) else f.changed);
    if SEEN in m.flags then g else CountUnread(g, -1)
  }

  function ChangeFlags(f: Folder, m: Message, flags: Word): Folder {
    var g := f.(messages := Replace(f.messages, m.(flags := flags)));
    if (SEEN in m.flags) == (SEEN in flags) then g
    else if SEEN in m.flags then CountUnread(g, 1)
    else CountUnread(g, -1)
  }

  function MessageRemoved(f: Folder, href: string): Folder {
    match FindByHref(f, href)
    case None => f
    case Some(m) =>
      var k := BinarySearch(f.messages, 0, |f.messages| - 1, m.serial);
      if k == -1 then f else RemoveAt(f, k)
  }

  /** The server confirmed that the messages at these hrefs are gone. */
  function Removals(f: Folder, hrefs: seq<string>): Folder
    decreases hrefs
  {
    if hrefs == [] then f
    else Removals(CountDeleted(MessageRemoved(f, hrefs[0])), hrefs[1..])
  }

  // ---- opening a folder ----------------------------------------------------

  const EMPTY := Folder([], map[], map[], 0, 0, 0, 0, [])

  function LoadRows(f: Folder, rows: seq<Row>): Folder
    decreases rows
  {
    if rows == [] then f
    else
      var href := if rows[0].href == Some("") then None else rows[0].href;
      LoadRows(Add(f, rows[0].uid, href, rows[0].flags), rows[1..])
  }

  function Load(rows: seq<Row>, highArticle: nat): Folder {
    LoadRows(EMPTY, rows).(highArticle := highArticle)
  }

  // ---- refresh: new messages -----------------------------------------------

  function RefreshItem(f: Folder, it: Item): Folder
    requires it.Usable()
  {
    var g :=
      match Find(f, it.uid.value)
      case Some(m) =>
        if it.flags != m.flags then ChangeFlags(f, m, it.flags) else f
      case None =>
        var cleared := if it.href in f.byHref then MessageRemoved(CountDeleted(f), it.href) else f;
        Add(cleared, it.uid.value, Some(it.href), it.flags);
    g.(highArticle := Max(g.highArticle, it.article.value))
  }

  function RefreshItems(f: Folder, items: seq<Item>): Folder
    requires forall it <- items :: it.Usable()
    decreases items
  {
    if items == [] then f
    else RefreshItems(RefreshItem(f, items[0]), items[1..])
  }

  /** The rows worth keeping, in server order. */
  function Usable(items: seq<Item>): (r: seq<Item>)
    ensures forall it <- r :: it in items && it.Usable()
    ensures forall it <- items :: it.Usable() ==> it in r
  {
    if items == [] then []
    else if items[0].Usable() then [items[0]] + Usable(items[1..])
    else Usable(items[1..])
  }

  /** `strcmp` on byte strings: `a` does not sort after `b`. */
  predicate StrLe(a: string, b: string) {
    if a == [] then true
    else if b == [] then false
    else if a[0] != b[0] then a[0] < b[0]
    else StrLe(a[1..], b[1..])
  }

  function InsertItem(it: Item, sorted: seq<Item>): (r: seq<Item>)
    requires it.Usable() && forall x <- sorted :: x.Usable()
    ensures forall x <- r :: x.Usable()
    ensures multiset(r) == multiset(sorted) + multiset{it}
  {
    if sorted == [] then [it]
    else if assert sorted[0].Usable(); StrLe(it.uid.value, sorted[0].uid.value) then [it] + sorted
    else
      assert sorted == [sorted[0]] + sorted[1..];
      [sorted[0]] + InsertItem(it, sorted[1..])
  }

  /** The rows ordered by uid, as the code orders them before use. */
  function SortItems(items: seq<Item>): (r: seq<Item>)
    requires forall x <- items :: x.Usable()
    ensures forall x <- r :: x.Usable()
    ensures multiset(r) == multiset(items)
  {
    if items == [] then []
    else
      assert items == [items[0]] + items[1..];
      InsertItem(items[0], SortItems(items[1..]))
  }

  /** `ok` is false when one of the two searches failed; nothing is recorded then. */
  function Refresh(f: Folder, items: seq<Item>, ok: bool): Folder {
    if ok then RefreshItems(f, SortItems(Usable(items))) else f
  }

  // ---- deletion sync -------------------------------------------------------

  function MarkListed(f: Folder, listing: seq<Listed>): Folder
    decreases listing
  {
    if listing == [] then f
    else
      var g :=
        match FindByHref(f, listing[0].href)
        case None => f
        case Some(m) =>
          if (SEEN in m.flags) != listing[0].read then ChangeFlags(f, m, FlipSeen(m.flags)) else f;
      MarkListed(g, listing[1..])
  }

  function Known(f: Folder, listing: seq<Listed>): set<nat> {
    set l | l in listing && l.href in f.byHref :: f.byHref[l.href]
  }

  function RemoveUnknown(f: Folder, known: set<nat>, k: int): Folder
    requires -1 <= k < |f.messages|
    decreases k + 1
  {
    if k < 0 then f
    else if f.messages[k].serial in known then RemoveUnknown(f, known, k - 1)
    else RemoveUnknown(RemoveAt(CountDeleted(f), k), known, k - 1)
  }

  function DeletionPass(f: Folder, listing: seq<Listed>): Folder {
    var g := MarkListed(f, listing);
    RemoveUnknown(g, Known(f, listing), |g.messages| - 1)
  }

  /** `deleted` and `visible` are the server's counters, -1 when it sent none. */
  function SyncDeletions(f: Folder, deleted: int, visible: int, listing: seq<Listed>): Folder {
    if U32(visible) >= |f.messages| && f.deletedCount == U32(deleted) then f
    else if U32(visible) >= |f.messages| && f.deletedCount == 0 then f.(deletedCount := U32(deleted))
    else DeletionPass(f, listing)
  }

  // ---- full listing --------------------------------------------------------

  function InsertMessage(m: Message, sorted: seq<Message>): (r: seq<Message>)
    ensures multiset(r) == multiset(sorted) + multiset{m}
  {
    if sorted == [] then [m]
    else if StrLe(m.uid, sorted[0].uid) then [m] + sorted
    else
      assert sorted == [sorted[0]] + sorted[1..];
      [sorted[0]] + InsertMessage(m, sorted[1..])
  }

  function SortMessages(ms: seq<Message>): (r: seq<Message>)
    ensures multiset(r) == multiset(ms)
  {
    if ms == [] then []
    else
      assert ms == [ms[0]] + ms[1..];
      InsertMessage(ms[0], SortMessages(ms[1..]))
  }

  /** The local copy with everything before the first message of that uid dropped. */
  function DropUntil(copy: seq<Message>, uid: string): (rest: seq<Message>)
    ensures |rest| <= |copy|
    ensures rest == copy[|copy| - |rest|..]
    ensures rest != [] ==> rest[0].uid == uid
    ensures forall i :: 0 <= i < |copy| - |rest| ==> copy[i].uid != uid
  {
    if copy == [] || copy[0].uid == uid then copy else DropUntil(copy[1..], uid)
  }

  /** Where the code looks for the message that position `m` of the copy stands for. */
  function Landing(ms: seq<Message>, m: nat, copyLen: nat, serial: nat): (k: nat)
    requires m < |ms| && 0 < copyLen <= |ms|
    ensures k < |ms|
  {
    if ms[m].serial == serial then m
    else
      var k := Position(ms[..copyLen], serial);
      if k < copyLen then k else copyLen - 1
  }

  function SetHref(f: Folder, m: Message, href: string): Folder {
    f.(messages := Replace(f.messages, m.(href := Some(href))),
       byHref := if href in f.byHref then f.byHref else f.byHref[href := m.serial])
  }

  /** What a listed row does to the message it is taken to describe. */
  function Land(f: Folder, k: nat, it: Item): (g: Folder)
    requires k < |f.messages|
    ensures |g.messages| == |f.messages|
  {
    var m := f.messages[k];
    var g := if m.href.None? then SetHref(f, m, it.href) else f;
    var m' := if m.href.None? then m.(href := Some(it.href)) else m;
    if m'.flags != it.flags then ChangeFlags(g, m', it.flags) else g
  }

  /**
   The matching loop: `m` rows matched so far, `rest` the part of the local copy not
   yet passed, `items` the rows not yet read.
   */
  function MatchItems(f: Folder, m: nat, rest: seq<Message>, items: seq<Item>): (g: Folder)
    requires m + |rest| <= |f.messages|
    ensures |g.messages| == |f.messages|
    decreases items
  {
    if rest == [] || items == [] then f
    else if !items[0].Usable() then MatchItems(f, m, rest, items[1..])
    else
      var tail := DropUntil(rest, items[0].uid.value);
      if tail == [] then f
      else
        var k := Landing(f.messages, m, m + |tail|, tail[0].serial);
        MatchItems(Land(f, k, items[0]), m + 1, tail[1..], items[1..])
  }

  /** The highest article number left behind by the rows after the matching loop. */
  function TrailingHigh(items: seq<Item>, high: nat): nat {
    if items == [] then high
    else if items[0].article.Some? && items[0].article.value <= high then
      TrailingHigh(items[1..], U32(items[0].article.value - 1))
    else TrailingHigh(items[1..], high)
  }

  /** The highest article number of a full listing, starting from `high`. */
  function ListingHigh(rest: seq<Message>, items: seq<Item>, high: nat): nat
    decreases items
  {
    if rest == [] || items == [] then TrailingHigh(items, high)
    else if !items[0].Usable() then ListingHigh(rest, items[1..], high)
    else
      var tail := DropUntil(rest, items[0].uid.value);
      var article := items[0].article.value;
      if tail == [] then TrailingHigh(items[1..], if article < high then U32(article - 1) else high)
      else ListingHigh(tail[1..], items[1..], Max(high, article))
  }

  /** `ok` is false when the search failed; the article number is then kept. */
  function GetContents(f: Folder, items: seq<Item>, ok: bool): Folder {
    var sorted := SortMessages(f.messages);
    assert |sorted| == |multiset(sorted)|;
    var g := MatchItems(f.(messages := sorted), 0, sorted, items);
    if ok then g.(highArticle := ListingHigh(sorted, items, 0)) else g
  }

  // ---- user edits and their flushing ---------------------------------------

  function Enqueue(q: seq<nat>, serial: nat): seq<nat> {
    if serial in q then q else q + [serial]
  }

  /** The message after a user's edit. */
  function Edited(m: Message, flags: Word, mask: Word): Message {
    var left := EditedMask(m.flags, flags, mask);
    m.(flags := EditedFlags(m.flags, flags, mask),
       changeFlags := MergedBits(m.changeFlags, flags, left),
       changeMask := m.changeMask + left)
  }

  function SetFlags(f: Folder, uid: string, flags: Word, mask: Word): Folder {
    match Find(f, uid)
    case None => f
    case Some(m) =>
      var e := Edited(m, flags, mask);
      var g := f.(messages := Replace(f.messages, e),
                  changed := if EditedMask(m.flags, flags, mask) == {} then f.changed
                             else Enqueue(f.changed, m.serial));
      if (SEEN in m.flags) == (SEEN in e.flags) then g
      else if SEEN in e.flags then CountUnread(g, -1)
      else CountUnread(g, 1)
  }

  function SetTag(f: Folder, uid: string, name: string, value: Option<string>): Folder {
    match Find(f, uid)
    case None => f
    case Some(m) =>
      var tags := if value.Some? then m.tags[name := value.value] else Without(m.tags, name);
      f.(messages := Replace(f.messages, m.(tags := tags)), changed := Enqueue(f.changed, m.serial))
  }

  /** The message once its pending edits have been sent. */
  function Flushed(m: Message): Message {
    m.(flags := FlushedFlags(m.flags, m.changeFlags, m.changeMask),
       changeMask := FlushedMask(m.changeMask),
       tags := map[])
  }

  function FlushLoop(f: Folder, i: nat): (g: Folder)
    decreases |f.changed| - i
  {
    if i >= |f.changed| then f
    else
      match Fetch(f.messages, f.changed[i])
      case None => FlushLoop(f, i + 1)
      case Some(m) =>
        var g := f.(messages := Replace(f.messages, Flushed(m)));
        if Flushed(m).changeMask == {} then FlushLoop(g.(changed := RemoveFastAt(g.changed, i)), i)
        else FlushLoop(g, i + 1)
  }

  /** A property update posted for one message. */
  datatype Request =
    | Answered(href: Option<string>, replied: bool, toAll: bool)
    | Importance(href: Option<string>, high: bool)
    | FollowUp(href: Option<string>, tags: map<string, string>)

  /** What the flusher posts at once for a message; read-state edits are collected. */
  function Requests(m: Message): seq<Request> {
    (if ANSWERED in m.changeMask
     then [Answered(m.href, ANSWERED in m.changeFlags, ANSWERED_ALL in m.changeFlags)] else [])
    + (if FLAGGED in m.changeMask then [Importance(m.href, FLAGGED in m.changeFlags)] else [])
    + (if m.tags != map[] then [FollowUp(m.href, m.tags)] else [])
  }

  /** The messages the flush loop visits, as it finds them. */
  function FlushLog(f: Folder, i: nat): seq<Message>
    decreases |f.changed| - i
  {
    if i >= |f.changed| then []
    else
      match Fetch(f.messages, f.changed[i])
      case None => FlushLog(f, i + 1)
      case Some(m) =>
        var g := f.(messages := Replace(f.messages, Flushed(m)));
        [m] + if Flushed(m).changeMask == {} then FlushLog(g.(changed := RemoveFastAt(g.changed, i)), i)
              else FlushLog(g, i + 1)
  }

  function AllRequests(log: seq<Message>): seq<Request> {
    if log == [] then [] else Requests(log[0]) + AllRequests(log[1..])
  }

  /** The hrefs of the visited messages that are to be marked read, or unread. */
  function ReadMarks(log: seq<Message>, seen: bool): seq<Option<string>> {
    if log == [] then []
    else
      (if SEEN in log[0].changeMask && (SEEN in log[0].changeFlags) == seen then [log[0].href] else [])
      + ReadMarks(log[1..], seen)
  }

  /** Whether a queued message has an edit of its read state, or asks to be deleted. */
  predicate AnyReadEdit(f: Folder) {
    exists m <- f.messages :: m.serial in f.changed && SEEN in m.changeMask
  }

  predicate AnyDelete(f: Folder) {
    exists m <- f.messages :: m.serial in f.changed && DELETED in m.changeMask * m.changeFlags
  }

  predicate AsksDeletion(m: Option<Message>) {
    m.Some? && DELETED in m.value.changeMask * m.value.changeFlags
  }

  /** The hrefs posted for deletion: those of the queued messages that ask for it, in queue order. */
  function DeletionHrefs(ms: seq<Message>, q: seq<nat>): seq<Option<string>> {
    if q == [] then []
    else
      var m := Fetch(ms, q[|q| - 1]);
      DeletionHrefs(ms, q[..|q| - 1]) + if AsksDeletion(m) then [m.value.href] else []
  }

  /** One run of the flusher; `gone` are the hrefs whose deletion the server confirms. */
  function Flush(f: Folder, gone: seq<string>): Folder {
    var g := FlushLoop(f, 0);
    if AnyReadEdit(f) then g
    else (if AnyDelete(g) then Removals(g, gone) else g).(changed := [])
  }

  // ---- runs ----------------------------------------------------------------

  /** What can happen to an open folder; server answers are arbitrary. */
  datatype Event =
    | Refreshed(rows: seq<Item>, ok: bool)
    | Opened(listing: seq<Item>, ok: bool)
    | Synced(deleted: int, visible: int, listed: seq<Listed>)
    | Removed(hrefs: seq<string>)
    | Vanished(href: string)
    | FlagsSet(uid: string, flags: Word, mask: Word)
    | TagSet(uid: string, name: string, value: Option<string>)
    | FlagsSent(gone: seq<string>)
    | Reconnected(deletedTotal: Option<nat>)

  function Step(f: Folder, e: Event): Folder {
    match e
    case Refreshed(rows, ok) => Refresh(f, rows, ok)
    case Opened(listing, ok) => GetContents(f, listing, ok)
    case Synced(deleted, visible, listed) => SyncDeletions(f, deleted, visible, listed)
    case Removed(hrefs) => Removals(f, hrefs)
    case Vanished(href) => MessageRemoved(f, href)
    case FlagsSet(uid, flags, mask) => SetFlags(f, uid, flags, mask)
    case TagSet(uid, name, value) => SetTag(f, uid, name, value)
    case FlagsSent(gone) => Flush(f, gone)
    case Reconnected(total) => Reconnect(f, total)
  }

  /** Coming back online starts with a fresh queue and the server's deletion counter. */
  function Reconnect(f: Folder, total: Option<nat>): Folder {
    f.(changed := [], deletedCount := if total.Some? then U32(total.value) else f.deletedCount)
  }

  function Run(f: Folder, events: seq<Event>): Folder
    decreases events
  {
    if events == [] then f else Run(Step(f, events[0]), events[1..])
  }
}
