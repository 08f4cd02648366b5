/**
 The unread counter.  Every operation keeps it equal to the number of messages
 without SEEN, except that the flusher rewrites SEEN on its own: the counter is then
 off by exactly the net number of queued read-state edits that disagree with the
 stored read state.
 */
module UnreadCounter {
  import opened Basics
  import opened MessageFlags
  import opened FolderState
  import opened FolderIndex
  import opened PendingQueue

  function Unread(m: Message): nat {
    if SEEN in m.flags then 0 else 1
  }

  function Unseen(ms: seq<Message>): nat {
    if ms == [] then 0 else Unread(ms[0]) + Unseen(ms[1..])
  }

  /** The counter is `drift` above the number of unread messages, as 32-bit numbers. */
  ghost predicate Counted(f: Folder, drift: int) {
    f.unread == U32(Unseen(f.messages) + drift)
  }

  // ---- counting ------------------------------------------------------------

  lemma UnseenConcat(a: seq<Message>, b: seq<Message>)
    ensures Unseen(a + b) == Unseen(a) + Unseen(b)
  {
    if a == [] {
      assert a + b == b;
    } else {
      assert (a + b)[1..] == a[1..] + b;
      UnseenConcat(a[1..], b);
    }
  }

  lemma UnseenSplit(ms: seq<Message>, k: nat)
    requires k < |ms|
    ensures Unseen(ms) == Unseen(ms[..k]) + Unread(ms[k]) + Unseen(ms[k + 1..])
  {
    assert ms == ms[..k] + ([ms[k]] + ms[k + 1..]);
    UnseenConcat(ms[..k], [ms[k]] + ms[k + 1..]);
    UnseenConcat([ms[k]], ms[k + 1..]);
  }

  lemma UnseenRemoved(ms: seq<Message>, k: nat)
    requires k < |ms|
    ensures Unseen(ms[..k] + ms[k + 1..]) == Unseen(ms) - Unread(ms[k])
  {
    UnseenSplit(ms, k);
    UnseenConcat(ms[..k], ms[k + 1..]);
  }

  lemma UnseenReplaced(ms: seq<Message>, m: Message, m': Message)
    requires Distinct(ms) && m in ms && m'.serial == m.serial
    ensures Unseen(Replace(ms, m')) == Unseen(ms) - Unread(m) + Unread(m')
  {
    var k :| 0 <= k < |ms| && ms[k] == m;
    var rs := Replace(ms, m');
    UnseenSplit(ms, k);
    UnseenSplit(rs, k);
    assert rs[..k] == ms[..k];
    assert rs[k + 1..] == ms[k + 1..];
  }

  lemma UnseenUpdated(f: Folder, m: Message, m': Message)
    requires Indexed(f) && m in f.messages && m'.serial == m.serial
    ensures Unseen(Replace(f.messages, m')) == Unseen(f.messages) - Unread(m) + Unread(m')
  {
    UnseenReplaced(f.messages, m, m');
  }

  lemma {:induction false} UnseenInserted(m: Message, sorted: seq<Message>)
    ensures Unseen(InsertMessage(m, sorted)) == Unread(m) + Unseen(sorted)
  {
    if sorted == [] {
    } else if StrLe(m.uid, sorted[0].uid) {
      assert ([m] + sorted)[1..] == sorted;
    } else {
      UnseenInserted(m, sorted[1..]);
      var r := InsertMessage(m, sorted[1..]);
      assert ([sorted[0]] + r)[1..] == r;
    }
  }

  lemma {:induction false} UnseenSorted(ms: seq<Message>)
    ensures Unseen(SortMessages(ms)) == Unseen(ms)
  {
    if ms != [] {
      UnseenSorted(ms[1..]);
      UnseenInserted(ms[0], SortMessages(ms[1..]));
    }
  }

  // ---- operations ----------------------------------------------------------

  lemma U32Step(x: int, delta: int)
    ensures U32(U32(x) + delta) == U32(x + delta)
  {
    U32Sum(x, delta);
  }

  lemma AddCounted(f: Folder, uid: string, href: Option<string>, flags: Word, drift: int)
    requires Counted(f, drift)
    ensures Counted(Add(f, uid, href, flags), drift)
  {
    var m := Message(uid, href, f.nextSerial, flags, {}, {}, map[]);
    UnseenConcat(f.messages, [m]);
    U32Step(Unseen(f.messages) + drift, 1);
  }

  lemma RemoveAtCounted(f: Folder, k: nat, drift: int)
    requires k < |f.messages| && Counted(f, drift)
    ensures Counted(RemoveAt(f, k), drift)
  {
    UnseenRemoved(f.messages, k);
    U32Step(Unseen(f.messages) + drift, -1);
  }

  /** The step of the counter when one record changes from `m` to `m'`. */
  ghost predicate CountStep(f: Folder, g: Folder, m: Message, m': Message) {
    && g.messages == Replace(f.messages, m')
    && g.unread == if Unread(m) == Unread(m') then f.unread else U32(f.unread + Unread(m') - Unread(m))
  }

  lemma CountStepCounted(f: Folder, g: Folder, m: Message, m': Message, drift: int)
    requires Indexed(f) && m in f.messages && m'.serial == m.serial
    requires Counted(f, drift) && CountStep(f, g, m, m')
    ensures Counted(g, drift)
  {
    hide Unread, U32, Unseen, Replace, Indexed;
    UnseenUpdated(f, m, m');
    U32Step(Unseen(f.messages) + drift, Unread(m') - Unread(m));
  }

  lemma ChangeFlagsCounted(f: Folder, m: Message, flags: Word, drift: int)
    requires Indexed(f) && m in f.messages && Counted(f, drift)
    ensures Counted(ChangeFlags(f, m, flags), drift)
  {
    hide Counted, Indexed, U32, Replace;
    assert CountStep(f, ChangeFlags(f, m, flags), m, m.(flags := flags));
    CountStepCounted(f, ChangeFlags(f, m, flags), m, m.(flags := flags), drift);
  }

  lemma MessageRemovedCounted(f: Folder, href: string, drift: int)
    requires Counted(f, drift)
    ensures Counted(MessageRemoved(f, href), drift)
  {
    hide BinarySearch, RemoveAt, Counted, Fetch;
    match FindByHref(f, href)
    case None =>
    case Some(m) =>
      var k := BinarySearch(f.messages, 0, |f.messages| - 1, m.serial);
      if k != -1 { RemoveAtCounted(f, k, drift); }
  }

  lemma CountDeletedCounted(f: Folder, drift: int)
    requires Counted(f, drift)
    ensures Counted(CountDeleted(f), drift)
  {
  }

  lemma {:induction false} RemovalsCounted(f: Folder, hrefs: seq<string>, drift: int)
    requires Counted(f, drift)
    ensures Counted(Removals(f, hrefs), drift)
    decreases hrefs
  {
    if hrefs != [] {
      MessageRemovedCounted(f, hrefs[0], drift);
      RemovalsCounted(CountDeleted(MessageRemoved(f, hrefs[0])), hrefs[1..], drift);
    }
  }

  lemma {:induction false} LoadCounted(f: Folder, rows: seq<Row>, drift: int)
    requires Counted(f, drift)
    ensures Counted(LoadRows(f, rows), drift)
    decreases rows
  {
    if rows != [] {
      var href := if rows[0].href == Some("") then None else rows[0].href;
      AddCounted(f, rows[0].uid, href, rows[0].flags, drift);
      LoadCounted(Add(f, rows[0].uid, href, rows[0].flags), rows[1..], drift);
    }
  }

  lemma RefreshItemCounted(f: Folder, it: Item, drift: int)
    requires Indexed(f) && Counted(f, drift) && it.Usable()
    ensures Counted(RefreshItem(f, it), drift)
  {
    hide Indexed, MessageRemoved, Add, ChangeFlags, U32, Unseen;
    FindNone(f, it.uid.value);
    match Find(f, it.uid.value)
    case Some(m) => ChangeFlagsCounted(f, m, it.flags, drift);
    case None =>
      var cleared := if it.href in f.byHref then MessageRemoved(CountDeleted(f), it.href) else f;
      assert Counted(CountDeleted(f), drift) by { CountDeletedCounted(f, drift); }
      MessageRemovedCounted(CountDeleted(f), it.href, drift);
      AddCounted(cleared, it.uid.value, Some(it.href), it.flags, drift);
  }

  lemma {:induction false} RefreshItemsCounted(f: Folder, items: seq<Item>, drift: int)
    requires Indexed(f) && Counted(f, drift) && forall it <- items :: it.Usable()
    ensures Counted(RefreshItems(f, items), drift)
    decreases items
  {
    if items != [] {
      RefreshItemIndexed(f, items[0]);
      RefreshItemCounted(f, items[0], drift);
      RefreshItemsCounted(RefreshItem(f, items[0]), items[1..], drift);
    }
  }

  lemma {:induction false} MarkListedCounted(f: Folder, listing: seq<Listed>, drift: int)
    requires Indexed(f) && Counted(f, drift)
    ensures Counted(MarkListed(f, listing), drift)
    decreases listing
  {
    hide Indexed, Counted, Fetch, ChangeFlags;
    if listing != [] {
      match FindByHref(f, listing[0].href) {
        case None => MarkListedCounted(f, listing[1..], drift);
        case Some(m) =>
          FetchFrom(f.messages, f.byHref[listing[0].href]);
          var g := if (SEEN in m.flags) != listing[0].read then ChangeFlags(f, m, FlipSeen(m.flags)) else f;
          ChangeFlagsIndexed(f, m, FlipSeen(m.flags));
          ChangeFlagsCounted(f, m, FlipSeen(m.flags), drift);
          MarkListedCounted(g, listing[1..], drift);
      }
    }
  }

  lemma {:induction false} RemoveUnknownCounted(f: Folder, known: set<nat>, k: int, drift: int)
    requires -1 <= k < |f.messages| && Counted(f, drift)
    ensures Counted(RemoveUnknown(f, known, k), drift)
    decreases k + 1
  {
    if k >= 0 {
      if f.messages[k].serial in known {
        RemoveUnknownCounted(f, known, k - 1, drift);
      } else {
        RemoveAtCounted(CountDeleted(f), k, drift);
        RemoveUnknownCounted(RemoveAt(CountDeleted(f), k), known, k - 1, drift);
      }
    }
  }

  lemma LandCounted(f: Folder, k: nat, it: Item, drift: int)
    requires Indexed(f) && k < |f.messages| && Counted(f, drift)
    ensures Counted(Land(f, k, it), drift)
  {
    hide Counted, Indexed, U32, ChangeFlags;
    var m := f.messages[k];
    if m.href.None? {
      var m' := m.(href := Some(it.href));
      var g := SetHref(f, m, it.href);
      SetHrefIndexed(f, m, it.href);
      CountStepCounted(f, g, m, m', drift);
      assert g.messages[k] == m';
      ChangeFlagsCounted(g, m', it.flags, drift);
    } else {
      ChangeFlagsCounted(f, m, it.flags, drift);
    }
  }

  lemma {:induction false} MatchItemsCounted(f: Folder, m: nat, rest: seq<Message>, items: seq<Item>, drift: int)
    requires Indexed(f) && m + |rest| <= |f.messages| && Counted(f, drift)
    ensures Counted(MatchItems(f, m, rest, items), drift)
    decreases items
  {
    hide Indexed, Counted, Land, Landing, DropUntil;
    if rest != [] && items != [] {
      if !items[0].Usable() {
        MatchItemsCounted(f, m, rest, items[1..], drift);
      } else {
        var tail := DropUntil(rest, items[0].uid.value);
        if tail != [] {
          var k := Landing(f.messages, m, m + |tail|, tail[0].serial);
          LandIndexed(f, k, items[0]);
          LandCounted(f, k, items[0], drift);
          MatchItemsCounted(Land(f, k, items[0]), m + 1, tail[1..], items[1..], drift);
        }
      }
    }
  }

  lemma GetContentsCounted(f: Folder, items: seq<Item>, ok: bool, drift: int)
    requires Indexed(f) && Counted(f, drift)
    ensures Counted(GetContents(f, items, ok), drift)
  {
    hide Indexed, MatchItems, Unseen, U32, SortMessages;
    var sorted := SortMessages(f.messages);
    assert |sorted| == |multiset(sorted)|;
    PermutedIndexed(f, sorted);
    UnseenSorted(f.messages);
    MatchItemsCounted(f.(messages := sorted), 0, sorted, items, drift);
  }

  lemma SetFlagsCounted(f: Folder, uid: string, flags: Word, mask: Word, drift: int)
    requires Indexed(f) && Counted(f, drift)
    ensures Counted(SetFlags(f, uid, flags, mask), drift)
  {
    hide Counted, Indexed, U32, Replace, Edited, EditedMask, Find;
    FindNone(f, uid);
    match Find(f, uid)
    case None =>
    case Some(m) =>
      var e := Edited(m, flags, mask);
      EditedSame(m, flags, mask);
      assert CountStep(f, SetFlags(f, uid, flags, mask), m, e);
      CountStepCounted(f, SetFlags(f, uid, flags, mask), m, e, drift);
  }

  lemma SetTagCounted(f: Folder, uid: string, name: string, value: Option<string>, drift: int)
    requires Indexed(f) && Counted(f, drift)
    ensures Counted(SetTag(f, uid, name, value), drift)
  {
    hide Indexed, U32, Unseen, Replace, Find;
    FindNone(f, uid);
    match Find(f, uid)
    case None =>
    case Some(m) =>
      var tags := if value.Some? then m.tags[name := value.value] else Without(m.tags, name);
      UnseenUpdated(f, m, m.(tags := tags));
  }

  // ---- the flusher ---------------------------------------------------------

  /** Queued edits to "read" of messages stored unread, minus the opposite ones. */
  function Conflicts(ms: seq<Message>, q: set<nat>): int {
    if ms == [] then 0
    else
      (if ms[0].serial in q && ms[0].Conflicting() then (if SEEN in ms[0].flags then -1 else 1) else 0)
      + Conflicts(ms[1..], q)
  }

  lemma FlushedSeen(m: Message)
    ensures Unread(m) - Unread(Flushed(m)) ==
            if m.Conflicting() then (if SEEN in m.flags then -1 else 1) else 0
  {
    hide FlushedMask;
  }

  lemma {:induction false} FlushAllUnseen(ms: seq<Message>, q: set<nat>)
    ensures Unseen(FlushAll(ms, q)) == Unseen(ms) - Conflicts(ms, q)
  {
    if ms != [] {
      FlushedSeen(ms[0]);
      FlushAllUnseen(ms[1..], q);
      assert FlushAll(ms, q)[1..] == FlushAll(ms[1..], q);
    }
  }

  /** By how much one run of the flusher puts the counter off. */
  function FlushDrift(f: Folder): int {
    Conflicts(f.messages, set s <- f.changed)
  }

  lemma FlushLoopCounted(f: Folder, drift: int)
    requires Flushable(f) && Counted(f, drift)
    ensures Counted(FlushLoop(f, 0), drift + FlushDrift(f))
  {
    hide FlushLoop, Conflicts, Unseen, FlushAll, Fetch, U32, Flushable;
    FlushLoopOutcome(f, 0);
    assert f.changed[0..] == f.changed;
    FlushAllUnseen(f.messages, Elements(f.changed));
  }

  lemma FlushCounted(f: Folder, gone: seq<string>, drift: int)
    requires Flushable(f) && Counted(f, drift)
    ensures Counted(Flush(f, gone), drift + FlushDrift(f))
  {
    hide FlushLoop, FlushDrift, Removals, Flushable, Unseen, U32;
    FlushLoopCounted(f, drift);
    RemovalsCounted(FlushLoop(f, 0), gone, drift + FlushDrift(f));
  }

  /**
   One run of the flusher leaves a right counter right exactly when the conflicting
   edits in the queue cancel out; in particular when there are none.
   */
  lemma FlushExactIff(f: Folder, gone: seq<string>)
    requires Flushable(f) && Counted(f, 0)
    ensures Counted(Flush(f, gone), 0) <==> U32(FlushDrift(f)) == 0
    ensures (forall m <- f.messages :: m.serial in f.changed ==> !m.Conflicting()) ==> FlushDrift(f) == 0
  {
    hide Flush, Conflicts, Unseen, Flushable;
    FlushCounted(f, gone, 0);
    var n := Unseen(Flush(f, gone).messages);
    U32Sum(FlushDrift(f), n);
    U32Sum(n + FlushDrift(f), -n);
    U32Sum(n, -n);
    NoConflicts(f.messages, set s <- f.changed);
  }

  lemma {:induction false} NoConflicts(ms: seq<Message>, q: set<nat>)
    ensures (forall m <- ms :: m.serial in q ==> !m.Conflicting()) ==> Conflicts(ms, q) == 0
  {
    if ms != [] {
      assert forall m <- ms[1..] :: m in ms;
      NoConflicts(ms[1..], q);
    }
  }

  /**
   Where conflicts come from and go: after a user's edit there is one exactly if there was one
   and the edit does not ask for the other read state; sending leaves none; a flag change from
   the server leaves one exactly when it contradicts the pending read-state edit.
   */
  lemma ConflictSources(m: Message, flags: Word, mask: Word)
    ensures Edited(m, flags, mask).Conflicting() <==>
            m.Conflicting() && (SEEN in mask ==> (SEEN in flags) == (SEEN in m.flags))
    ensures !Flushed(m).Conflicting()
    ensures m.(flags := flags).Conflicting() <==>
            SEEN in m.changeMask && (SEEN in m.changeFlags) != (SEEN in flags)
  {
    if !m.Conflicting() { EditedContradicts(m.flags, m.changeFlags, m.changeMask, flags, mask); }
  }
}
