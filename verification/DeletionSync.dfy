/** When the deletion sync runs a pass, and what a pass does, stated outright. */
module DeletionSync {
  import opened Basics
  import opened MessageFlags
  import opened FolderState
  import opened FolderIndex

  /** The last read state the listing gives for the message, if it is listed. */
  function ReadState(byHref: map<string, nat>, listing: seq<Listed>, serial: nat): Option<bool> {
    if listing == [] then None
    else
      var later := ReadState(byHref, listing[1..], serial);
      if later.Some? then later
      else if listing[0].href in byHref && byHref[listing[0].href] == serial then Some(listing[0].read)
      else None
  }

  function WithRead(flags: Word, read: Option<bool>): Word {
    match read
    case None => flags
    case Some(seen) => WithSeen(flags, seen)
  }

  /** The message with its read bit as listed, all other bits kept. */
  function Marked(m: Message, byHref: map<string, nat>, listing: seq<Listed>): Message {
    m.(flags := WithRead(m.flags, ReadState(byHref, listing, m.serial)))
  }

  function MarkAll(ms: seq<Message>, byHref: map<string, nat>, listing: seq<Listed>): seq<Message> {
    seq(|ms|, i requires 0 <= i < |ms| => Marked(ms[i], byHref, listing))
  }

  /** The messages of the set, in array order. */
  function Keep(ms: seq<Message>, known: set<nat>): seq<Message> {
    if ms == [] then []
    else
      var last := ms[|ms| - 1];
      Keep(ms[..|ms| - 1], known) + (if last.serial in known then [last] else [])
  }

  lemma FlipIsWithRead(flags: Word, read: bool)
    ensures WithRead(flags, Some(read)) == if (SEEN in flags) != read then FlipSeen(flags) else flags
  {
  }

  lemma LaterReadWins(flags: Word, read: bool, later: Option<bool>)
    ensures WithRead(WithRead(flags, Some(read)), later) == WithRead(flags, if later.Some? then later else Some(read))
  {
  }

  lemma ListedKnown(f: Folder, listing: seq<Listed>, serial: nat)
    ensures ReadState(f.byHref, listing, serial).Some? <==> serial in Known(f, listing)
  {
    if listing != [] {
      ListedKnown(f, listing[1..], serial);
      assert forall l :: l in listing <==> l == listing[0] || l in listing[1..];
    }
  }

  lemma {:induction false} MarkListedOutcome(f: Folder, listing: seq<Listed>)
    requires Indexed(f)
    ensures MarkListed(f, listing) ==
            f.(messages := MarkAll(f.messages, f.byHref, listing), unread := MarkListed(f, listing).unread)
    decreases listing
  {
    if listing == [] {
      assert MarkAll(f.messages, f.byHref, listing) == f.messages;
    } else {
      hide WithRead;
      var l := listing[0];
      match FindByHref(f, l.href) {
        case None =>
          assert l.href in f.byHref ==> BearsHref(f.messages, f.byHref[l.href], l.href);
          MarkListedOutcome(f, listing[1..]);
          assert MarkAll(f.messages, f.byHref, listing) == MarkAll(f.messages, f.byHref, listing[1..]);
        case Some(m) =>
          var g := if (SEEN in m.flags) != l.read then ChangeFlags(f, m, FlipSeen(m.flags)) else f;
          FetchFrom(f.messages, f.byHref[l.href]);
          ChangeFlagsIndexed(f, m, FlipSeen(m.flags));
          MarkListedOutcome(g, listing[1..]);
          MarkStep(f, l, m, g, listing);
      }
    }
  }

  lemma ReadStateStep(byHref: map<string, nat>, listing: seq<Listed>, serial: nat)
    requires listing != []
    ensures ReadState(byHref, listing, serial) ==
            var later := ReadState(byHref, listing[1..], serial);
            if later.Some? then later
            else if listing[0].href in byHref && byHref[listing[0].href] == serial then Some(listing[0].read) else None
  {
  }

  lemma MarkStep(f: Folder, l: Listed, m: Message, g: Folder, listing: seq<Listed>)
    requires Indexed(f) && listing != [] && listing[0] == l && FindByHref(f, l.href) == Some(m) && m in f.messages
    requires g == if (SEEN in m.flags) != l.read then ChangeFlags(f, m, FlipSeen(m.flags)) else f
    ensures MarkAll(g.messages, f.byHref, listing[1..]) == MarkAll(f.messages, f.byHref, listing)
  {
    hide WithRead, ReadState, UidsSound, HrefsSound, QueueBounded, Position;
    FlipIsWithRead(m.flags, l.read);
    LaterReadWins(m.flags, l.read, ReadState(f.byHref, listing[1..], m.serial));
    FetchMember(f.messages, m);
    FetchFrom(f.messages, f.byHref[l.href]);
    forall serial: nat
      ensures ReadState(f.byHref, listing, serial) ==
              var later := ReadState(f.byHref, listing[1..], serial);
              if later.Some? then later else if serial == m.serial then Some(l.read) else None
    {
      ReadStateStep(f.byHref, listing, serial);
    }
    forall i | 0 <= i < |f.messages|
      ensures Marked(g.messages[i], f.byHref, listing[1..]) == Marked(f.messages[i], f.byHref, listing)
    {
      FetchMember(f.messages, f.messages[i]);
    }
  }

  lemma RemovedAndCounted(f: Folder, k: nat)
    requires k < |f.messages|
    ensures var h := RemoveAt(CountDeleted(f), k);
            && h.messages == f.messages[..k] + f.messages[k + 1..]
            && h.deletedCount == U32(f.deletedCount + 1)
  {
    hide U32, RemoveFast;
  }

  lemma {:induction false} RemoveUnknownOutcome(f: Folder, known: set<nat>, k: int)
    requires -1 <= k < |f.messages| && f.deletedCount < 0x1_0000_0000
    ensures var g := RemoveUnknown(f, known, k);
            && g.messages == Keep(f.messages[..k + 1], known) + f.messages[k + 1..]
            && g.deletedCount == U32(f.deletedCount + |f.messages| - |g.messages|)
    decreases k + 1
  {
    hide U32, RemoveAt;
    var g := RemoveUnknown(f, known, k);
    if k < 0 {
      assert f.messages[..0] == [];
      U32Small(f.deletedCount);
    } else {
      assert f.messages[..k + 1][..k] == f.messages[..k];
      if f.messages[k].serial in known {
        RemoveUnknownOutcome(f, known, k - 1);
        assert f.messages[k..] == [f.messages[k]] + f.messages[k + 1..];
      } else {
        var h := RemoveAt(CountDeleted(f), k);
        RemovedAndCounted(f, k);
        U32Small(f.deletedCount + 1);
        RemoveUnknownOutcome(h, known, k - 1);
        assert h.messages[..k] == f.messages[..k];
        assert h.messages[k..] == f.messages[k + 1..];
        U32Sum(f.deletedCount + 1, |h.messages| - |g.messages|);
      }
    }
  }

  lemma U32Small(x: nat)
    ensures U32(x) < 0x1_0000_0000
    ensures x < 0x1_0000_0000 ==> U32(x) == x
  {
  }

  /**
   A deletion pass leaves exactly the messages whose href entry was listed, in their
   old order, with SEEN set to the listed read state and every other bit kept, and
   raises the deletion counter by the number of messages dropped.
   */
  lemma DeletionPassExact(f: Folder, listing: seq<Listed>)
    requires Indexed(f) && f.deletedCount < 0x1_0000_0000
    ensures var g := DeletionPass(f, listing);
            && g.messages == Keep(MarkAll(f.messages, f.byHref, listing), Known(f, listing))
            && g.deletedCount == U32(f.deletedCount + |f.messages| - |g.messages|)
            && (forall m <- f.messages :: (exists x <- g.messages :: x.serial == m.serial)
                                          <==> ReadState(f.byHref, listing, m.serial).Some?)
  {
    hide MarkListed, RemoveUnknown, Keep, Indexed, Known, ReadState, U32;
    var marked := MarkListed(f, listing);
    MarkListedOutcome(f, listing);
    var ms := marked.messages;
    assert ms[..|ms|] == ms;
    RemoveUnknownOutcome(marked, Known(f, listing), |ms| - 1);
    KeepMembers(ms, Known(f, listing));
    var g := DeletionPass(f, listing);
    forall m | m in f.messages
      ensures (exists x <- g.messages :: x.serial == m.serial) <==> ReadState(f.byHref, listing, m.serial).Some?
    {
      ListedKnown(f, listing, m.serial);
      var i :| 0 <= i < |f.messages| && f.messages[i] == m;
      assert ms[i].serial == m.serial && ms[i] in ms;
    }
  }

  // ---- the whole sync ------------------------------------------------------

  /** Messages may have gone: fewer are visible, or the server counts other deletions than the client. */
  predicate PassNeeded(f: Folder, deleted: int, visible: int) {
    U32(visible) < |f.messages| || (f.deletedCount != U32(deleted) && f.deletedCount != 0)
  }

  /** The message's entry in the href index is among the listed ones. */
  ghost predicate EntryListed(f: Folder, listing: seq<Listed>, serial: nat) {
    exists l <- listing :: l.href in f.byHref && f.byHref[l.href] == serial
  }

  lemma {:induction false} ReadStateListed(f: Folder, listing: seq<Listed>, serial: nat)
    ensures ReadState(f.byHref, listing, serial).Some? <==> EntryListed(f, listing, serial)
  {
    ListedKnown(f, listing, serial);
    if EntryListed(f, listing, serial) {
      var l :| l in listing && l.href in f.byHref && f.byHref[l.href] == serial;
      assert f.byHref[l.href] in Known(f, listing);
    }
  }

  /**
   The deletion sync, exactly.  If fewer messages are visible than known, or the deletion counter
   is neither the server's nor 0, every message left had its entry listed, carries SEEN as listed
   and is otherwise unchanged, the others are gone, and the counter rises by their number.
   Otherwise nothing changes, except that a counter of 0 takes the server's value.
   */
  lemma SyncDeletionsExact(f: Folder, deleted: int, visible: int, listing: seq<Listed>)
    requires Indexed(f) && f.deletedCount < 0x1_0000_0000
    ensures var g := SyncDeletions(f, deleted, visible, listing);
            if PassNeeded(f, deleted, visible) then
              && g.messages == Keep(MarkAll(f.messages, f.byHref, listing), Known(f, listing))
              && (forall x :: x in g.messages <==>
                    exists m <- f.messages :: EntryListed(f, listing, m.serial) && x == Marked(m, f.byHref, listing))
              && g.deletedCount == U32(f.deletedCount + |f.messages| - |g.messages|)
            else
              g == f.(deletedCount := if f.deletedCount == 0 then U32(deleted) else f.deletedCount)
  {
    hide MarkListed, RemoveUnknown, Keep, Indexed, ReadState, U32, DeletionPass, Marked, Known, EntryListed;
    if PassNeeded(f, deleted, visible) {
      var g := DeletionPass(f, listing);
      DeletionPassExact(f, listing);
      var ms := MarkAll(f.messages, f.byHref, listing);
      KeepMembers(ms, Known(f, listing));
      MarkedMembers(f, listing);
    }
  }

  lemma MarkedMembers(f: Folder, listing: seq<Listed>)
    ensures forall x :: x in MarkAll(f.messages, f.byHref, listing) && x.serial in Known(f, listing) <==>
              exists m <- f.messages :: EntryListed(f, listing, m.serial) && x == Marked(m, f.byHref, listing)
  {
    hide WithRead, ReadState;
    var ms := MarkAll(f.messages, f.byHref, listing);
    forall i | 0 <= i < |f.messages|
      ensures ms[i] == Marked(f.messages[i], f.byHref, listing) && ms[i].serial == f.messages[i].serial
      ensures f.messages[i].serial in Known(f, listing) <==> EntryListed(f, listing, f.messages[i].serial)
    {
      KnownListed(f, listing, f.messages[i].serial);
    }
    forall m | m in f.messages
      ensures Marked(m, f.byHref, listing) in ms
    {
      var i :| 0 <= i < |f.messages| && f.messages[i] == m;
      assert ms[i] in ms;
    }
  }

  lemma KnownListed(f: Folder, listing: seq<Listed>, serial: nat)
    ensures serial in Known(f, listing) <==> EntryListed(f, listing, serial)
  {
    ListedKnown(f, listing, serial);
    ReadStateListed(f, listing, serial);
  }

  /** Right after reconnecting, a sync that meets the same counters finds nothing to do. */
  lemma ReconnectSettles(f: Folder, total: nat, visible: int, listing: seq<Listed>)
    requires Indexed(f) && |f.messages| <= U32(visible)
    ensures var g := Reconnect(f, Some(total));
            g.messages == f.messages && g.changed == [] && SyncDeletions(g, total, visible, listing) == g
  {
  }

  lemma {:induction false} KeepMembers(ms: seq<Message>, known: set<nat>)
    ensures forall m :: m in Keep(ms, known) <==> m in ms && m.serial in known
  {
    if ms != [] {
      assert ms == ms[..|ms| - 1] + [ms[|ms| - 1]];
      KeepMembers(ms[..|ms| - 1], known);
    }
  }
}
