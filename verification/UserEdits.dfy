/**
 User edits to flags.  A message's effective flags are its pending edits laid over
 the stored flags; a run of edits, on any messages in any order, leaves each message
 with the bit-by-bit last-writer-wins result, although edits of SEEN to its stored
 value are dropped on the way, unless all edits of SEEN are dropped under a pending
 edit that contradicts the stored value.
 */
module UserEdits {
  import opened Basics
  import opened MessageFlags
  import opened FolderState
  import opened FolderIndex
  import opened PendingQueue

  datatype Edit = Edit(uid: string, flags: Word, mask: Word)

  function RunEdits(f: Folder, edits: seq<Edit>): Folder
    decreases edits
  {
    if edits == [] then f
    else RunEdits(SetFlags(f, edits[0].uid, edits[0].flags, edits[0].mask), edits[1..])
  }

  /** What the last edit of the message that covers the bit asks for, or its initial value. */
  function LastWriter(edits: seq<Edit>, uid: string, word: Word, bit: nat): bool {
    if edits == [] then bit in word
    else
      var last := edits[|edits| - 1];
      if last.uid == uid && bit in last.mask then bit in last.flags
      else LastWriter(edits[..|edits| - 1], uid, word, bit)
  }

  // ---- one edit ------------------------------------------------------------

  /**
   One edit has exactly the requested effect on the effective flags, unless it sets
   SEEN to the stored value while a contradicting edit of SEEN is pending.
   */
  lemma EditAppliesIff(m: Message, flags: Word, mask: Word)
    ensures Edited(m, flags, mask).Effective() == Overlay(m.Effective(), flags, mask)
            <==> !(SEEN in mask && (SEEN in m.flags) == (SEEN in flags) && m.Conflicting())
  {
    hide Overlay, EditedMask, EditedFlags, MergedBits;
    EditedWord(m.flags, m.changeFlags, m.changeMask, flags, mask);
  }

  /** The dropped edit: server-side "unread" under a pending "read", then "unread". */
  lemma DroppedEdit()
    ensures var m := Message("a", None, 0, {}, {SEEN}, {SEEN}, map[]);
            m.Conflicting() && SEEN in Edited(m, {}, {SEEN}).Effective()
  {
  }

  /**
   Sending a message's edits keeps what the user sees exactly when the stored flags already
   agree with the sent answered and importance edits: only the read state is stored at once.
   */
  lemma FlushKeepsEffectiveIff(m: Message)
    ensures Flushed(m).Effective() == m.Effective() <==>
            forall b <- m.changeMask - FlushedMask(m.changeMask) - {SEEN} :: (b in m.flags) == (b in m.changeFlags)
  {
    var after, before, sent := Flushed(m).Effective(), m.Effective(), m.changeMask - FlushedMask(m.changeMask) - {SEEN};
    assert forall b: nat :: b !in sent ==> (b in after <==> b in before);
    assert forall b: nat :: b in sent ==> (b in after <==> b in m.flags) && (b in before <==> b in m.changeFlags);
  }

  lemma EditedKeepsAgreement(m: Message, flags: Word, mask: Word)
    requires !m.Conflicting()
    ensures !Edited(m, flags, mask).Conflicting()
  {
    hide EditedMask, EditedFlags, MergedBits, Contradicts;
    EditedContradicts(m.flags, m.changeFlags, m.changeMask, flags, mask);
  }

  // ---- runs of edits -------------------------------------------------------

  /** What one edit does to every message, found by serial number. */
  lemma SetFlagsOutcome(f: Folder, e: Edit, m: Message)
    requires Indexed(f) && m in f.messages
    ensures Fetch(SetFlags(f, e.uid, e.flags, e.mask).messages, m.serial) ==
            Some(if m.uid == e.uid then Edited(m, e.flags, e.mask) else m)
  {
    hide Edited, EditedMask, Fetch;
    FindNone(f, e.uid);
    FetchMember(f.messages, m);
    match Find(f, e.uid)
    case None =>
    case Some(x) =>
      EditedSame(x, e.flags, e.mask);
      FetchReplaced(f.messages, Edited(x, e.flags, e.mask), m.serial);
      FetchMember(f.messages, x);
  }

  lemma {:induction false} RunEditsSplit(f: Folder, edits: seq<Edit>, last: Edit)
    ensures RunEdits(f, edits + [last]) == SetFlags(RunEdits(f, edits), last.uid, last.flags, last.mask)
    decreases edits
  {
    if edits == [] {
      assert ([] + [last])[1..] == [];
      assert RunEdits(f, [] + [last]) == SetFlags(f, last.uid, last.flags, last.mask);
    } else {
      assert (edits + [last])[1..] == edits[1..] + [last];
      RunEditsSplit(SetFlags(f, edits[0].uid, edits[0].flags, edits[0].mask), edits[1..], last);
    }
  }

  predicate Covers(e: Edit, uid: string, bit: nat) {
    e.uid == uid && bit in e.mask
  }

  /** No edit of the message asks for another read state than the one given. */
  ghost predicate AllAsk(edits: seq<Edit>, uid: string, seen: bool) {
    forall e <- edits :: Covers(e, uid, SEEN) ==> (SEEN in e.flags) == seen
  }

  ghost predicate AnyAsks(edits: seq<Edit>, uid: string) {
    exists e <- edits :: Covers(e, uid, SEEN)
  }

  /**
   The run is lost on the message: a contradicting edit of SEEN is pending, and every edit
   that covers SEEN, of which there is one, asks for the stored value.
   */
  ghost predicate AllDropped(edits: seq<Edit>, m: Message) {
    m.Conflicting() && AnyAsks(edits, m.uid) && AllAsk(edits, m.uid, SEEN in m.flags)
  }

  /** One edit of the message, bit by bit and with whatever is pending. */
  lemma EditedBits(m: Message, flags: Word, mask: Word, bit: nat)
    ensures var e := Edited(m, flags, mask);
            && (bit != SEEN || !m.Conflicting() || e.Conflicting() ==>
                  ((bit in e.Effective()) == (if bit in mask && (bit != SEEN || !m.Conflicting()) then bit in flags
                                              else bit in m.Effective())))
            && (e.Conflicting() <==> m.Conflicting() && (SEEN in mask ==> (SEEN in flags) == (SEEN in m.flags)))
            && (m.Conflicting() && !e.Conflicting() ==> (SEEN in e.Effective()) == (SEEN in flags))
            && (e.Conflicting() ==> (SEEN in e.flags) == (SEEN in m.flags))
  {
  }

  /** A pending edit that contradicts the stored read state shows the other one. */
  lemma ConflictShows(m: Message)
    requires m.Conflicting()
    ensures (SEEN in m.Effective()) != (SEEN in m.flags)
  {
  }

  /** The last writer of SEEN, if all edits agree. */
  lemma {:induction false} LastOfAgreeing(edits: seq<Edit>, uid: string, word: Word, seen: bool)
    requires AllAsk(edits, uid, seen)
    ensures LastWriter(edits, uid, word, SEEN) == if AnyAsks(edits, uid) then seen else SEEN in word
  {
    if edits != [] {
      var front, last := edits[..|edits| - 1], edits[|edits| - 1];
      assert edits == front + [last];
      assert last in edits && forall e <- front :: e in edits;
      LastOfAgreeing(front, uid, word, seen);
    }
  }

  /** What one more edit does to `x`, as left by the edits before, and to the last writer. */
  lemma RunBit(front: seq<Edit>, e: Edit, m: Message, x: Message, bit: nat)
    requires x.uid == m.uid
    requires x.Conflicting() <==> m.Conflicting() && AllAsk(front, m.uid, SEEN in m.flags)
    requires x.Conflicting() ==> (SEEN in x.flags) == (SEEN in m.flags)
                                 && (SEEN in x.Effective()) == (SEEN in m.Effective())
    requires bit != SEEN || !x.Conflicting() ==> (bit in x.Effective()) == LastWriter(front, m.uid, m.Effective(), bit)
    ensures var y := if x.uid == e.uid then Edited(x, e.flags, e.mask) else x;
            var edits := front + [e];
            && (y.Conflicting() <==> m.Conflicting() && AllAsk(edits, m.uid, SEEN in m.flags))
            && (y.Conflicting() ==> (SEEN in y.flags) == (SEEN in m.flags)
                                    && (SEEN in y.Effective()) == (SEEN in m.Effective()))
            && (bit != SEEN || !y.Conflicting() ==>
                  (bit in y.Effective()) == LastWriter(edits, m.uid, m.Effective(), bit))
  {
    hide Edited;
    var edits := front + [e];
    assert edits[..|edits| - 1] == front && edits[|edits| - 1] == e;
    assert forall d :: d in edits <==> d in front || d == e;
    EditedBits(x, e.flags, e.mask, bit);
    EditedBits(x, e.flags, e.mask, SEEN);
  }

  /** The message after a run of edits, whatever was pending on it before. */
  lemma {:induction false} RunOutcome(f: Folder, edits: seq<Edit>, m: Message, bit: nat) returns (m': Message)
    requires Indexed(f) && m in f.messages
    ensures Indexed(RunEdits(f, edits)) && Fetch(RunEdits(f, edits).messages, m.serial) == Some(m')
    ensures m'.uid == m.uid
    ensures m'.Conflicting() <==> m.Conflicting() && AllAsk(edits, m.uid, SEEN in m.flags)
    ensures m'.Conflicting() ==> (SEEN in m'.flags) == (SEEN in m.flags)
                                 && (SEEN in m'.Effective()) == (SEEN in m.Effective())
    ensures bit != SEEN || !m'.Conflicting() ==>
              (bit in m'.Effective()) == LastWriter(edits, m.uid, m.Effective(), bit)
    decreases |edits|
  {
    hide Indexed, Fetch, Edited;
    if edits == [] {
      m' := m;
      FetchIn(f, m);
    } else {
      var front, e := edits[..|edits| - 1], edits[|edits| - 1];
      assert edits == front + [e];
      RunEditsSplit(f, front, e);
      var x := RunOutcome(f, front, m, bit);
      var g := RunEdits(f, front);
      SetFlagsIndexed(g, e.uid, e.flags, e.mask);
      MemberOf(g, m.serial);
      SetFlagsOutcome(g, e, x);
      m' := if x.uid == e.uid then Edited(x, e.flags, e.mask) else x;
      EditedSame(x, e.flags, e.mask);
      RunBit(front, e, m, x, bit);
    }
  }

  /**
   Last writer wins, exactly: after any run of edits, with anything pending before, a bit of
   a message's effective flags is what the last edit of that message covering the bit asked
   for, unless the bit is SEEN and every edit of it was dropped.
   */
  lemma LastWriterWinsIff(f: Folder, edits: seq<Edit>, m: Message, bit: nat) returns (m': Message)
    requires Indexed(f) && m in f.messages
    ensures Fetch(RunEdits(f, edits).messages, m.serial) == Some(m') && m'.uid == m.uid
    ensures (bit in m'.Effective()) == LastWriter(edits, m.uid, m.Effective(), bit)
            <==> !(bit == SEEN && AllDropped(edits, m))
  {
    hide Indexed, Fetch;
    m' := RunOutcome(f, edits, m, bit);
    if bit == SEEN && m'.Conflicting() {
      ConflictShows(m);
      LastOfAgreeing(edits, m.uid, m.Effective(), SEEN in m.flags);
    }
  }

  /** In particular every bit goes to its last writer when no contradicting edit was pending. */
  lemma LastWriterWins(f: Folder, edits: seq<Edit>, m: Message, bit: nat) returns (m': Message)
    requires Indexed(f) && m in f.messages && !m.Conflicting()
    ensures Indexed(RunEdits(f, edits)) && Fetch(RunEdits(f, edits).messages, m.serial) == Some(m')
    ensures m'.uid == m.uid && !m'.Conflicting()
    ensures (bit in m'.Effective()) == LastWriter(edits, m.uid, m.Effective(), bit)
  {
    hide Indexed, Fetch;
    m' := RunOutcome(f, edits, m, bit);
    var x := LastWriterWinsIff(f, edits, m, bit);
  }

  lemma FetchIn(f: Folder, m: Message)
    requires Indexed(f) && m in f.messages
    ensures Fetch(f.messages, m.serial) == Some(m)
  {
    FetchMember(f.messages, m);
  }

  lemma MemberOf(f: Folder, serial: nat)
    ensures Fetch(f.messages, serial).Some? ==>
              Fetch(f.messages, serial).value in f.messages && Fetch(f.messages, serial).value.serial == serial
  {
  }
}
