/**
 Flag edits that were journalled offline.  Replayed in queue order on the online folder
 they leave each message with what the last journalled edit of each bit asked for.
 */
module JournalEdits {
  import opened Basics
  import opened MessageFlags
  import opened FolderState
  import opened FolderIndex
  import opened JournalState
  import opened UserEdits

  /** The `set_message_flags` calls made by the flag entries of a queue, oldest first. */
  function ReplayedEdits(queue: seq<Entry>, name: Uid -> string): seq<Edit> {
    if queue == [] then []
    else
      var last := queue[|queue| - 1];
      ReplayedEdits(queue[..|queue| - 1], name)
      + if last.Delete? then [Edit(name(last.uid), last.set', last.flags)] else []
  }

  /** What the last journalled edit of the message that covers the bit asked for, or its initial value. */
  predicate LastJournalled(queue: seq<Entry>, uid: Uid, word: Word, bit: nat) {
    if queue == [] then bit in word
    else
      var last := queue[|queue| - 1];
      if last.Delete? && last.uid == uid && bit in last.flags then bit in last.set'
      else LastJournalled(queue[..|queue| - 1], uid, word, bit)
  }

  lemma {:induction false} JournalledWriter(queue: seq<Entry>, name: Uid -> string, uid: Uid, word: Word, bit: nat)
    requires forall x, y :: name(x) == name(y) ==> x == y
    ensures LastWriter(ReplayedEdits(queue, name), name(uid), word, bit) == LastJournalled(queue, uid, word, bit)
  {
    if queue != [] {
      var front, last := queue[..|queue| - 1], queue[|queue| - 1];
      JournalledWriter(front, name, uid, word, bit);
      var edits := ReplayedEdits(front, name);
      if last.Delete? {
        var e := Edit(name(last.uid), last.set', last.flags);
        assert (edits + [e])[..|edits|] == edits;
      } else {
        assert edits + [] == edits;
      }
    }
  }

  /** A flag entry of the message that covers SEEN. */
  predicate SetsSeen(e: Entry, uid: Uid) {
    e.Delete? && e.uid == uid && SEEN in e.flags
  }

  /**
   The journal is lost on the read state: a contradicting edit of SEEN is pending, and every
   entry that covers SEEN, of which there is one, asks for the stored value.
   */
  ghost predicate JournalDropped(queue: seq<Entry>, uid: Uid, m: Message) {
    && m.Conflicting()
    && (exists e <- queue :: SetsSeen(e, uid))
    && (forall e <- queue :: SetsSeen(e, uid) ==> (SEEN in e.set') == (SEEN in m.flags))
  }

  lemma {:induction false} ReplayedSeen(queue: seq<Entry>, name: Uid -> string, uid: Uid, seen: bool)
    requires forall x, y :: name(x) == name(y) ==> x == y
    ensures var edits := ReplayedEdits(queue, name);
            && (AnyAsks(edits, name(uid)) <==> exists e <- queue :: SetsSeen(e, uid))
            && (AllAsk(edits, name(uid), seen) <==> forall e <- queue :: SetsSeen(e, uid) ==> (SEEN in e.set') == seen)
  {
    if queue != [] {
      var front, last := queue[..|queue| - 1], queue[|queue| - 1];
      assert queue == front + [last];
      ReplayedSeen(front, name, uid, seen);
      assert forall e :: e in queue <==> e in front || e == last;
      var edits := ReplayedEdits(front, name);
      if last.Delete? {
        var edit := Edit(name(last.uid), last.set', last.flags);
        assert ReplayedEdits(queue, name) == edits + [edit];
        assert forall d :: d in edits + [edit] <==> d in edits || d == edit;
        assert Covers(edit, name(uid), SEEN) <==> SetsSeen(last, uid);
      } else {
        assert edits + [] == edits;
      }
    }
  }

  /**
   Replaying the journalled edits of a folder gives each bit to its last writer, whatever was
   pending there, unless the bit is SEEN and all its entries are dropped.
   */
  lemma JournalledEditsWinIff(f: Folder, queue: seq<Entry>, name: Uid -> string, m: Message, uid: Uid, bit: nat)
    returns (m': Message)
    requires Indexed(f) && m in f.messages && m.uid == name(uid)
    requires forall x, y :: name(x) == name(y) ==> x == y
    ensures Fetch(RunEdits(f, ReplayedEdits(queue, name)).messages, m.serial) == Some(m')
    ensures (bit in m'.Effective()) == LastJournalled(queue, uid, m.Effective(), bit)
            <==> !(bit == SEEN && JournalDropped(queue, uid, m))
  {
    hide Indexed, Fetch;
    m' := LastWriterWinsIff(f, ReplayedEdits(queue, name), m, bit);
    JournalledWriter(queue, name, uid, m.Effective(), bit);
    ReplayedSeen(queue, name, uid, SEEN in m.flags);
  }

  /** In particular each bit goes to its last writer when no contradicting edit was pending. */
  lemma JournalledEditsWin(f: Folder, queue: seq<Entry>, name: Uid -> string, m: Message, uid: Uid, bit: nat)
    returns (m': Message)
    requires Indexed(f) && m in f.messages && !m.Conflicting() && m.uid == name(uid)
    requires forall x, y :: name(x) == name(y) ==> x == y
    ensures Fetch(RunEdits(f, ReplayedEdits(queue, name)).messages, m.serial) == Some(m')
    ensures (bit in m'.Effective()) == LastJournalled(queue, uid, m.Effective(), bit)
  {
    hide Indexed, Fetch;
    m' := JournalledEditsWinIff(f, queue, name, m, uid, bit);
  }

  /**
   A flag change journalled now is the last word on the bits it covers: replayed, they are what
   it asks for, and the other bits and messages are as without it.
   */
  lemma JournalledLast(l: Local, uid: Uid, flags: Word, set': Word, other: Uid, word: Word, bit: nat)
    ensures LastJournalled(JournalDelete(l, uid, flags, set').queue, other, word, bit) ==
            if other == uid && bit in flags then bit in set' else LastJournalled(l.queue, other, word, bit)
  {
    var q := JournalDelete(l, uid, flags, set').queue;
    assert q[..|q| - 1] == l.queue;
  }
}
