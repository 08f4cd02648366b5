/**
 What a user's edit of flags or tags leaves behind, bit by bit: what is stored at once, what
 is left to send, which message is queued for it, and that nothing else changes.
 */
module EditEffects {
  import opened Basics
  import opened MessageFlags
  import opened FolderState
  import opened FolderIndex
  import opened PendingQueue

  /** The edit leaves this bit to be sent: all but a SEEN that is stored as asked already. */
  predicate Leaves(m: Message, flags: Word, mask: Word, b: nat) {
    b in mask && (b == SEEN ==> (SEEN in flags) != (SEEN in m.flags))
  }

  /** Nothing but flags and pending edits of the record differs. */
  predicate SameRecord(m: Message, e: Message) {
    e.uid == m.uid && e.href == m.href && e.serial == m.serial && e.tags == m.tags
  }

  /** The message with the edit in it: SEEN is stored at once, what is left is pending as asked. */
  ghost predicate EditIn(m: Message, flags: Word, mask: Word, e: Message) {
    && SameRecord(m, e)
    && (forall b: nat :: b in e.flags <==> if b == SEEN && SEEN in mask then SEEN in flags else b in m.flags)
    && (forall b: nat :: b in e.changeMask <==> b in m.changeMask || Leaves(m, flags, mask, b))
    && (forall b: nat :: b in e.changeFlags <==> if Leaves(m, flags, mask, b) then b in flags else b in m.changeFlags)
  }

  lemma EditedIs(m: Message, flags: Word, mask: Word)
    ensures EditIn(m, flags, mask, Edited(m, flags, mask))
    ensures EditedMask(m.flags, flags, mask) != {} <==> exists b: nat :: b in mask && Leaves(m, flags, mask, b)
  {
    var left := EditedMask(m.flags, flags, mask);
    assert forall b: nat :: b in left <==> Leaves(m, flags, mask, b);
    if left != {} {
      var b :| b in left;
      assert b in mask && Leaves(m, flags, mask, b);
    }
  }

  /** One message of the array is overwritten. */
  ghost predicate OneChanged(f: Folder, g: Folder, m: Message, e: Message) {
    && |g.messages| == |f.messages|
    && (forall i :: 0 <= i < |f.messages| ==>
          g.messages[i] == if f.messages[i].serial == m.serial then e else f.messages[i])
    && g.byUid == f.byUid && g.byHref == f.byHref && g.nextSerial == f.nextSerial
    && g.highArticle == f.highArticle && g.deletedCount == f.deletedCount
  }

  /** The queue, with the message in it once more exactly if it is to be queued and was not. */
  ghost predicate QueuedFor(f: Folder, g: Folder, serial: nat, queue: bool) {
    && (NoRepeats(f.changed) ==> NoRepeats(g.changed))
    && (forall s: nat :: s in g.changed <==> s in f.changed || (queue && s == serial))
    && f.changed <= g.changed
  }

  lemma EnqueueIs(q: seq<nat>, serial: nat)
    ensures var r := Enqueue(q, serial);
            && q <= r && (forall s: nat :: s in r <==> s in q || s == serial)
            && (NoRepeats(q) ==> NoRepeats(r))
  {
  }

  /** A flag edit, exactly; one of an unknown uid changes nothing. */
  lemma SetFlagsExact(f: Folder, uid: string, flags: Word, mask: Word)
    requires Indexed(f)
    ensures var g := SetFlags(f, uid, flags, mask);
            match Find(f, uid)
            case None => uid !in f.byUid && g == f
            case Some(m) =>
              && m in f.messages && m.uid == uid
              && EditIn(m, flags, mask, Edited(m, flags, mask)) && OneChanged(f, g, m, Edited(m, flags, mask))
              && QueuedFor(f, g, m.serial, exists b: nat :: b in mask && Leaves(m, flags, mask, b))
              && Find(g, uid) == Some(Edited(m, flags, mask))
  {
    hide Edited, Fetch, EditedMask, Enqueue, U32, Leaves, EditIn;
    FindNone(f, uid);
    match Find(f, uid)
    case None =>
    case Some(m) =>
      var e := Edited(m, flags, mask);
      EditedIs(m, flags, mask);
      EditedSame(m, flags, mask);
      EnqueueIs(f.changed, m.serial);
      FetchReplaced(f.messages, e, m.serial);
      FoundSerial(f, uid);
  }

  lemma FoundSerial(f: Folder, uid: string)
    requires Indexed(f) && Find(f, uid).Some?
    ensures f.byUid[uid] == Find(f, uid).value.serial
    ensures Fetch(f.messages, Find(f, uid).value.serial) == Find(f, uid)
  {
    FetchFrom(f.messages, f.byUid[uid]);
  }

  /** A tag edit, exactly: the value is stored under its name, or the name removed, and the message queued. */
  lemma SetTagExact(f: Folder, uid: string, name: string, value: Option<string>)
    requires Indexed(f)
    ensures var g := SetTag(f, uid, name, value);
            match Find(f, uid)
            case None => uid !in f.byUid && g == f
            case Some(m) =>
              exists e :: Find(g, uid) == Some(e) && Tagged(m, name, value, e) && OneChanged(f, g, m, e)
                          && QueuedFor(f, g, m.serial, true) && g.unread == f.unread
  {
    hide Fetch, Enqueue;
    FindNone(f, uid);
    match Find(f, uid)
    case None =>
    case Some(m) =>
      var e := m.(tags := if value.Some? then m.tags[name := value.value] else Without(m.tags, name));
      var g := SetTag(f, uid, name, value);
      EnqueueIs(f.changed, m.serial);
      FetchReplaced(f.messages, e, m.serial);
      FoundSerial(f, uid);
      assert Find(g, uid) == Some(e) && Tagged(m, name, value, e);
  }

  /** The message with that tag set or removed. */
  ghost predicate Tagged(m: Message, name: string, value: Option<string>, e: Message) {
    && e == m.(tags := e.tags)
    && (name in e.tags <==> value.Some?) && (value.Some? ==> e.tags[name] == value.value)
    && (forall n: string :: n != name ==> (n in e.tags <==> n in m.tags) && (n in e.tags ==> e.tags[n] == m.tags[n]))
  }
}
