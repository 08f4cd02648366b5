/** Short runs of a folder with one message, on which promises of the folder code fail. */
module SampleRuns {
  import opened Basics
  import opened MessageFlags
  import opened FolderState
  import opened FolderIndex
  import opened UnreadCounter
  import opened FolderRuns

  const SUMMARY := [Row("a", Some("/a"), {})]

  function Sample(flags: Word, changeFlags: Word, changeMask: Word): Message {
    Message("a", Some("/a"), 0, flags, changeFlags, changeMask, map[])
  }

  /** The folder of that one message. */
  function Sole(m: Message, high: nat, unread: nat, changed: seq<nat>): Folder {
    Folder([m], map["a" := 0], map["/a" := 0], 1, high, 0, unread, changed)
  }

  lemma SoleLoaded()
    ensures Load(SUMMARY, 0) == Sole(Sample({}, {}, {}), 0, 1, [])
    ensures DistinctUids(SUMMARY) && Good(Load(SUMMARY, 0), 0)
  {
    var f := Sole(Sample({}, {}, {}), 0, 1, []);
    assert SUMMARY[1..] == [];
    assert LoadRows(EMPTY, SUMMARY) == LoadRows(f, []);
    LoadGood(SUMMARY, 0);
  }

  lemma SoleFound(m: Message, high: nat, unread: nat, changed: seq<nat>)
    requires m.uid == "a" && m.serial == 0
    ensures Find(Sole(m, high, unread, changed), "a") == Some(m) && Fetch([m], 0) == Some(m)
    ensures forall m': Message :: m'.serial == 0 ==> Replace([m], m') == [m']
  {
  }

  lemma RunOfOne(f: Folder, e: Event)
    ensures Run(f, [e]) == Step(f, e)
  {
    hide Step;
    assert [e][1..] == [];
  }

  lemma RunOfTwo(f: Folder, a: Event, b: Event)
    ensures Run(f, [a, b]) == Step(Step(f, a), b)
  {
    hide Step;
    assert [a, b][1..] == [b];
    RunOfOne(Step(f, a), b);
  }

  lemma RunOfThree(f: Folder, a: Event, b: Event, c: Event)
    ensures Run(f, [a, b, c]) == Step(Step(Step(f, a), b), c)
  {
    hide Step;
    assert [a, b, c][1..] == [b, c];
    RunOfTwo(Step(f, a), b, c);
  }

  lemma {:induction false} NoTagsAdmissible(f: Folder, events: seq<Event>)
    requires forall e <- events :: !e.TagSet?
    ensures AdmissibleRun(f, events)
    decreases events
  {
    hide Step;
    if events != [] { NoTagsAdmissible(Step(f, events[0]), events[1..]); }
  }

  // ---- the unread counter --------------------------------------------------

  const READ := FlagsSet("a", {SEEN}, {SEEN})
  const UNREAD_ROW := Item(Some("a"), Some(5), "/a", {})

  lemma MarkedRead()
    ensures Step(Sole(Sample({}, {}, {}), 0, 1, []), READ) == Sole(Sample({SEEN}, {SEEN}, {SEEN}), 0, 0, [0])
  {
    var m := Sample({}, {}, {});
    SoleFound(m, 0, 1, []);
    assert EditedMask({}, {SEEN}, {SEEN}) == {SEEN} && MergedBits({}, {SEEN}, {SEEN}) == {SEEN};
    assert Edited(m, {SEEN}, {SEEN}) == Sample({SEEN}, {SEEN}, {SEEN});
  }

  lemma UnreadAgain()
    ensures Step(Sole(Sample({SEEN}, {SEEN}, {SEEN}), 0, 0, [0]), Refreshed([UNREAD_ROW], true))
            == Sole(Sample({}, {SEEN}, {SEEN}), 5, 1, [0])
  {
    var m, rows := Sample({SEEN}, {SEEN}, {SEEN}), [UNREAD_ROW];
    SoleFound(m, 0, 0, [0]);
    assert rows[1..] == [];
    assert FolderState.Usable(rows) == rows + FolderState.Usable([]);
    assert SortItems(rows) == InsertItem(UNREAD_ROW, SortItems([])) == rows;
    var f := Sole(m, 0, 0, [0]);
    assert RefreshItems(f, rows) == RefreshItems(RefreshItem(f, UNREAD_ROW), []);
    assert m.(flags := {}) == Sample({}, {SEEN}, {SEEN});
  }

  lemma ReadSent()
    ensures Step(Sole(Sample({}, {SEEN}, {SEEN}), 5, 1, [0]), FlagsSent([])) ==
            Sole(Sample({SEEN}, {SEEN}, {}), 5, 1, [])
  {
    var m := Sample({}, {SEEN}, {SEEN});
    var f := Sole(m, 5, 1, [0]);
    SoleFound(m, 5, 1, [0]);
    assert f.messages[0] in f.messages && AnyReadEdit(f);
    assert FlushedMask({SEEN}) == {} && Flushed(m) == Sample({SEEN}, {SEEN}, {});
    assert RemoveFastAt([0], 0) == [];
    assert FlushLoop(f, 0) == FlushLoop(Sole(Flushed(m), 5, 1, []), 0);
  }

  /**
   Marked read by the user, unread by the server, then flushed: the message is read, and the
   counter still counts it.
   */
  lemma ConflictMiscounts()
    ensures var events := [READ, Refreshed([UNREAD_ROW], true), FlagsSent([])];
            var g := Run(Load(SUMMARY, 0), events);
            AdmissibleRun(Load(SUMMARY, 0), events) && g.unread == 1 && Unseen(g.messages) == 0
  {
    hide Step, Run, LoadRows;
    var e, e', e'' := READ, Refreshed([UNREAD_ROW], true), FlagsSent([]);
    SoleLoaded();
    MarkedRead();
    UnreadAgain();
    ReadSent();
    RunOfThree(Load(SUMMARY, 0), e, e', e'');
    NoTagsAdmissible(Load(SUMMARY, 0), [e, e', e'']);
    assert [Sample({SEEN}, {SEEN}, {})][1..] == [];
    assert Unseen([Sample({SEEN}, {SEEN}, {})]) == Unseen([]);
  }

  const UNREAD := FlagsSet("a", {}, {SEEN})

  lemma UnreadDropped()
    ensures var f := Sole(Sample({}, {SEEN}, {SEEN}), 5, 1, [0]);
            Step(f, UNREAD) == f
  {
    var m := Sample({}, {SEEN}, {SEEN});
    SoleFound(m, 5, 1, [0]);
    assert EditedMask({}, {}, {SEEN}) == {} && MergedBits({SEEN}, {}, {}) == {SEEN};
    assert Edited(m, {}, {SEEN}) == m;
  }

  /**
   Marked read by the user, unread by the server, and then unread by the user: the last edit
   is dropped and the user still sees the message as read.
   */
  lemma LastEditDropped()
    ensures var g := Run(Load(SUMMARY, 0), [READ, Refreshed([UNREAD_ROW], true), UNREAD]);
            Find(g, "a").Some? && SEEN in Find(g, "a").value.Effective()
  {
    hide Step, Run, LoadRows;
    SoleLoaded();
    MarkedRead();
    UnreadAgain();
    UnreadDropped();
    RunOfThree(Load(SUMMARY, 0), READ, Refreshed([UNREAD_ROW], true), UNREAD);
    SoleFound(Sample({}, {SEEN}, {SEEN}), 5, 1, [0]);
  }

  // ---- what the user sees --------------------------------------------------

  const ANSWER := FlagsSet("a", {ANSWERED}, {ANSWERED})

  lemma MarkedAnswered()
    ensures Step(Sole(Sample({}, {}, {}), 0, 1, []), ANSWER) == Sole(Sample({}, {ANSWERED}, {ANSWERED}), 0, 1, [0])
  {
    var m := Sample({}, {}, {});
    SoleFound(m, 0, 1, []);
    assert EditedMask({}, {ANSWERED}, {ANSWERED}) == {ANSWERED} == MergedBits({}, {ANSWERED}, {ANSWERED});
    assert Edited(m, {ANSWERED}, {ANSWERED}) == Sample({}, {ANSWERED}, {ANSWERED});
  }

  lemma AnswerSent()
    ensures Step(Sole(Sample({}, {ANSWERED}, {ANSWERED}), 0, 1, [0]), FlagsSent([]))
            == Sole(Sample({}, {ANSWERED}, {}), 0, 1, [])
  {
    var m := Sample({}, {ANSWERED}, {ANSWERED});
    var f := Sole(m, 0, 1, [0]);
    SoleFound(m, 0, 1, [0]);
    assert FlushedMask({ANSWERED}) == {} && Flushed(m) == Sample({}, {ANSWERED}, {});
    assert RemoveFastAt([0], 0) == [];
    assert FlushLoop(f, 0) == FlushLoop(Sole(Flushed(m), 0, 1, []), 0);
    assert !AnyReadEdit(f) && !AnyDelete(FlushLoop(f, 0));
  }

  /** An answered mark shows until it has been sent, and is gone from the folder afterwards. */
  lemma SendingHidesAnswer()
    ensures var before, after := Run(Load(SUMMARY, 0), [ANSWER]), Run(Load(SUMMARY, 0), [ANSWER, FlagsSent([])]);
            && Find(before, "a").Some? && ANSWERED in Find(before, "a").value.Effective()
            && Find(after, "a").Some? && ANSWERED !in Find(after, "a").value.Effective()
  {
    hide Step, Run, LoadRows;
    SoleLoaded();
    MarkedAnswered();
    AnswerSent();
    RunOfOne(Load(SUMMARY, 0), ANSWER);
    RunOfTwo(Load(SUMMARY, 0), ANSWER, FlagsSent([]));
    SoleFound(Sample({}, {ANSWERED}, {ANSWERED}), 0, 1, [0]);
    SoleFound(Sample({}, {ANSWERED}, {}), 0, 1, []);
  }

  // ---- the queue -----------------------------------------------------------

  const DELETE := FlagsSet("a", {DELETED}, {DELETED})

  lemma MarkedDeleted()
    ensures Step(Sole(Sample({}, {}, {}), 0, 1, []), DELETE) == Sole(Sample({}, {DELETED}, {DELETED}), 0, 1, [0])
  {
    var m := Sample({}, {}, {});
    SoleFound(m, 0, 1, []);
    assert EditedMask({}, {DELETED}, {DELETED}) == {DELETED} == MergedBits({}, {DELETED}, {DELETED});
    assert Edited(m, {DELETED}, {DELETED}) == Sample({}, {DELETED}, {DELETED});
  }

  lemma DeletionRefused()
    ensures var f := Sole(Sample({}, {DELETED}, {DELETED}), 0, 1, [0]);
            Step(f, FlagsSent([])) == f.(changed := [])
  {
    var m := Sample({}, {DELETED}, {DELETED});
    var f := Sole(m, 0, 1, [0]);
    SoleFound(m, 0, 1, [0]);
    assert FlushedMask({DELETED}) == {DELETED} && Flushed(m) == m;
    assert FlushLoop(f, 0) == FlushLoop(f, 1) == f;
    assert !AnyReadEdit(f);
  }

  /** A deletion the server does not confirm is still marked, but no longer queued. */
  lemma RefusedDeletionForgotten()
    ensures var g := Run(Load(SUMMARY, 0), [DELETE, FlagsSent([])]);
            Find(g, "a").Some? && Find(g, "a").value.Pending() && g.changed == []
  {
    hide Step, Run, LoadRows;
    SoleLoaded();
    MarkedDeleted();
    DeletionRefused();
    RunOfTwo(Load(SUMMARY, 0), DELETE, FlagsSent([]));
    SoleFound(Sample({}, {DELETED}, {DELETED}), 0, 1, []);
  }

  const UNTAG := TagSet("a", "due-by", None)

  lemma TagRemoved()
    ensures var f := Sole(Sample({}, {}, {}), 0, 1, []);
            Step(f, UNTAG) == f.(changed := [0])
  {
    var m := Sample({}, {}, {});
    SoleFound(m, 0, 1, []);
    assert Without(m.tags, "due-by") == map[];
    assert m.(tags := map[]) == m;
  }

  lemma MessageVanished()
    ensures var g := Step(Sole(Sample({}, {}, {}), 0, 1, [0]), Vanished("/a"));
            g.messages == [] && g.changed == [0]
  {
    var m := Sample({}, {}, {});
    var f := Sole(m, 0, 1, [0]);
    SoleFound(m, 0, 1, [0]);
    assert FindByHref(f, "/a") == Some(m) && BinarySearch(f.messages, 0, 0, 0) == 0;
  }

  /**
   Removing a tag that is not there queues a message with nothing to send; when that
   message is removed, the queue still holds it.
   */
  lemma TagRemovalDangles()
    ensures var g := Run(Load(SUMMARY, 0), [UNTAG, Vanished("/a")]);
            g.messages == [] && g.changed == [0]
  {
    hide Step, Run, LoadRows;
    SoleLoaded();
    TagRemoved();
    MessageVanished();
    RunOfTwo(Load(SUMMARY, 0), UNTAG, Vanished("/a"));
  }
}
