/**
 What a run of the flusher posts: for every queued message exactly the property updates and
 read marks that its pending edits ask for, and for no other message any.
 */
module FlushPosts {
  import opened Basics
  import opened MessageFlags
  import opened FolderState
  import opened FolderIndex
  import opened PendingQueue
  import opened EditEffects

  /** The message's pending edits ask for that property update. */
  predicate Asks(m: Message, r: Request) {
    match r
    case Answered(href, replied, toAll) =>
      && ANSWERED in m.changeMask && m.href == href
      && (replied <==> ANSWERED in m.changeFlags) && (toAll <==> ANSWERED_ALL in m.changeFlags)
    case Importance(href, high) => FLAGGED in m.changeMask && m.href == href && (high <==> FLAGGED in m.changeFlags)
    case FollowUp(href, tags) => m.tags != map[] && m.href == href && m.tags == tags
  }

  /** The message is to be marked read, or unread, at that href. */
  predicate AsksMark(m: Message, seen: bool, href: Option<string>) {
    SEEN in m.changeMask && (seen <==> SEEN in m.changeFlags) && m.href == href
  }

  // ---- one message ---------------------------------------------------------

  /** A message is posted each update it asks for once, and no other. */
  lemma RequestsOf(m: Message, r: Request)
    ensures multiset(Requests(m))[r] == if Asks(m, r) then 1 else 0
  {
  }

  lemma CountConcat<T>(a: seq<T>, b: seq<T>, x: T)
    ensures multiset(a + b)[x] == multiset(a)[x] + multiset(b)[x]
  {
  }

  // ---- the whole log -------------------------------------------------------

  ghost predicate OnceEach(log: seq<Message>) {
    forall i, j :: 0 <= i < j < |log| ==> log[i] != log[j]
  }

  ghost function Asking(log: seq<Message>, r: Request): set<Message> {
    set m <- log | Asks(m, r)
  }

  ghost function Marking(log: seq<Message>, seen: bool, href: Option<string>): set<Message> {
    set m <- log | AsksMark(m, seen, href)
  }

  lemma HeadApart(log: seq<Message>)
    requires OnceEach(log) && log != []
    ensures OnceEach(log[1..]) && log[0] !in log[1..] && forall m :: m in log <==> m == log[0] || m in log[1..]
  {
  }

  lemma OneMore<T>(s: set<T>, rest: set<T>, x: T, there: bool)
    requires x !in rest && forall y :: y in s <==> y in rest || (there && y == x)
    ensures |s| == |rest| + if there then 1 else 0
  {
    assert s == if there then rest + {x} else rest;
  }

  lemma AskingSplit(log: seq<Message>, r: Request)
    requires OnceEach(log) && log != []
    ensures |Asking(log, r)| == |Asking(log[1..], r)| + if Asks(log[0], r) then 1 else 0
  {
    hide Asks, OnceEach;
    HeadApart(log);
    OneMore(Asking(log, r), Asking(log[1..], r), log[0], Asks(log[0], r));
  }

  lemma MarkingSplit(log: seq<Message>, seen: bool, href: Option<string>)
    requires OnceEach(log) && log != []
    ensures |Marking(log, seen, href)| ==
            |Marking(log[1..], seen, href)| + if AsksMark(log[0], seen, href) then 1 else 0
  {
    hide AsksMark, OnceEach;
    HeadApart(log);
    OneMore(Marking(log, seen, href), Marking(log[1..], seen, href), log[0], AsksMark(log[0], seen, href));
  }

  /** The mark a visited message adds. */
  function MarkOf(m: Message, seen: bool): seq<Option<string>> {
    if SEEN in m.changeMask && (SEEN in m.changeFlags) == seen then [m.href] else []
  }

  lemma MarkOfCount(m: Message, seen: bool, href: Option<string>)
    ensures multiset(MarkOf(m, seen))[href] == if AsksMark(m, seen, href) then 1 else 0
  {
  }

  lemma LogUnfold(log: seq<Message>, seen: bool)
    requires log != []
    ensures AllRequests(log) == Requests(log[0]) + AllRequests(log[1..])
    ensures ReadMarks(log, seen) == MarkOf(log[0], seen) + ReadMarks(log[1..], seen)
  {
    hide Requests;
  }

  lemma {:induction false} LogRequests(log: seq<Message>, r: Request)
    requires OnceEach(log)
    ensures multiset(AllRequests(log))[r] == |Asking(log, r)|
  {
    if log == [] {
      assert Asking(log, r) == {};
    } else {
      hide Asks, Requests, OnceEach, AllRequests, ReadMarks, Asking;
      HeadApart(log);
      LogRequests(log[1..], r);
      RequestsOf(log[0], r);
      LogUnfold(log, true);
      CountConcat(Requests(log[0]), AllRequests(log[1..]), r);
      AskingSplit(log, r);
    }
  }

  lemma {:induction false} LogMarks(log: seq<Message>, seen: bool, href: Option<string>)
    requires OnceEach(log)
    ensures multiset(ReadMarks(log, seen))[href] == |Marking(log, seen, href)|
  {
    if log == [] {
      assert Marking(log, seen, href) == {};
    } else {
      hide AsksMark, MarkOf, OnceEach, AllRequests, ReadMarks, Marking;
      HeadApart(log);
      LogMarks(log[1..], seen, href);
      MarkOfCount(log[0], seen, href);
      LogUnfold(log, seen);
      CountConcat(MarkOf(log[0], seen), ReadMarks(log[1..], seen), href);
      MarkingSplit(log, seen, href);
    }
  }

  lemma VisitedOnce(f: Folder)
    requires Flushable(f)
    ensures OnceEach(FlushLog(f, 0))
  {
    hide FlushLog, Fetch, Flushable;
    FlushVisitsOnce(f, 0);
    FlushableNoRepeats(f);
    assert f.changed[0..] == f.changed;
    NoRepeatsCounted(f.changed);
    var log := FlushLog(f, 0);
    forall i, j | 0 <= i < j < |log|
      ensures log[i] != log[j]
    {
      if log[i] == log[j] { SerialTwice(log, i, j); }
    }
  }

  lemma {:induction false} NoRepeatsCounted(q: seq<nat>)
    requires NoRepeats(q)
    ensures forall s :: multiset(q)[s] <= 1
  {
    if q != [] {
      assert q == [q[0]] + q[1..];
      NoRepeatsCounted(q[1..]);
      assert q[0] !in q[1..];
    }
  }

  lemma SerialTwice(log: seq<Message>, i: nat, j: nat)
    requires i < j < |log| && log[i] == log[j]
    ensures multiset(LogSerials(log))[log[i].serial] >= 2
  {
    var q := LogSerials(log);
    assert q == q[..i] + [q[i]] + q[i + 1..j] + [q[j]] + q[j + 1..];
  }

  /** The queued messages that ask for the update. */
  ghost function QueuedAsking(f: Folder, r: Request): set<Message> {
    set m <- f.messages | m.serial in f.changed && Asks(m, r)
  }

  ghost function QueuedMarking(f: Folder, seen: bool, href: Option<string>): set<Message> {
    set m <- f.messages | m.serial in f.changed && AsksMark(m, seen, href)
  }

  /**
   A run of the flusher posts every property update as many times as there are queued messages
   whose pending edits ask for it: the answered mark with both its values, the importance and
   the tags, at the message's href.
   */
  lemma RequestsPosted(f: Folder, r: Request)
    requires Flushable(f)
    ensures multiset(AllRequests(FlushLog(f, 0)))[r] == |QueuedAsking(f, r)|
    ensures r in AllRequests(FlushLog(f, 0)) <==> exists m <- f.messages :: m.serial in f.changed && Asks(m, r)
  {
    hide FlushLog, AllRequests, Asks, Flushable, OnceEach;
    var log := FlushLog(f, 0);
    VisitedOnce(f);
    FlushLogMembers(f);
    LogRequests(log, r);
    assert Asking(log, r) == QueuedAsking(f, r);
    NonemptyCounted(QueuedAsking(f, r));
    assert r in AllRequests(log) <==> multiset(AllRequests(log))[r] > 0;
    if m :| m in f.messages && m.serial in f.changed && Asks(m, r) { assert m in QueuedAsking(f, r); }
  }

  lemma NonemptyCounted<T>(s: set<T>)
    ensures |s| > 0 <==> exists x :: x in s
  {
    if |s| > 0 { assert s != {}; }
  }

  /** Each way, an href is to be marked as many times as queued messages there have such an edit. */
  lemma MarksPosted(f: Folder, seen: bool, href: Option<string>)
    requires Flushable(f)
    ensures multiset(ReadMarks(FlushLog(f, 0), seen))[href] == |QueuedMarking(f, seen, href)|
    ensures href in ReadMarks(FlushLog(f, 0), seen) <==>
              exists m <- f.messages :: m.serial in f.changed && AsksMark(m, seen, href)
  {
    hide FlushLog, ReadMarks, AsksMark, Flushable, OnceEach;
    var log := FlushLog(f, 0);
    VisitedOnce(f);
    FlushLogMembers(f);
    LogMarks(log, seen, href);
    assert Marking(log, seen, href) == QueuedMarking(f, seen, href);
    NonemptyCounted(QueuedMarking(f, seen, href));
    assert href in ReadMarks(log, seen) <==> multiset(ReadMarks(log, seen))[href] > 0;
    if m :| m in f.messages && m.serial in f.changed && AsksMark(m, seen, href) {
      assert m in QueuedMarking(f, seen, href);
    }
  }

  // ---- what sending clears -------------------------------------------------

  /**
   Sending clears the pending bits that were posted and the tags, leaves every other pending
   bit, stores the read state that was sent, and changes nothing else.
   */
  lemma FlushedExact(m: Message)
    ensures var s := Flushed(m);
            && s.uid == m.uid && s.href == m.href && s.serial == m.serial && s.changeFlags == m.changeFlags
            && s.tags == map[]
            && (forall b: nat :: b in s.flags <==> if b == SEEN && SEEN in m.changeMask then SEEN in m.changeFlags
                                                   else b in m.flags)
            && (forall b: nat :: b in s.changeMask <==>
                  && b in m.changeMask && b != SEEN && b != ANSWERED && b != FLAGGED
                  && (b == ANSWERED_ALL ==> ANSWERED !in m.changeMask))
    ensures forall r :: !Asks(Flushed(m), r)
    ensures forall seen, href :: !AsksMark(Flushed(m), seen, href)
  {
  }

  // ---- from the edit to the server -----------------------------------------

  lemma EditedFlushable(f: Folder, g: Folder, m: Message, e: Message, queue: bool)
    requires Indexed(f) && Flushable(f) && m in f.messages && e.serial == m.serial
    requires OneChanged(f, g, m, e) && QueuedFor(f, g, m.serial, queue)
    ensures Flushable(g) && e in g.messages
  {
    hide Fetch;
    assert g.messages == Replace(f.messages, e);
    FetchMember(f.messages, m);
    ReplacedDistinct(f.messages, e);
    forall s: nat | s in g.changed
      ensures Fetch(g.messages, s).Some?
    {
      FetchReplaced(f.messages, e, s);
    }
    var i :| 0 <= i < |f.messages| && f.messages[i] == m;
    assert g.messages[i] == e;
  }

  /**
   What the user asks for is what is posted next: importance and answered marks go out with the
   value asked for, and a change of the read state as a mark in the direction asked for.
   */
  lemma EditPosted(f: Folder, uid: string, flags: Word, mask: Word)
    requires Indexed(f) && Flushable(f) && Find(f, uid).Some?
    ensures var m := Find(f, uid).value;
            var log := FlushLog(SetFlags(f, uid, flags, mask), 0);
            && (FLAGGED in mask ==> Importance(m.href, FLAGGED in flags) in AllRequests(log))
            && ({ANSWERED, ANSWERED_ALL} <= mask ==>
                  Answered(m.href, ANSWERED in flags, ANSWERED_ALL in flags) in AllRequests(log))
            && (SEEN in mask && (SEEN in flags) != (SEEN in m.flags) ==> m.href in ReadMarks(log, SEEN in flags))
  {
    hide Indexed, Flushable, SetFlags, Find, Edited, FlushLog, AllRequests, ReadMarks, OneChanged, QueuedFor;
    var m := Find(f, uid).value;
    var e, g := Edited(m, flags, mask), SetFlags(f, uid, flags, mask);
    SetFlagsExact(f, uid, flags, mask);
    EditedFlushable(f, g, m, e, exists b: nat :: b in mask && Leaves(m, flags, mask, b));
    QueuedIn(f, g, m.serial, exists b: nat :: b in mask && Leaves(m, flags, mask, b));
    if FLAGGED in mask {
      assert Leaves(m, flags, mask, FLAGGED);
      RequestsPosted(g, Importance(m.href, FLAGGED in flags));
      assert Asks(e, Importance(m.href, FLAGGED in flags));
    }
    if {ANSWERED, ANSWERED_ALL} <= mask {
      assert Leaves(m, flags, mask, ANSWERED) && Leaves(m, flags, mask, ANSWERED_ALL);
      RequestsPosted(g, Answered(m.href, ANSWERED in flags, ANSWERED_ALL in flags));
      assert Asks(e, Answered(m.href, ANSWERED in flags, ANSWERED_ALL in flags));
    }
    if SEEN in mask && (SEEN in flags) != (SEEN in m.flags) {
      assert Leaves(m, flags, mask, SEEN);
      MarksPosted(g, SEEN in flags, m.href);
      assert AsksMark(e, SEEN in flags, m.href);
    }
  }

  lemma QueuedIn(f: Folder, g: Folder, serial: nat, queue: bool)
    requires QueuedFor(f, g, serial, queue)
    ensures queue ==> serial in g.changed
  {
  }

  /** A tag set by the user goes out next, with the message's other tags. */
  lemma TagPosted(f: Folder, uid: string, name: string, value: string)
    requires Indexed(f) && Flushable(f) && Find(f, uid).Some?
    ensures var m := Find(f, uid).value;
            FollowUp(m.href, m.tags[name := value]) in AllRequests(FlushLog(SetTag(f, uid, name, Some(value)), 0))
  {
    hide Indexed, Flushable, SetTag, Find, FlushLog, AllRequests, OneChanged, QueuedFor;
    var m, g := Find(f, uid).value, SetTag(f, uid, name, Some(value));
    SetTagExact(f, uid, name, Some(value));
    FindNone(f, uid);
    var e :| Find(g, uid) == Some(e) && Tagged(m, name, Some(value), e) && OneChanged(f, g, m, e)
             && QueuedFor(f, g, m.serial, true);
    EditedFlushable(f, g, m, e, true);
    QueuedIn(f, g, m.serial, true);
    assert e.tags == m.tags[name := value];
    RequestsPosted(g, FollowUp(m.href, m.tags[name := value]));
    assert Asks(e, FollowUp(m.href, m.tags[name := value]));
  }
}
