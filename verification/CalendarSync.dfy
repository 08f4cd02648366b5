/**
 Calendar synchronisation.  An entry's modification time is the oldest it was given
 since it was created, so an object is found up to date exactly when nothing added to
 it is older than the server's copy; and a pass reports exactly the entries it was
 never asked about.
 */
module CalendarSync {
  import opened Basics
  import opened CalendarState

  // ---- modification times --------------------------------------------------

  /** The times given to each entry since it was created. */
  type Given = map<string, set<Time>>

  function GivenAt(given: Given, uid: string): set<Time> {
    if uid in given then given[uid] else {}
  }

  function Times(t: Option<Time>): set<Time> {
    if t.Some? then {t.value} else {}
  }

  /** The record of given times after one more event. */
  function Record(c: Cache, given: Given, e: Event): Given {
    match e
    case AddObject(_, lastmod, comp) =>
      if Accepts(c, comp) then given[comp.uid.value := GivenAt(given, comp.uid.value) + Times(lastmod)] else given
    case RemoveObject(uid) => Without(given, uid)
    case InCache(uid, newer, _, rid) =>
      if c.unseen.Some? && rid.None? && Stale(c, uid, newer) then Without(given, uid) else given
    case _ => given
  }

  function RunRecord(c: Cache, given: Given, events: seq<Event>): Given {
    if events == [] then given
    else
      var front := events[..|events| - 1];
      Record(Run(c, front), RunRecord(c, given, front), events[|events| - 1])
  }

  /** The least of a set of times, when there is one. */
  ghost predicate Least(t: Option<Time>, times: set<Time>) {
    if t.None? then times == {} else t.value in times && forall x <- times :: t.value <= x
  }

  ghost predicate Dated(c: Cache, given: Given) {
    given.Keys == c.objects.Keys && forall uid <- c.objects :: Least(c.objects[uid].lastmod, given[uid])
  }

  lemma OlderLeast(kept: Option<Time>, times: set<Time>, given: Option<Time>)
    requires Least(kept, times)
    ensures Least(Older(kept, given), times + Times(given))
  {
  }

  lemma StepDated(c: Cache, given: Given, e: Event)
    requires Dated(c, given)
    ensures Dated(Step(c, e), Record(c, given, e))
  {
    hide Least;
    match e
    case AddObject(href, lastmod, comp) =>
      if Accepts(c, comp) {
        var uid := comp.uid.value;
        assert Least(None, {}) by { NoTimes(); }
        OlderLeast(EntryOf(c, uid).lastmod, GivenAt(given, uid), lastmod);
        AddedTime(EntryOf(c, uid), href, lastmod, comp);
      }
    case ModifyObject(comp, all, discardDetached) =>
      if comp.uid.Some? && comp.uid.value in c.objects {
        ModifiedTime(c.objects[comp.uid.value], comp, all, discardDetached);
      }
    case _ =>
  }

  lemma NoTimes()
    ensures Least(None, {})
  {
  }

  lemma AddedTime(e: Entry, href: Option<string>, lastmod: Option<Time>, comp: Component)
    ensures AddTo(e, href, lastmod, comp).lastmod == Older(e.lastmod, lastmod)
  {
  }

  lemma ModifiedTime(e: Entry, comp: Component, all: bool, discardDetached: bool)
    ensures ModifyIn(e, comp, all, discardDetached).lastmod == e.lastmod
  {
  }

  lemma {:induction false} RunDated(c: Cache, given: Given, events: seq<Event>)
    requires Dated(c, given)
    ensures Dated(Run(c, events), RunRecord(c, given, events))
  {
    hide Dated, Step, Record;
    if events != [] {
      var front := events[..|events| - 1];
      RunDated(c, given, front);
      StepDated(Run(c, front), RunRecord(c, given, front), events[|events| - 1]);
    }
  }

  /**
   Over every run from an empty cache: an object asked for as a whole is found exactly
   when a pass is on, the object is there and no time it was given is older than the
   server's.
   */
  lemma UpToDateIff(events: seq<Event>, uid: string, newer: Time)
    ensures var c := Run(EMPTY, events);
            Found(c, uid, newer, None) <==>
            && c.unseen.Some? && uid in c.objects
            && forall t <- GivenAt(RunRecord(EMPTY, map[], events), uid) :: newer <= t
  {
    hide Run, RunRecord;
    RunDated(EMPTY, map[], events);
    var c, given := Run(EMPTY, events), RunRecord(EMPTY, map[], events);
    if uid in c.objects {
      assert Least(c.objects[uid].lastmod, given[uid]) && GivenAt(given, uid) == given[uid];
    }
  }

  // ---- a pass --------------------------------------------------------------

  /** The uids a run asked about. */
  function Asked(events: seq<Event>): set<string> {
    set i | 0 <= i < |events| && events[i].InCache? :: events[i].uid
  }

  predicate WithinPass(events: seq<Event>) {
    forall e <- events :: !e.SyncStart? && !e.SyncEnd?
  }

  lemma AskedMore(events: seq<Event>, e: Event)
    ensures Asked(events + [e]) == Asked(events) + if e.InCache? then {e.uid} else {}
  {
    var more := events + [e];
    forall uid
      ensures uid in Asked(more) <==> uid in Asked(events) || (e.InCache? && uid == e.uid)
    {
      if uid in Asked(events) {
        var i :| 0 <= i < |events| && events[i].InCache? && events[i].uid == uid;
        assert more[i] == events[i];
      }
      if e.InCache? && uid == e.uid { assert more[|events|] == e; }
    }
  }

  /** The entries still unseen are those never asked about, and none of them was removed. */
  ghost predicate PassState(c: Cache, events: seq<Event>, now: Cache) {
    && now.unseen == Some(c.objects.Keys - Asked(events))
    && now.unseen.value <= now.objects.Keys
    && forall uid <- now.unseen.value :: c.objects[uid].master.Some? ==> now.objects[uid].master.Some?
  }

  lemma PassStep(c: Cache, events: seq<Event>, now: Cache, e: Event)
    requires PassState(c, events, now) && Allowed(now, e) && !e.SyncStart? && !e.SyncEnd?
    ensures PassState(c, events + [e], Step(now, e))
  {
    hide Asked, Stale, AddTo, ModifyIn;
    AskedMore(events, e);
    assert !e.InCache? ==> Asked(events + [e]) == Asked(events);
    match e
    case AddObject(href, lastmod, comp) =>
      if comp.uid.Some? { AddedMaster(EntryOf(now, comp.uid.value), href, lastmod, comp); }
    case ModifyObject(comp, all, discardDetached) =>
      if comp.uid.Some? && comp.uid.value in now.objects {
        ModifiedMaster(now.objects[comp.uid.value], comp, all, discardDetached);
      }
    case RemoveObject(uid) =>
    case InCache(uid, newer, at, rid) => PassAsk(c, events, now, e);
    case _ =>
  }

  /** Asking about an uid takes it out of the unseen ones; the others keep their entries. */
  lemma PassAsk(c: Cache, events: seq<Event>, now: Cache, e: Event)
    requires PassState(c, events, now) && e.InCache?
    ensures PassState(c, events + [e], Step(now, e))
  {
    hide Asked, Stale;
    AskedMore(events, e);
    var next := Step(now, e);
    assert now.unseen.value - {e.uid} == c.objects.Keys - Asked(events + [e]);
    assert e.uid !in now.objects ==> now.unseen.value == now.unseen.value - {e.uid};
    assert next.unseen == Some(now.unseen.value - {e.uid});
    forall uid | uid in next.unseen.value
      ensures uid in next.objects && (c.objects[uid].master.Some? ==> next.objects[uid].master.Some?)
    {
      assert uid in now.unseen.value && uid != e.uid;
    }
  }

  lemma AddedMaster(e: Entry, href: Option<string>, lastmod: Option<Time>, comp: Component)
    ensures e.master.Some? ==> AddTo(e, href, lastmod, comp).master.Some?
  {
  }

  lemma ModifiedMaster(e: Entry, comp: Component, all: bool, discardDetached: bool)
    ensures e.master.Some? ==> ModifyIn(e, comp, all, discardDetached).master.Some?
  {
  }

  lemma {:induction false} PassRuns(c: Cache, events: seq<Event>)
    requires c.unseen.None? && WithinPass(events) && AllAllowed(Start(c), events)
    ensures PassState(c, events, Run(Start(c), events))
  {
    if events == [] {
      assert Asked([]) == {};
      assert c.objects.Keys - {} == c.objects.Keys;
    } else {
      hide PassState, Step, Allowed, Asked;
      var front, last := events[..|events| - 1], events[|events| - 1];
      assert events == front + [last];
      assert last in events && forall e <- front :: e in events;
      PassRuns(c, front);
      PassStep(c, front, Run(Start(c), front), last);
    }
  }

  /**
   A pass reports as removed exactly the entries there at its start that it never asked
   about and that have a master when it ends.
   */
  lemma PassReports(c: Cache, events: seq<Event>)
    requires c.unseen.None? && WithinPass(events) && AllAllowed(Start(c), events)
    ensures var now := Run(Start(c), events);
            && Reports(now) == (set uid | uid in c.objects && uid !in Asked(events) && EntryOf(now, uid).master.Some?)
            && forall uid <- c.objects :: uid !in Asked(events) ==> uid in now.objects
  {
    PassRuns(c, events);
  }

  /** Nothing was added to or modified in the entries never asked about. */
  predicate LeavesUnasked(events: seq<Event>) {
    forall e <- events :: && (e.AddObject? && e.comp.uid.Some? ==> e.comp.uid.value in Asked(events))
                          && (e.ModifyObject? && e.comp.uid.Some? ==> e.comp.uid.value in Asked(events))
  }

  /** What an event is about. */
  function Subject(e: Event): Option<string> {
    match e
    case AddObject(_, _, comp) => comp.uid
    case ModifyObject(comp, _, _) => comp.uid
    case RemoveObject(uid) => Some(uid)
    case InCache(uid, _, _, _) => Some(uid)
    case _ => None
  }

  lemma OthersSame(c: Cache, e: Event, uid: string)
    requires uid in c.objects && Subject(e) != Some(uid)
    ensures uid in Step(c, e).objects && Step(c, e).objects[uid] == c.objects[uid]
  {
    hide AddTo, ModifyIn, Stale;
  }

  lemma {:induction false} UnaskedSame(c: Cache, events: seq<Event>, asked: set<string>, uid: string)
    requires c.unseen.None? && WithinPass(events) && AllAllowed(Start(c), events)
    requires Asked(events) <= asked && uid in c.objects && uid !in asked
    requires forall e <- events :: && (e.AddObject? && e.comp.uid.Some? ==> e.comp.uid.value in asked)
                                   && (e.ModifyObject? && e.comp.uid.Some? ==> e.comp.uid.value in asked)
    ensures uid in Run(Start(c), events).objects && Run(Start(c), events).objects[uid] == c.objects[uid]
  {
    if events != [] {
      hide Step, PassState, Asked;
      var front, last := events[..|events| - 1], events[|events| - 1];
      assert events == front + [last];
      assert last in events && forall e <- front :: e in events;
      AskedMore(front, last);
      UnaskedSame(c, front, asked, uid);
      PassUnseen(c, front, uid);
      OthersSame(Run(Start(c), front), last, uid);
    }
  }

  lemma PassUnseen(c: Cache, events: seq<Event>, uid: string)
    requires c.unseen.None? && WithinPass(events) && AllAllowed(Start(c), events)
    requires uid in c.objects && uid !in Asked(events)
    ensures var now := Run(Start(c), events); now.unseen.Some? && uid in now.unseen.value
  {
    PassRuns(c, events);
  }

  /**
   When a pass touches only what it asked about, it reports exactly the entries that had
   a master at its start and were never asked about.  They stay in the cache, and the next
   pass that does not meet them reports them again.
   */
  lemma PassReportsMissing(c: Cache, events: seq<Event>, next: seq<Event>, uid: string)
    requires c.unseen.None? && WithinPass(events) && AllAllowed(Start(c), events) && LeavesUnasked(events)
    ensures var now := Run(Start(c), events);
            && (uid in Reports(now) <==> uid in c.objects && uid !in Asked(events) && c.objects[uid].master.Some?)
            && (uid in Reports(now) && WithinPass(next) && AllAllowed(Start(End(now)), next) && uid !in Asked(next) ==>
                  uid in Reports(Run(Start(End(now)), next)))
  {
    hide Asked, Run, AllAllowed, PassState;
    var now := Run(Start(c), events);
    PassReports(c, events);
    if uid in c.objects && uid !in Asked(events) { UnaskedSame(c, events, Asked(events), uid); }
    if uid in Reports(now) && WithinPass(next) && AllAllowed(Start(End(now)), next) && uid !in Asked(next) {
      PassReports(End(now), next);
      PassRuns(End(now), next);
      MasterStays(End(now), next, uid);
    }
  }

  lemma MasterStays(c: Cache, events: seq<Event>, uid: string)
    requires PassState(c, events, Run(Start(c), events))
    requires uid in c.objects && uid !in Asked(events) && c.objects[uid].master.Some?
    ensures EntryOf(Run(Start(c), events), uid).master.Some?
  {
  }

  // ---- times of a loaded file ----------------------------------------------

  /** The time a component of a file is added with: its own, or that of the last one before it with any. */
  function CarriedAt(comps: seq<Component>, stale: Time, i: nat): Time
    requires i < |comps|
  {
    if comps[i].stamp.Some? then comps[i].stamp.value
    else if i == 0 then stale else CarriedAt(comps, stale, i - 1)
  }

  /** Loading as a run of the cache: each component of the file is added, in order. */
  function LoadEvents(comps: seq<Component>, stale: Time): seq<Event> {
    seq(|comps|, i requires 0 <= i < |comps| => AddObject(None, Some(CarriedAt(comps, stale, i)), comps[i]))
  }

  lemma {:induction false} CarriedLater(comps: seq<Component>, stale: Time, i: nat)
    requires 0 < i < |comps|
    ensures CarriedAt(comps[1..], CarriedAt(comps, stale, 0), i - 1) == CarriedAt(comps, stale, i)
  {
    if i > 1 { CarriedLater(comps, stale, i - 1); }
  }

  lemma CarriedFront(comps: seq<Component>, stale: Time, i: nat)
    requires i + 1 < |comps|
    ensures CarriedAt(comps[..|comps| - 1], stale, i) == CarriedAt(comps, stale, i)
  {
    if i > 0 { CarriedFront(comps, stale, i - 1); }
  }

  lemma {:induction false} LoadLast(c: Cache, comps: seq<Component>, stale: Time)
    requires comps != []
    ensures var n := |comps| - 1;
            Load(c, comps, stale) == Add(Load(c, comps[..n], stale), None, Some(CarriedAt(comps, stale, n)), comps[n])
    decreases comps
  {
    hide Add;
    var n, stamp := |comps| - 1, CarriedAt(comps, stale, 0);
    var d := Add(c, None, Some(stamp), comps[0]);
    assert Load(c, comps, stale) == Load(d, comps[1..], stamp);
    if n == 0 {
      assert comps[1..] == [] && comps[..0] == [];
    } else {
      LoadLast(d, comps[1..], stamp);
      CarriedLater(comps, stale, n);
      assert comps[1..][..n - 1] == comps[..n][1..];
      assert comps[..n][0] == comps[0];
    }
  }

  /** Loading a file adds its components one by one, each with the time carried to it. */
  lemma {:induction false} LoadIsRun(c: Cache, comps: seq<Component>, stale: Time)
    ensures Load(c, comps, stale) == Run(c, LoadEvents(comps, stale))
    decreases |comps|
  {
    hide Add;
    if comps != [] {
      var n, events := |comps| - 1, LoadEvents(comps, stale);
      LoadLast(c, comps, stale);
      LoadIsRun(c, comps[..n], stale);
      forall i | 0 <= i < n
        ensures events[i] == LoadEvents(comps[..n], stale)[i]
      {
        CarriedFront(comps, stale, i);
      }
      assert events[..n] == LoadEvents(comps[..n], stale);
    }
  }
}
