/**
 Saving the calendar cache and loading it back, in whatever order the hash table writes
 the entries, preserves what every uid and recurrence id shows exactly when no master
 carries a recurrence id; what a whole object's reply becomes is told in CalendarReload.
 */
module CalendarRoundTrip {
  import opened Basics
  import opened CalendarState

  // ---- well-formed caches --------------------------------------------------

  /** Entries hold components of their own uid, at least one, and instances have a recurrence id. */
  ghost predicate EntryKept(e: Entry, uid: string) {
    && Parts(e) != []
    && (forall p <- Parts(e) :: p.uid == Some(uid))
    && (forall p <- e.instances :: p.rid.Some?)
  }

  ghost predicate Kept(c: Cache) {
    forall uid <- c.objects :: EntryKept(c.objects[uid], uid)
  }

  lemma AddKept(e: Entry, uid: string, href: Option<string>, lastmod: Option<Time>, comp: Component)
    requires EntryKept(e, uid) || e == NEW_ENTRY
    requires comp.uid == Some(uid)
    ensures EntryKept(AddTo(e, href, lastmod, comp), uid)
  {
    var f := AddTo(e, href, lastmod, comp);
    if comp.rid.None? {
      assert Parts(f)[0] == comp;
    } else if !HasInstance(e.instances, comp.rid.value) {
      assert f.instances[0] == comp && comp in Parts(f);
    }
    MasterIn(e);
    MasterIn(f);
  }

  lemma MasterIn(e: Entry)
    ensures e.master.Some? ==> e.master.value in Parts(e)
    ensures forall p :: p in Parts(e) <==> p in e.instances || e.master == Some(p)
  {
    if e.master.Some? { assert Parts(e)[0] == e.master.value; }
  }

  lemma ModifyKept(e: Entry, uid: string, comp: Component, all: bool, discardDetached: bool)
    requires EntryKept(e, uid) && comp.uid == Some(uid)
    ensures EntryKept(ModifyIn(e, comp, all, discardDetached), uid)
  {
    var f := ModifyIn(e, comp, all, discardDetached);
    MasterIn(e);
    MasterIn(f);
    assert f.master.Some? || comp in f.instances;
  }

  lemma StepKept(c: Cache, event: Event)
    requires Kept(c)
    ensures Kept(Step(c, event))
  {
    hide EntryKept, AddTo, ModifyIn;
    match event
    case AddObject(href, lastmod, comp) =>
      if Accepts(c, comp) { AddKept(EntryOf(c, comp.uid.value), comp.uid.value, href, lastmod, comp); }
    case ModifyObject(comp, all, discardDetached) =>
      if comp.uid.Some? && comp.uid.value in c.objects {
        ModifyKept(c.objects[comp.uid.value], comp.uid.value, comp, all, discardDetached);
      }
    case InCache(uid, newer, at, rid) =>
      if uid in c.objects { HrefKept(c.objects[uid], uid, at); }
    case _ =>
  }

  lemma HrefKept(e: Entry, uid: string, href: Option<string>)
    requires EntryKept(e, uid)
    ensures EntryKept(e.(href := href), uid)
  {
    assert Parts(e.(href := href)) == Parts(e);
  }

  lemma {:induction false} RunKept(c: Cache, events: seq<Event>)
    requires Kept(c)
    ensures Kept(Run(c, events))
  {
    hide Kept, Step;
    if events != [] {
      RunKept(c, events[..|events| - 1]);
      StepKept(Run(c, events[..|events| - 1]), events[|events| - 1]);
    }
  }

  // ---- what a file shows ---------------------------------------------------

  /** The components of one uid, in file order. */
  function Of(comps: seq<Component>, uid: string): seq<Component> {
    if comps == [] then []
    else (if comps[0].uid == Some(uid) then [comps[0]] else []) + Of(comps[1..], uid)
  }

  /** The first component without a recurrence id. */
  function FirstMaster(comps: seq<Component>): Option<Component> {
    if comps == [] then None
    else if comps[0].rid.None? then Some(comps[0])
    else FirstMaster(comps[1..])
  }

  /** What is shown, leaving open at which times a whole object still has occurrences. */
  function Sketch(shown: Option<Shown>): Option<Shown> {
    match shown
    case Some(Whole(master)) => Some(Whole(master.(occurrences := {})))
    case _ => shown
  }

  /** What an entry shows once the components have been added to it, told without adding them. */
  function ShownAfter(e: Entry, comps: seq<Component>, rid: Option<Time>): Option<Shown> {
    var master := if e.master.Some? then e.master else FirstMaster(comps);
    match rid
    case None => if master.Some? then Some(Whole(master.value)) else None
    case Some(r) =>
      if HasInstance(e.instances, r) then Some(Detached(e.instances[InstanceAt(e.instances, r)]))
      else if HasInstance(comps, r) then Some(Detached(comps[InstanceAt(comps, r)]))
      else if master.Some? && r in master.value.occurrences
      then Some(Occurrence(master.value.stamp, master.value.body, r))
      else None
  }

  lemma InstancePrepended(p: Component, instances: seq<Component>, r: Time)
    ensures InstanceAt([p] + instances, r) == if p.rid == Some(r) then 0 else 1 + InstanceAt(instances, r)
  {
    assert ([p] + instances)[1..] == instances;
  }

  /** One more component: adding it, or leaving it in the rest of the file. */
  lemma ShownStep(e: Entry, lastmod: Time, comps: seq<Component>, rid: Option<Time>)
    requires comps != []
    ensures var accepted := !(e.master.Some? && comps[0].rid.None?);
            Sketch(ShownAfter(if accepted then AddTo(e, None, Some(lastmod), comps[0]) else e, comps[1..], rid))
            == Sketch(ShownAfter(e, comps, rid))
  {
    assert comps == [comps[0]] + comps[1..];
    if rid.Some? {
      InstancePrepended(comps[0], e.instances, rid.value);
      InstancePrepended(comps[0], comps[1..], rid.value);
    }
  }

  /** Loading shows, for each uid, what the file's components of that uid say. */
  lemma {:induction false} LoadShows(c: Cache, comps: seq<Component>, stale: Time, uid: string, rid: Option<Time>)
    ensures Sketch(Visible(Load(c, comps, stale), uid, rid)) == Sketch(ShownAfter(EntryOf(c, uid), Of(comps, uid), rid))
    decreases comps
  {
    hide ShownAfter, AddTo;
    if comps == [] {
      ShownAlone(EntryOf(c, uid), rid);
    } else {
      var stamp := if comps[0].stamp.Some? then comps[0].stamp.value else stale;
      LoadShows(Add(c, None, Some(stamp), comps[0]), comps[1..], stamp, uid, rid);
      if comps[0].uid == Some(uid) {
        var mine := [comps[0]] + Of(comps[1..], uid);
        assert mine[1..] == Of(comps[1..], uid);
        ShownStep(EntryOf(c, uid), stamp, mine, rid);
      } else {
        assert [] + Of(comps[1..], uid) == Of(comps[1..], uid);
      }
    }
  }

  lemma ShownAlone(e: Entry, rid: Option<Time>)
    ensures ShownAfter(e, [], rid) == VisibleIn(e, rid)
  {
  }

  // ---- what the saved file holds -------------------------------------------

  lemma Associates(a: seq<Component>, b: seq<Component>, c: seq<Component>)
    ensures (a + b) + c == a + (b + c)
  {
  }

  lemma {:induction false} OfAppended(a: seq<Component>, b: seq<Component>, uid: string)
    ensures Of(a + b, uid) == Of(a, uid) + Of(b, uid)
  {
    if a == [] {
      assert a + b == b && Of([], uid) == [];
    } else {
      var first := if a[0].uid == Some(uid) then [a[0]] else [];
      assert (a + b)[0] == a[0] && (a + b)[1..] == a[1..] + b;
      OfAppended(a[1..], b, uid);
      Associates(first, Of(a[1..], uid), Of(b, uid));
    }
  }

  lemma {:induction false} OfSame(comps: seq<Component>, uid: string, other: string)
    requires forall p <- comps :: p.uid == Some(other)
    ensures Of(comps, uid) == if uid == other then comps else []
  {
    if comps != [] {
      OfSame(comps[1..], uid, other);
      assert comps == [comps[0]] + comps[1..];
    }
  }

  function PartsAt(c: Cache, uid: string): seq<Component> {
    if uid in c.objects then Parts(c.objects[uid]) else []
  }

  lemma SavedUnfold(c: Cache, order: seq<string>)
    requires order != []
    ensures Saved(c, order) == PartsAt(c, order[0]) + Saved(c, order[1..])
  {
  }

  lemma PartsOf(c: Cache, uid: string, other: string)
    requires Kept(c)
    ensures Of(PartsAt(c, other), uid) == if uid == other then PartsAt(c, uid) else []
  {
    hide Of, Parts;
    if other in c.objects {
      assert EntryKept(c.objects[other], other);
      OfSame(Parts(c.objects[other]), uid, other);
    } else {
      OfSame([], uid, other);
    }
  }

  /** The file holds each entry's parts, together and in their order. */
  lemma {:induction false} SavedParts(c: Cache, order: seq<string>, uid: string)
    requires Kept(c) && forall i, j :: 0 <= i < j < |order| ==> order[i] != order[j]
    ensures Of(Saved(c, order), uid) == if uid in order && uid in c.objects then Parts(c.objects[uid]) else []
  {
    hide Of, Parts, Kept;
    if order == [] {
      OfSame([], uid, uid);
    } else {
      SavedParts(c, order[1..], uid);
      SavedUnfold(c, order);
      OfAppended(PartsAt(c, order[0]), Saved(c, order[1..]), uid);
      PartsOf(c, uid, order[0]);
      assert order[0] !in order[1..] && (uid in order <==> uid == order[0] || uid in order[1..]);
      NothingMore(PartsAt(c, uid));
      NothingMore(Of(Saved(c, order[1..]), uid));
    }
  }

  lemma NothingMore(comps: seq<Component>)
    ensures comps + [] == comps && [] + comps == comps
  {
  }

  /** An entry and its own parts, written and read back, show the same. */
  lemma PartsShow(e: Entry, uid: string, rid: Option<Time>)
    requires EntryKept(e, uid) && (e.master.Some? ==> e.master.value.rid.None?)
    ensures Sketch(ShownAfter(NEW_ENTRY, Parts(e), rid)) == Sketch(VisibleIn(e, rid))
  {
    FirstMasterNone(e.instances);
    if e.master.Some? {
      assert Parts(e)[1..] == e.instances;
      assert Parts(e)[0] == e.master.value;
      if rid.Some? { InstancePrepended(e.master.value, e.instances, rid.value); }
    } else {
      assert Parts(e) == e.instances;
    }
  }

  lemma {:induction false} FirstMasterNone(comps: seq<Component>)
    requires forall p <- comps :: p.rid.Some?
    ensures FirstMaster(comps) == None
  {
    if comps != [] { FirstMasterNone(comps[1..]); }
  }

  // ---- the round trip ------------------------------------------------------

  ghost predicate SameSketch(c: Cache, d: Cache) {
    forall uid, rid :: Sketch(Visible(c, uid, rid)) == Sketch(Visible(d, uid, rid))
  }

  ghost predicate PlainMasters(c: Cache) {
    forall uid <- c.objects :: c.objects[uid].master.Some? ==> c.objects[uid].master.value.rid.None?
  }

  /** Every uid of the cache once. */
  ghost predicate Enumerates(order: seq<string>, c: Cache) {
    && (forall i, j :: 0 <= i < j < |order| ==> order[i] != order[j])
    && (forall uid :: uid in order <==> uid in c.objects)
  }

  lemma PlainEntryShows(c: Cache, order: seq<string>, stale: Time, uid: string, rid: Option<Time>)
    requires Kept(c) && Enumerates(order, c)
    requires var e := EntryOf(c, uid); e.master.Some? ==> e.master.value.rid.None?
    ensures Sketch(Visible(Load(EMPTY, Saved(c, order), stale), uid, rid)) == Sketch(Visible(c, uid, rid))
  {
    hide EntryKept, Visible, ShownAfter, Load, Saved, Sketch;
    SavedParts(c, order, uid);
    LoadShows(EMPTY, Saved(c, order), stale, uid, rid);
    ShownAlone(NEW_ENTRY, rid);
    if uid in c.objects { PartsShow(c.objects[uid], uid, rid); }
    VisibleEntry(c, uid, rid);
  }

  /**
   Saving and loading, exactly: every uid and recurrence id shows what it showed, up to the
   times at which a whole object has occurrences, if and only if no master carries a
   recurrence id.
   */
  lemma SaveLoadIff(c: Cache, order: seq<string>, stale: Time)
    requires Kept(c) && Enumerates(order, c)
    ensures SameSketch(Load(EMPTY, Saved(c, order), stale), c) <==> PlainMasters(c)
  {
    hide EntryKept, Visible, ShownAfter, Load, Saved, Sketch, Kept, Enumerates;
    var loaded := Load(EMPTY, Saved(c, order), stale);
    if PlainMasters(c) {
      forall uid, rid
        ensures Sketch(Visible(loaded, uid, rid)) == Sketch(Visible(c, uid, rid))
      {
        PlainEntryShows(c, order, stale, uid, rid);
      }
    } else {
      var uid :| uid in c.objects && c.objects[uid].master.Some? && c.objects[uid].master.value.rid.Some?;
      StrayEntryLost(c, order, stale, uid);
    }
  }

  lemma StrayEntryLost(c: Cache, order: seq<string>, stale: Time, uid: string)
    requires Kept(c) && Enumerates(order, c)
    requires uid in c.objects && c.objects[uid].master.Some? && c.objects[uid].master.value.rid.Some?
    ensures Visible(Load(EMPTY, Saved(c, order), stale), uid, None) == None && Visible(c, uid, None).Some?
    ensures Sketch(Visible(Load(EMPTY, Saved(c, order), stale), uid, None)) != Sketch(Visible(c, uid, None))
  {
    hide EntryKept, Visible, ShownAfter, Load, Saved;
    SavedParts(c, order, uid);
    LoadShows(EMPTY, Saved(c, order), stale, uid, None);
    StrayMasterLost(c.objects[uid], uid);
    VisibleEntry(c, uid, None);
  }

  lemma VisibleEntry(c: Cache, uid: string, rid: Option<Time>)
    ensures Visible(c, uid, rid) == VisibleIn(EntryOf(c, uid), rid)
  {
  }

  /** A master that carries a recurrence id comes back as a detached instance. */
  lemma StrayMasterLost(e: Entry, uid: string)
    requires EntryKept(e, uid) && e.master.Some? && e.master.value.rid.Some?
    ensures ShownAfter(NEW_ENTRY, Parts(e), None) == None && VisibleIn(e, None).Some?
  {
    assert Parts(e)[0] == e.master.value && Parts(e)[1..] == e.instances;
    FirstMasterNone(e.instances);
    FirstMasterNone(Parts(e));
  }

  /** Where such masters come from: only from modifying a whole object with an occurrence of it. */
  lemma StrayMasterSource(c: Cache, event: Event)
    requires PlainMasters(c) && !PlainMasters(Step(c, event))
    ensures event.ModifyObject? && event.comp.rid.Some? && (event.all || event.discardDetached)
  {
  }

  lemma {:induction false} RunPlain(c: Cache, events: seq<Event>)
    requires PlainMasters(c)
    requires forall e <- events :: e.ModifyObject? && e.comp.rid.Some? ==> !e.all && !e.discardDetached
    ensures PlainMasters(Run(c, events))
  {
    hide PlainMasters, Step;
    if events != [] {
      var front, last := events[..|events| - 1], events[|events| - 1];
      assert last in events;
      RunPlain(c, front);
      if !PlainMasters(Step(Run(c, front), last)) { StrayMasterSource(Run(c, front), last); }
    }
  }

  /** Whatever happened before, short of such a modification, a restart loses nothing. */
  lemma RoundTripOverRuns(events: seq<Event>, order: seq<string>, stale: Time)
    requires Enumerates(order, Run(EMPTY, events))
    requires forall e <- events :: e.ModifyObject? && e.comp.rid.Some? ==> !e.all && !e.discardDetached
    ensures var c := Run(EMPTY, events); SameSketch(Load(EMPTY, Saved(c, order), stale), c)
  {
    hide Run, Load, Saved, SameSketch;
    RunKept(EMPTY, events);
    RunPlain(EMPTY, events);
    SaveLoadIff(Run(EMPTY, events), order, stale);
  }
}
