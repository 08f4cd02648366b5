/**
 What a client that asks for a whole object is answered after the calendar cache has been
 saved and loaded: the master without the occurrences at its detached instances, and the
 instances in reverse order, each recurrence id once.
 */
module CalendarReload {
  import opened Basics
  import opened CalendarState
  import opened CalendarRoundTrip

  // ---- adding a list of components to one entry -----------------------------

  /** A second master is left out. */
  function AddAll(e: Entry, comps: seq<Component>): Entry
    decreases comps
  {
    if comps == [] then e
    else if e.master.Some? && comps[0].rid.None? then AddAll(e, comps[1..])
    else AddAll(AddTo(e, None, None, comps[0]), comps[1..])
  }

  predicate SameContents(e: Entry, f: Entry) {
    e.master == f.master && e.instances == f.instances
  }

  lemma {:induction false} AddAllSame(e: Entry, f: Entry, comps: seq<Component>)
    requires SameContents(e, f)
    ensures SameContents(AddAll(e, comps), AddAll(f, comps))
    decreases comps
  {
    if comps != [] {
      if e.master.Some? && comps[0].rid.None? {
        AddAllSame(e, f, comps[1..]);
      } else {
        AddAllSame(AddTo(e, None, None, comps[0]), AddTo(f, None, None, comps[0]), comps[1..]);
      }
    }
  }

  /** Loading adds to each entry the file's components of its uid. */
  lemma {:induction false} LoadAdds(c: Cache, comps: seq<Component>, stale: Time, uid: string)
    ensures SameContents(EntryOf(Load(c, comps, stale), uid), AddAll(EntryOf(c, uid), Of(comps, uid)))
    decreases comps
  {
    hide AddTo;
    if comps != [] {
      var stamp := if comps[0].stamp.Some? then comps[0].stamp.value else stale;
      var d := Add(c, None, Some(stamp), comps[0]);
      LoadAdds(d, comps[1..], stamp, uid);
      if comps[0].uid == Some(uid) {
        var mine, e := [comps[0]] + Of(comps[1..], uid), EntryOf(c, uid);
        assert mine[1..] == Of(comps[1..], uid);
        SameTimes(e, Some(stamp), comps[0]);
        var f := if Accepts(c, comps[0]) then AddTo(e, None, None, comps[0]) else e;
        AddAllSame(EntryOf(d, uid), f, Of(comps[1..], uid));
      } else {
        assert [] + Of(comps[1..], uid) == Of(comps[1..], uid);
      }
    }
  }

  lemma SameTimes(e: Entry, lastmod: Option<Time>, comp: Component)
    ensures SameContents(AddTo(e, None, lastmod, comp), AddTo(e, None, None, comp))
  {
  }

  // ---- detached instances --------------------------------------------------

  function Rids(comps: seq<Component>): set<Time> {
    set p <- comps | p.rid.Some? :: p.rid.value
  }

  /** The components at other times. */
  function Outside(comps: seq<Component>, rids: set<Time>): (r: seq<Component>)
    ensures |r| <= |comps| && forall p <- r :: p in comps
  {
    if comps == [] then []
    else (if comps[0].rid.Some? && comps[0].rid.value in rids then [] else [comps[0]]) + Outside(comps[1..], rids)
  }

  /** In reverse order the first component of each recurrence id. */
  function Relisted(comps: seq<Component>): seq<Component>
    requires forall p <- comps :: p.rid.Some?
    decreases |comps|
  {
    if comps == [] then []
    else
      assert comps[0] in comps;
      Relisted(Outside(comps[1..], {comps[0].rid.value})) + [comps[0]]
  }

  function CutAll(master: Option<Component>, rids: set<Time>): Option<Component> {
    match master
    case None => None
    case Some(m) => Some(m.(occurrences := m.occurrences - rids))
  }

  lemma OutsideUnfold(p: Component, comps: seq<Component>, rids: set<Time>)
    ensures Outside([p] + comps, rids) == if p.rid.Some? && p.rid.value in rids then Outside(comps, rids)
                                          else [p] + Outside(comps, rids)
  {
    assert ([p] + comps)[1..] == comps;
    assert [] + Outside(comps, rids) == Outside(comps, rids);
  }

  lemma {:induction false} OutsideTwice(comps: seq<Component>, a: set<Time>, b: set<Time>)
    ensures Outside(Outside(comps, a), b) == Outside(comps, b + a)
  {
    if comps != [] {
      hide Outside;
      OutsideTwice(comps[1..], a, b);
      assert comps == [comps[0]] + comps[1..];
      OutsideUnfold(comps[0], comps[1..], a);
      OutsideUnfold(comps[0], comps[1..], b + a);
      OutsideUnfold(comps[0], Outside(comps[1..], a), b);
    }
  }

  lemma {:induction false} OutsideNone(comps: seq<Component>)
    ensures Outside(comps, {}) == comps
  {
    if comps != [] {
      OutsideNone(comps[1..]);
      assert comps == [comps[0]] + comps[1..];
    }
  }

  lemma RidsSplit(p: Component, comps: seq<Component>)
    requires p.rid.Some?
    ensures Rids([p] + comps) == {p.rid.value} + Rids(comps)
  {
    assert forall x :: x in [p] + comps <==> x == p || x in comps;
  }

  lemma {:induction false} HasInstanceIff(instances: seq<Component>, rid: Time)
    ensures HasInstance(instances, rid) <==> rid in Rids(instances)
  {
    if instances != [] {
      HasInstanceIff(instances[1..], rid);
      assert forall x :: x in instances <==> x == instances[0] || x in instances[1..];
    }
  }

  /** One instance more, in front: the steps of the list and of the master. */
  lemma AddedInstance(e: Entry, comps: seq<Component>)
    requires comps != [] && forall p <- comps :: p.rid.Some?
    ensures var known := Rids(e.instances);
            var r := (assert comps[0] in comps; comps[0].rid.value);
            var f := AddTo(e, None, None, comps[0]);
            && AddAll(e, comps) == AddAll(f, comps[1..])
            && (r in known ==> f == e && Rids(comps) - known == Rids(comps[1..]) - known
                               && Outside(comps, known) == Outside(comps[1..], known))
            && (r !in known ==>
                  && f == e.(instances := [comps[0]] + e.instances, master := Cut(e.master, r))
                  && Rids(f.instances) == {r} + known
                  && Outside(comps, known) == [comps[0]] + Outside(comps[1..], known)
                  && Outside(comps[1..], {r} + known) == Outside(Outside(comps[1..], known), {r}))
  {
    var r := (assert comps[0] in comps; comps[0].rid.value);
    assert comps == [comps[0]] + comps[1..];
    RidsSplit(comps[0], comps[1..]);
    RidsSplit(comps[0], e.instances);
    HasInstanceIff(e.instances, r);
    OutsideTwice(comps[1..], Rids(e.instances), {r});
    assert [] + Outside(comps[1..], Rids(e.instances)) == Outside(comps[1..], Rids(e.instances));
  }

  lemma CutTwice(master: Option<Component>, r: Time, rids: set<Time>)
    ensures CutAll(Cut(master, r), rids) == CutAll(master, {r} + rids)
  {
    if master.Some? {
      var o := master.value.occurrences;
      assert (o - {r}) - rids == o - ({r} + rids);
    }
  }

  lemma RelistedUnfold(p: Component, comps: seq<Component>)
    requires p.rid.Some? && forall q <- comps :: q.rid.Some?
    ensures Relisted([p] + comps) == Relisted(Outside(comps, {p.rid.value})) + [p]
  {
    assert ([p] + comps)[1..] == comps;
  }

  lemma Regroup(a: seq<Component>, p: Component, b: seq<Component>)
    ensures a + ([p] + b) == (a + [p]) + b
  {
  }

  /** Detached instances added one by one: all but the shadowed ones, in reverse order. */
  lemma {:induction false} AddAllInstances(e: Entry, comps: seq<Component>)
    requires forall p <- comps :: p.rid.Some?
    ensures var known := Rids(e.instances);
            var f := AddAll(e, comps);
            && f.instances == Relisted(Outside(comps, known)) + e.instances
            && f.master == CutAll(e.master, Rids(comps) - known)
    decreases |comps|
  {
    hide AddTo, Outside, Relisted, Rids, AddAll, Cut, CutAll;
    var known := Rids(e.instances);
    if comps == [] {
      NothingAdded(e);
    } else {
      var r := (assert comps[0] in comps; comps[0].rid.value);
      var f := AddTo(e, None, None, comps[0]);
      AddedInstance(e, comps);
      AddAllInstances(f, comps[1..]);
      if r !in known {
        var newer := Outside(comps[1..], known);
        RelistedUnfold(comps[0], newer);
        Regroup(Relisted(Outside(newer, {r})), comps[0], e.instances);
        CutTwice(e.master, r, Rids(comps[1..]) - ({r} + known));
        RidsSplit(comps[0], comps[1..]);
        assert comps == [comps[0]] + comps[1..];
        assert Rids(comps) - known == {r} + (Rids(comps[1..]) - ({r} + known));
      }
    }
  }

  lemma NothingAdded(e: Entry)
    ensures AddAll(e, []) == e && Relisted(Outside([], Rids(e.instances))) + e.instances == e.instances
    ensures CutAll(e.master, Rids([]) - Rids(e.instances)) == e.master
  {
    assert Rids([]) - Rids(e.instances) == {};
    CutNothing(e.master);
  }

  lemma CutNothing(master: Option<Component>)
    ensures CutAll(master, {}) == master
  {
    if master.Some? { assert master.value.occurrences - {} == master.value.occurrences; }
  }

  // ---- one entry written and read back -------------------------------------

  predicate PlainMaster(e: Entry) {
    e.master.Some? && e.master.value.rid.None?
  }

  lemma PartsAdded(e: Entry, uid: string)
    requires EntryKept(e, uid) && PlainMaster(e)
    ensures var f := AddAll(NEW_ENTRY, Parts(e));
            f.master == CutAll(e.master, Rids(e.instances)) && f.instances == Relisted(e.instances)
  {
    hide Outside, Relisted, Rids, AddAll, CutAll;
    var first := NEW_ENTRY.(master := e.master);
    assert Parts(e) == [e.master.value] + e.instances;
    AddAllUnfold(e.master.value, e.instances);
    AddAllInstances(first, e.instances);
    assert Rids([]) == {} by { NoRids(); }
    OutsideNone(e.instances);
    assert Relisted(e.instances) + [] == Relisted(e.instances);
    assert Rids(e.instances) - {} == Rids(e.instances);
  }

  lemma NoRids()
    ensures Rids([]) == {}
  {
  }

  lemma AddAllUnfold(m: Component, rest: seq<Component>)
    requires m.rid.None?
    ensures AddAll(NEW_ENTRY, [m] + rest) == AddAll(NEW_ENTRY.(master := Some(m)), rest)
  {
    assert ([m] + rest)[1..] == rest;
  }

  /** What a client is told about the whole object of an entry that has been saved and loaded. */
  function Told(e: Entry): Reply
    requires forall p <- e.instances :: p.rid.Some?
  {
    if !PlainMaster(e) then NotFound
    else if e.instances == [] then One(Whole(e.master.value))
    else
      var cut := e.master.value.(occurrences := e.master.value.occurrences - Rids(e.instances));
      Calendar([cut] + Relisted(e.instances))
  }

  lemma Answer(c: Cache, uid: string)
    ensures var e := EntryOf(c, uid);
            GetObject(c, uid, None) == if e.master.None? then NotFound
                                       else if e.instances == [] then One(Whole(e.master.value))
                                       else Calendar([e.master.value] + e.instances)
  {
  }

  lemma RelistedSome(comps: seq<Component>)
    requires forall p <- comps :: p.rid.Some?
    ensures Relisted(comps) == [] <==> comps == []
  {
  }

  /** The entry of the loaded cache. */
  lemma Reloaded(c: Cache, order: seq<string>, stale: Time, uid: string)
    requires Kept(c) && Enumerates(order, c) && uid in c.objects && PlainMaster(c.objects[uid])
    ensures var e, f := c.objects[uid], EntryOf(Load(EMPTY, Saved(c, order), stale), uid);
            && (forall p <- e.instances :: p.rid.Some?)
            && f.master == CutAll(e.master, Rids(e.instances)) && f.instances == Relisted(e.instances)
  {
    hide Outside, Relisted, Rids, AddAll, CutAll, Load, Saved, Of, Parts;
    SavedParts(c, order, uid);
    LoadAdds(EMPTY, Saved(c, order), stale, uid);
    assert EntryKept(c.objects[uid], uid);
    PartsAdded(c.objects[uid], uid);
  }

  /** After saving and loading a client that asks for a whole object is told exactly this. */
  lemma ReloadAnswers(c: Cache, order: seq<string>, stale: Time, uid: string)
    requires Kept(c) && Enumerates(order, c)
    ensures forall p <- EntryOf(c, uid).instances :: p.rid.Some?
    ensures GetObject(Load(EMPTY, Saved(c, order), stale), uid, None) == Told(EntryOf(c, uid))
  {
    hide Relisted, Rids, Load, Saved, GetObject, Parts, Visible;
    var loaded := Load(EMPTY, Saved(c, order), stale);
    Answer(loaded, uid);
    if uid in c.objects {
      assert EntryKept(c.objects[uid], uid);
      if PlainMaster(c.objects[uid]) {
        Reloaded(c, order, stale, uid);
        RelistedSome(c.objects[uid].instances);
        NoRids();
        CutNothing(c.objects[uid].master);
      } else if c.objects[uid].master.Some? {
        StrayEntryLost(c, order, stale, uid);
        HiddenMaster(loaded, uid);
      } else {
        PlainEntryShows(c, order, stale, uid, None);
        HiddenMaster(c, uid);
        HiddenMaster(loaded, uid);
      }
    } else {
      PlainEntryShows(c, order, stale, uid, None);
      HiddenMaster(c, uid);
      HiddenMaster(loaded, uid);
    }
  }

  lemma HiddenMaster(c: Cache, uid: string)
    ensures Visible(c, uid, None).None? <==> EntryOf(c, uid).master.None?
    ensures Sketch(Visible(c, uid, None)).None? <==> EntryOf(c, uid).master.None?
  {
  }

  // ---- what a restart preserves --------------------------------------------

  ghost predicate SameVisible(c: Cache, d: Cache) {
    forall uid, rid :: Visible(c, uid, rid) == Visible(d, uid, rid)
  }

  ghost predicate SameReplies(c: Cache, d: Cache) {
    forall uid, rid :: GetObject(c, uid, rid) == GetObject(d, uid, rid)
  }

  /** The master has no recurrence id, and no occurrence where it has a detached instance. */
  ghost predicate CleanMaster(e: Entry) {
    e.master.Some? ==> e.master.value.rid.None? && e.master.value.occurrences !! Rids(e.instances)
  }

  ghost predicate CleanMasters(c: Cache) {
    forall uid <- c.objects :: CleanMaster(c.objects[uid])
  }

  lemma CutClean(e: Entry)
    requires PlainMaster(e)
    ensures CutAll(e.master, Rids(e.instances)) == e.master <==> CleanMaster(e)
  {
    hide Rids;
    var o, rids := e.master.value.occurrences, Rids(e.instances);
    assert o - rids == o <==> o !! rids by {
      if o - rids == o { assert forall x | x in o :: x in o - rids; }
    }
  }

  lemma SketchOfInstance(c: Cache, uid: string, r: Time)
    ensures Sketch(Visible(c, uid, Some(r))) == Visible(c, uid, Some(r))
  {
  }

  lemma WholeMaster(c: Cache, uid: string)
    ensures var master := EntryOf(c, uid).master;
            Visible(c, uid, None) == if master.Some? then Some(Whole(master.value)) else None
  {
  }

  /** For one uid: the whole object shows the same exactly when its master is clean. */
  lemma WholeSameIff(c: Cache, order: seq<string>, stale: Time, uid: string)
    requires Kept(c) && Enumerates(order, c)
    ensures Visible(Load(EMPTY, Saved(c, order), stale), uid, None) == Visible(c, uid, None) <==>
            CleanMaster(EntryOf(c, uid))
  {
    hide Load, Saved, Visible, CutAll, Rids, Relisted;
    var loaded := Load(EMPTY, Saved(c, order), stale);
    WholeMaster(loaded, uid);
    WholeMaster(c, uid);
    if uid in c.objects && c.objects[uid].master.Some? {
      if PlainMaster(c.objects[uid]) {
        Reloaded(c, order, stale, uid);
        CutClean(c.objects[uid]);
      } else {
        StrayEntryLost(c, order, stale, uid);
      }
    } else {
      PlainEntryShows(c, order, stale, uid, None);
      HiddenMaster(c, uid);
      HiddenMaster(loaded, uid);
    }
  }

  /**
   Saving and loading, occurrences and all: every uid and recurrence id shows exactly what it
   showed if and only if every master is clean.
   */
  lemma SaveLoadVisibleIff(c: Cache, order: seq<string>, stale: Time)
    requires Kept(c) && Enumerates(order, c)
    ensures SameVisible(Load(EMPTY, Saved(c, order), stale), c) <==> CleanMasters(c)
  {
    hide Load, Saved, Visible, Sketch, CleanMaster, Kept, Enumerates;
    var loaded := Load(EMPTY, Saved(c, order), stale);
    forall uid
      ensures Visible(loaded, uid, None) == Visible(c, uid, None) <==> CleanMaster(EntryOf(c, uid))
      ensures uid !in c.objects ==> CleanMaster(EntryOf(c, uid))
    {
      WholeSameIff(c, order, stale, uid);
      NewIsClean();
    }
    if CleanMasters(c) {
      forall uid, rid
        ensures Visible(loaded, uid, rid) == Visible(c, uid, rid)
      {
        if rid.Some? { InstanceSame(c, order, stale, uid, rid.value); }
      }
    }
  }

  lemma NewIsClean()
    ensures CleanMaster(NEW_ENTRY)
  {
  }

  lemma InstanceSame(c: Cache, order: seq<string>, stale: Time, uid: string, r: Time)
    requires Kept(c) && Enumerates(order, c) && CleanMaster(EntryOf(c, uid))
    ensures Visible(Load(EMPTY, Saved(c, order), stale), uid, Some(r)) == Visible(c, uid, Some(r))
  {
    hide Load, Saved, Visible, Sketch, Kept, Enumerates, Rids;
    PlainEntryShows(c, order, stale, uid, Some(r));
    SketchOfInstance(Load(EMPTY, Saved(c, order), stale), uid, r);
    SketchOfInstance(c, uid, r);
  }

  /** A list comes back as it was only if there is nothing to reverse. */
  lemma RelistedSameIff(comps: seq<Component>)
    requires forall p <- comps :: p.rid.Some?
    ensures Relisted(comps) == comps <==> |comps| <= 1
  {
    if comps != [] {
      assert comps[0] in comps;
      var r := comps[0].rid.value;
      var rest := Outside(comps[1..], {r});
      RelistedBounded(rest);
      if |comps| == 1 {
        assert comps[1..] == [] && Relisted(comps) == Relisted([]) + [comps[0]];
      } else if Relisted(comps) == comps {
        var last := comps[|comps| - 1];
        assert Relisted(comps)[|Relisted(comps)| - 1] == comps[0];
        assert comps[1..][|comps| - 2] == last && last.rid == Some(r);
        LeftOut(comps[1..], r);
      }
    }
  }

  lemma {:induction false} RelistedBounded(comps: seq<Component>)
    requires forall p <- comps :: p.rid.Some?
    ensures |Relisted(comps)| <= |comps|
    decreases |comps|
  {
    if comps != [] {
      assert comps[0] in comps;
      RelistedBounded(Outside(comps[1..], {comps[0].rid.value}));
    }
  }

  lemma {:induction false} LeftOut(comps: seq<Component>, r: Time)
    requires r in Rids(comps)
    ensures |Outside(comps, {r})| < |comps|
  {
    if comps[0].rid != Some(r) {
      var p :| p in comps && p.rid == Some(r);
      assert p in comps[1..];
      LeftOut(comps[1..], r);
    }
  }

  /** Nothing about the entry changes by being saved and loaded. */
  ghost predicate Settled(e: Entry) {
    CleanMaster(e) && (e.master.Some? ==> |e.instances| <= 1)
  }

  /**
   Every request is answered exactly as before if and only if every master is clean and has
   at most one detached instance: two come back in the other order.
   */
  lemma SaveLoadRepliesIff(c: Cache, order: seq<string>, stale: Time)
    requires Kept(c) && Enumerates(order, c)
    ensures SameReplies(Load(EMPTY, Saved(c, order), stale), c) <==> forall uid <- c.objects :: Settled(c.objects[uid])
  {
    hide Load, Saved, GetObject, Settled, Kept, Enumerates;
    var loaded := Load(EMPTY, Saved(c, order), stale);
    if forall uid <- c.objects :: Settled(c.objects[uid]) {
      forall uid, rid
        ensures GetObject(loaded, uid, rid) == GetObject(c, uid, rid)
      {
        WholeReplySame(c, order, stale, uid);
        if rid.Some? { InstanceReplySame(c, order, stale, uid, rid.value); }
      }
    }
    if SameReplies(loaded, c) {
      forall uid | uid in c.objects
        ensures Settled(c.objects[uid])
      {
        WholeReplySame(c, order, stale, uid);
        assert GetObject(loaded, uid, None) == GetObject(c, uid, None);
      }
    }
  }

  lemma InstanceReplySame(c: Cache, order: seq<string>, stale: Time, uid: string, r: Time)
    requires Kept(c) && Enumerates(order, c) && (uid in c.objects ==> Settled(c.objects[uid]))
    ensures GetObject(Load(EMPTY, Saved(c, order), stale), uid, Some(r)) == GetObject(c, uid, Some(r))
  {
    hide Load, Saved, GetObject, Kept, Enumerates, CleanMaster, Visible;
    NewIsClean();
    InstanceSame(c, order, stale, uid, r);
    InstanceAnswer(c, uid, r);
    InstanceAnswer(Load(EMPTY, Saved(c, order), stale), uid, r);
  }

  lemma InstanceAnswer(c: Cache, uid: string, r: Time)
    ensures var shown := Visible(c, uid, Some(r));
            GetObject(c, uid, Some(r)) == if shown.None? then NotFound else One(shown.value)
  {
  }

  lemma WholeReplySame(c: Cache, order: seq<string>, stale: Time, uid: string)
    requires Kept(c) && Enumerates(order, c)
    ensures GetObject(Load(EMPTY, Saved(c, order), stale), uid, None) == GetObject(c, uid, None) <==>
              uid !in c.objects || Settled(c.objects[uid])
  {
    hide Load, Saved, GetObject, Relisted, Rids;
    ReloadAnswers(c, order, stale, uid);
    Answer(c, uid);
    if uid in c.objects && PlainMaster(c.objects[uid]) { ToldSameIff(c.objects[uid]); }
  }

  lemma ToldSameIff(e: Entry)
    requires PlainMaster(e) && forall p <- e.instances :: p.rid.Some?
    ensures Told(e) == (if e.instances == [] then One(Whole(e.master.value))
                        else Calendar([e.master.value] + e.instances))
            <==> CleanMaster(e) && |e.instances| <= 1
  {
    hide Relisted, Rids;
    NoRids();
    CutClean(e);
    RelistedSameIff(e.instances);
    var cut := e.master.value.(occurrences := e.master.value.occurrences - Rids(e.instances));
    if [cut] + Relisted(e.instances) == [e.master.value] + e.instances {
      assert ([cut] + Relisted(e.instances))[0] == cut && ([e.master.value] + e.instances)[0] == e.master.value;
      assert ([cut] + Relisted(e.instances))[1..] == Relisted(e.instances);
      assert ([e.master.value] + e.instances)[1..] == e.instances;
    }
  }

  // ---- over runs -----------------------------------------------------------

  /** No whole object is modified by an occurrence of it. */
  predicate Proper(e: Event) {
    e.ModifyObject? && e.comp.rid.Some? ==> !e.all && !e.discardDetached
  }

  /** A master put in place has no occurrence where its entry has a detached instance. */
  ghost predicate Tidy(c: Cache, e: Event) {
    match e
    case AddObject(_, _, comp) =>
      Accepts(c, comp) && comp.rid.None? ==> comp.occurrences !! Rids(EntryOf(c, comp.uid.value).instances)
    case ModifyObject(comp, _, _) =>
      comp.uid.Some? && comp.rid.None? ==> comp.occurrences !! Rids(EntryOf(c, comp.uid.value).instances)
    case _ => true
  }

  ghost predicate TidyRun(c: Cache, events: seq<Event>)
    decreases |events|
  {
    events == [] ||
    (TidyRun(c, events[..|events| - 1]) && Tidy(Run(c, events[..|events| - 1]), events[|events| - 1]))
  }

  lemma AddedClean(e: Entry, href: Option<string>, lastmod: Option<Time>, comp: Component)
    requires CleanMaster(e) && (comp.rid.None? ==> comp.occurrences !! Rids(e.instances))
    ensures CleanMaster(AddTo(e, href, lastmod, comp))
  {
    if comp.rid.Some? { RidsSplit(comp, e.instances); }
  }

  lemma ModifiedClean(e: Entry, comp: Component, all: bool, discardDetached: bool)
    requires CleanMaster(e) && (comp.rid.None? ==> comp.occurrences !! Rids(e.instances))
    requires comp.rid.Some? ==> !all && !discardDetached
    ensures CleanMaster(ModifyIn(e, comp, all, discardDetached))
  {
    if comp.rid.Some? { RidsSplit(comp, e.instances); }
  }

  lemma StepClean(c: Cache, e: Event)
    requires CleanMasters(c) && Proper(e) && Tidy(c, e)
    ensures CleanMasters(Step(c, e))
  {
    hide Rids, AddTo, ModifyIn;
    match e
    case AddObject(href, lastmod, comp) =>
      NewIsClean();
      if Accepts(c, comp) { AddedClean(EntryOf(c, comp.uid.value), href, lastmod, comp); }
    case ModifyObject(comp, all, discardDetached) =>
      if comp.uid.Some? && comp.uid.value in c.objects {
        ModifiedClean(c.objects[comp.uid.value], comp, all, discardDetached);
      }
    case _ =>
  }

  lemma {:induction false} RunClean(c: Cache, events: seq<Event>)
    requires CleanMasters(c) && TidyRun(c, events) && forall e <- events :: Proper(e)
    ensures CleanMasters(Run(c, events))
    decreases |events|
  {
    hide CleanMasters, Step, Tidy, Proper;
    if events != [] {
      var front, last := events[..|events| - 1], events[|events| - 1];
      assert last in events && forall e <- front :: e in events;
      RunClean(c, front);
      StepClean(Run(c, front), last);
    }
  }

  /** When masters are put in place tidily a restart changes nothing a client can see. */
  lemma RestartKeepsAll(events: seq<Event>, order: seq<string>, stale: Time)
    requires Enumerates(order, Run(EMPTY, events))
    requires TidyRun(EMPTY, events) && forall e <- events :: Proper(e)
    ensures var c := Run(EMPTY, events); SameVisible(Load(EMPTY, Saved(c, order), stale), c)
  {
    hide Run, Load, Saved, SameVisible, Kept, CleanMaster, TidyRun, Proper;
    assert Kept(EMPTY) by { EmptyKept(); }
    RunKept(EMPTY, events);
    RunClean(EMPTY, events);
    SaveLoadVisibleIff(Run(EMPTY, events), order, stale);
  }

  /**
   Whatever masters are put in place, a restart keeps every occurrence and detached instance,
   and a whole object that was there is answered with its instances relisted.
   */
  lemma RestartAnswers(events: seq<Event>, order: seq<string>, stale: Time, uid: string, r: Time)
    requires Enumerates(order, Run(EMPTY, events)) && forall e <- events :: Proper(e)
    ensures var c := Run(EMPTY, events);
            var loaded := Load(EMPTY, Saved(c, order), stale);
            && GetObject(loaded, uid, Some(r)) == GetObject(c, uid, Some(r))
            && (forall p <- EntryOf(c, uid).instances :: p.rid.Some?)
            && GetObject(loaded, uid, None) == Told(EntryOf(c, uid))
            && (Told(EntryOf(c, uid)) == NotFound <==> GetObject(c, uid, None) == NotFound)
  {
    hide Run, Load, Saved, Visible, Sketch, Kept, GetObject, Relisted, Rids, Enumerates;
    var c := Run(EMPTY, events);
    var loaded := Load(EMPTY, Saved(c, order), stale);
    assert Kept(EMPTY) by { EmptyKept(); }
    RunKept(EMPTY, events);
    RunPlain(EMPTY, events);
    ReloadAnswers(c, order, stale, uid);
    Answer(c, uid);
    PlainEntryShows(c, order, stale, uid, Some(r));
    SketchOfInstance(loaded, uid, r);
    SketchOfInstance(c, uid, r);
    InstanceAnswer(c, uid, r);
    InstanceAnswer(loaded, uid, r);
  }

  // ---- a restart that loses an object --------------------------------------

  const TASK := Component(Some("t"), None, None, {3}, "task")
  const CHANGED_OCCURRENCE := Component(Some("t"), Some(3), None, {}, "changed")

  /**
   Changing all of a recurring task with an occurrence of it puts that occurrence in the
   master's place, and the next restart loses the object as a whole.
   */
  lemma RestartLosesTask()
    ensures var events := [AddObject(None, Some(0), TASK), ModifyObject(CHANGED_OCCURRENCE, true, false)];
            var c := Run(EMPTY, events);
            && Enumerates(["t"], c) && Kept(c)
            && GetObject(c, "t", None) == One(Whole(CHANGED_OCCURRENCE))
            && GetObject(Load(EMPTY, Saved(c, ["t"]), 0), "t", None) == NotFound
  {
    hide Load, Saved, Kept, EntryKept;
    var added, modified := AddObject(None, Some(0), TASK), ModifyObject(CHANGED_OCCURRENCE, true, false);
    var events := [added, modified];
    assert events[..1] == [added] && [added][..0] == [];
    assert Run(EMPTY, [added]) == Step(EMPTY, added);
    var c := Run(EMPTY, events);
    assert c == Step(Step(EMPTY, added), modified);
    assert c.objects == map["t" := Entry(None, Some(0), Some(CHANGED_OCCURRENCE), [])];
    assert Kept(EMPTY) by { EmptyKept(); }
    RunKept(EMPTY, events);
    ReloadAnswers(c, ["t"], 0, "t");
  }

  lemma EmptyKept()
    ensures Kept(EMPTY)
  {
  }
}
