/**
 What a client is shown after an object was added, modified or removed, and after the
 synchronisation asked about it.
 */
module CalendarEdits {
  import opened Basics
  import opened CalendarState

  // ---- what a request answers ----------------------------------------------

  /** The first of the instances at that recurrence id. */
  ghost predicate FirstAt(instances: seq<Component>, r: Time, p: Component) {
    exists k :: 0 <= k < |instances| && instances[k] == p && p.rid == Some(r)
                && forall i :: 0 <= i < k ==> instances[i].rid != Some(r)
  }

  ghost predicate NoneAt(instances: seq<Component>, r: Time) {
    forall p <- instances :: p.rid != Some(r)
  }

  ghost predicate OccursAt(e: Entry, r: Time) {
    e.master.Some? && r in e.master.value.occurrences
  }

  /**
   A request for a recurrence id is answered with the first detached instance there, else with
   the master's occurrence there, else not at all; one for the whole object with the master and
   all detached instances in order, or not at all without a master.
   */
  lemma GetObjectExact(c: Cache, uid: string, r: Time)
    ensures var e := EntryOf(c, uid);
            && (forall p :: GetObject(c, uid, Some(r)) == One(Detached(p)) <==> FirstAt(e.instances, r, p))
            && (GetObject(c, uid, Some(r)) == NotFound <==> NoneAt(e.instances, r) && !OccursAt(e, r))
            && (NoneAt(e.instances, r) && OccursAt(e, r) ==>
                  GetObject(c, uid, Some(r)) == One(Occurrence(e.master.value.stamp, e.master.value.body, r)))
    ensures var e := EntryOf(c, uid);
            && (GetObject(c, uid, None) == NotFound <==> e.master.None?)
            && (e.master.Some? && e.instances == [] ==> GetObject(c, uid, None) == One(Whole(e.master.value)))
            && (e.master.Some? && e.instances != [] ==>
                  GetObject(c, uid, None) == Calendar([e.master.value] + e.instances))
  {
    var e := EntryOf(c, uid);
    var k := InstanceAt(e.instances, r);
    if k < |e.instances| {
      assert FirstAt(e.instances, r, e.instances[k]);
      assert e.instances[k] in e.instances;
    }
  }

  // ---- lists of instances --------------------------------------------------

  lemma Prepended(p: Component, instances: seq<Component>, r: Time)
    ensures InstanceAt([p] + instances, r) == if p.rid == Some(r) then 0 else 1 + InstanceAt(instances, r)
  {
    assert ([p] + instances)[1..] == instances;
  }

  /** Nothing about other uids, or about the pass, differs. */
  ghost predicate OthersSame(c: Cache, d: Cache, uid: string) {
    && d.unseen == c.unseen
    && (forall u :: u != uid ==> (u in d.objects <==> u in c.objects))
    && (forall u <- c.objects :: u != uid ==> d.objects[u] == c.objects[u])
  }

  /** All that is shown of an entry at other recurrence ids is as before. */
  ghost predicate SameElsewhere(e: Entry, f: Entry, r: Time) {
    forall q: Time :: q != r ==> VisibleIn(f, Some(q)) == VisibleIn(e, Some(q))
  }

  lemma InFront(e: Entry, comp: Component, r: Time, f: Entry)
    requires comp.rid == Some(r)
    requires f.instances == [comp] + e.instances && f.master == Cut(e.master, r)
    ensures VisibleIn(f, Some(r)) == Some(Detached(comp)) && SameElsewhere(e, f, r)
  {
    Prepended(comp, e.instances, r);
    forall q: Time | q != r
      ensures VisibleIn(f, Some(q)) == VisibleIn(e, Some(q))
    {
      Prepended(comp, e.instances, q);
    }
  }

  // ---- modifying -----------------------------------------------------------

  /**
   Modifying one occurrence shows the modified component there, also when there was a detached
   instance already; everything shown at other recurrence ids and of other uids stays, and the
   whole object merely loses its own occurrence there.
   */
  lemma ModifyOccurrenceShown(c: Cache, comp: Component, r: Time)
    requires comp.uid.Some? && comp.uid.value in c.objects && comp.rid == Some(r)
    ensures var uid := comp.uid.value;
            var d := Modify(c, comp, false, false);
            && Visible(d, uid, Some(r)) == Some(Detached(comp)) && GetObject(d, uid, Some(r)) == One(Detached(comp))
            && SameElsewhere(EntryOf(c, uid), EntryOf(d, uid), r) && OthersSame(c, d, uid)
            && EntryOf(d, uid).instances == [comp] + EntryOf(c, uid).instances
            && EntryOf(d, uid).href == EntryOf(c, uid).href && EntryOf(d, uid).lastmod == EntryOf(c, uid).lastmod
            && match EntryOf(c, uid).master
               case None => EntryOf(d, uid).master == None
               case Some(m) => EntryOf(d, uid).master == Some(m.(occurrences := m.occurrences - {r}))
  {
    hide VisibleIn, InstanceAt;
    InFront(EntryOf(c, comp.uid.value), comp, r, EntryOf(Modify(c, comp, false, false), comp.uid.value));
  }

  /**
   Modifying the whole object, with nothing discarded, shows the component as the whole object
   and leaves the detached instances as they are; where there is none its own occurrences show.
   */
  lemma ModifyWholeShown(c: Cache, comp: Component, all: bool, discardDetached: bool)
    requires comp.uid.Some? && comp.uid.value in c.objects
    requires comp.rid.None? || (all && !discardDetached)
    ensures var uid := comp.uid.value;
            var d := Modify(c, comp, all, discardDetached);
            && Visible(d, uid, None) == Some(Whole(comp)) && OthersSame(c, d, uid)
            && EntryOf(d, uid) == EntryOf(c, uid).(master := Some(comp))
            && (forall r: Time :: !NoneAt(EntryOf(c, uid).instances, r) ==>
                  Visible(d, uid, Some(r)) == Visible(c, uid, Some(r)))
            && (forall r: Time :: NoneAt(EntryOf(c, uid).instances, r) ==>
                  Visible(d, uid, Some(r)) ==
                  if r in comp.occurrences then Some(Occurrence(comp.stamp, comp.body, r)) else None)
  {
    var uid := comp.uid.value;
    var instances := EntryOf(c, uid).instances;
    forall r: Time
      ensures NoneAt(instances, r) <==> !HasInstance(instances, r)
    {
      NoInstance(instances, r);
    }
  }

  lemma NoInstance(instances: seq<Component>, r: Time)
    ensures NoneAt(instances, r) <==> !HasInstance(instances, r)
  {
    var k := InstanceAt(instances, r);
    if k < |instances| { assert instances[k] in instances; }
  }

  /** The list without its first instance at that recurrence id. */
  ghost predicate FirstDropped(before: seq<Component>, r: Time, after: seq<Component>) {
    if NoneAt(before, r) then after == before
    else exists k :: 0 <= k < |before| && before[k].rid == Some(r) && NoneAt(before[..k], r)
                     && after == before[..k] + before[k + 1..]
  }

  /**
   Modifying the whole object with a component of an occurrence, discarding the detached one:
   the component, without that occurrence, becomes the whole object and the first detached
   instance there goes, so that nothing is shown there unless a second one was.
   */
  lemma ModifyDiscardingShown(c: Cache, comp: Component, all: bool, r: Time)
    requires comp.uid.Some? && comp.uid.value in c.objects && comp.rid == Some(r)
    ensures var uid := comp.uid.value;
            var d := Modify(c, comp, all, true);
            var after := EntryOf(d, uid).instances;
            && Visible(d, uid, None) == Some(Whole(comp.(occurrences := comp.occurrences - {r})))
            && OthersSame(c, d, uid)
            && FirstDropped(EntryOf(c, uid).instances, r, after)
            && (NoneAt(after, r) ==> Visible(d, uid, Some(r)) == None && GetObject(d, uid, Some(r)) == NotFound)
            && (forall p :: FirstAt(after, r, p) ==> Visible(d, uid, Some(r)) == Some(Detached(p)))
  {
    hide VisibleIn, InstanceAt, FirstDropped, NoneAt, FirstAt, Discard;
    var uid := comp.uid.value;
    var e, d := EntryOf(c, uid), Modify(c, comp, all, true);
    Discarded(e.(master := Some(comp)), comp, r);
    ShownOrNone(EntryOf(d, uid), comp.(occurrences := comp.occurrences - {r}), r);
  }

  lemma Discarded(e: Entry, comp: Component, r: Time)
    requires e.master == Some(comp)
    ensures var f := Discard(e, r);
            f.master == Some(comp.(occurrences := comp.occurrences - {r})) && FirstDropped(e.instances, r, f.instances)
  {
    hide FirstDropped;
    DroppedFirst(e.instances, r);
  }

  /** An entry whose master has no occurrence there. */
  lemma ShownOrNone(f: Entry, m: Component, r: Time)
    requires f.master == Some(m) && r !in m.occurrences
    ensures VisibleIn(f, None) == Some(Whole(m))
    ensures NoneAt(f.instances, r) ==> VisibleIn(f, Some(r)) == None
    ensures forall p :: FirstAt(f.instances, r, p) ==> VisibleIn(f, Some(r)) == Some(Detached(p))
  {
    NoInstance(f.instances, r);
    forall p | FirstAt(f.instances, r, p)
      ensures VisibleIn(f, Some(r)) == Some(Detached(p))
    {
      FirstFound(f.instances, r, p);
    }
  }

  lemma DroppedFirst(instances: seq<Component>, r: Time)
    ensures var k := InstanceAt(instances, r);
            FirstDropped(instances, r, if k < |instances| then instances[..k] + instances[k + 1..] else instances)
  {
    var k := InstanceAt(instances, r);
    NoInstance(instances, r);
    if k < |instances| {
      assert NoneAt(instances[..k], r);
    }
  }

  lemma FirstFound(instances: seq<Component>, r: Time, p: Component)
    requires FirstAt(instances, r, p)
    ensures HasInstance(instances, r) && instances[InstanceAt(instances, r)] == p
  {
  }

  /** A component without a uid, or of an unknown object, modifies nothing. */
  lemma ModifyUnknown(c: Cache, comp: Component, all: bool, discardDetached: bool)
    requires comp.uid.None? || comp.uid.value !in c.objects
    ensures Modify(c, comp, all, discardDetached) == c
  {
  }

  // ---- adding and removing -------------------------------------------------

  /**
   An accepted component is shown: as the whole object, or as the detached instance at its
   recurrence id if there was none there.  A given href is taken over, and all else stays.
   */
  lemma AddShown(c: Cache, href: Option<string>, lastmod: Option<Time>, comp: Component)
    requires comp.uid.Some? && (comp.rid.Some? || EntryOf(c, comp.uid.value).master.None?)
    ensures var uid := comp.uid.value;
            var e, d := EntryOf(c, uid), Add(c, href, lastmod, comp);
            && uid in d.objects && OthersSame(c, d, uid)
            && EntryOf(d, uid).href == (if href.Some? then href else e.href)
            && match comp.rid
               case None =>
                 && Visible(d, uid, None) == Some(Whole(comp)) && EntryOf(d, uid).instances == e.instances
               case Some(r) =>
                 && SameElsewhere(e, EntryOf(d, uid), r)
                 && (NoneAt(e.instances, r) ==> Visible(d, uid, Some(r)) == Some(Detached(comp)))
                 && (!NoneAt(e.instances, r) ==>
                       EntryOf(d, uid).instances == e.instances && EntryOf(d, uid).master == e.master)
  {
    hide VisibleIn, InstanceAt;
    var uid := comp.uid.value;
    var e, f := EntryOf(c, uid), EntryOf(Add(c, href, lastmod, comp), uid);
    if comp.rid.Some? {
      var r := comp.rid.value;
      NoInstance(e.instances, r);
      if NoneAt(e.instances, r) { InFront(e, comp, r, f); } else { Untouched(e, f, r); }
    } else {
      WholeShown(f, comp);
    }
  }

  lemma Untouched(e: Entry, f: Entry, r: Time)
    requires f.instances == e.instances && f.master == e.master
    ensures SameElsewhere(e, f, r)
  {
  }

  lemma WholeShown(f: Entry, comp: Component)
    requires f.master == Some(comp)
    ensures VisibleIn(f, None) == Some(Whole(comp))
  {
  }

  /** A second master, or a component without a uid, changes nothing. */
  lemma AddRefused(c: Cache, href: Option<string>, lastmod: Option<Time>, comp: Component)
    requires comp.uid.None? || (comp.rid.None? && EntryOf(c, comp.uid.value).master.Some?)
    ensures Add(c, href, lastmod, comp) == c
  {
  }

  /** A removed object is not found under any recurrence id; the others are as before. */
  lemma RemoveShown(c: Cache, uid: string, rid: Option<Time>)
    ensures GetObject(Remove(c, uid), uid, rid) == NotFound && OthersSame(c, Remove(c, uid), uid)
  {
  }

  /**
   Asking drops an object asked for as a whole that is older than the server's, takes over a
   given href for one that is not, and otherwise shows nothing different.
   */
  lemma AskShown(c: Cache, uid: string, newer: Time, href: Option<string>, rid: Option<Time>)
    requires c.unseen.Some? && uid in c.objects
    ensures var e, d := c.objects[uid], Ask(c, uid, newer, href, rid);
            && d.unseen == Some(c.unseen.value - {uid})
            && (forall u :: u != uid ==> (u in d.objects <==> u in c.objects))
            && (forall u <- c.objects :: u != uid ==> d.objects[u] == c.objects[u])
            && if rid.None? && e.lastmod.Some? && e.lastmod.value < newer then uid !in d.objects
               else uid in d.objects
                    && d.objects[uid] == if rid.None? && href.Some? then e.(href := href) else e
  {
  }
}
