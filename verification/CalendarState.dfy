/**
 The calendar object cache as values: a master object and detached instances per uid.
 Times are integers, compared as the program compares its timestamps; a master stands
 for the set of recurrence ids it has an occurrence at.
 */
module CalendarState {
  import opened Basics

  type Time = int

  datatype Component = Component(
    uid: Option<string>,
    rid: Option<Time>,
    stamp: Option<Time>,
    occurrences: set<Time>,
    body: string)

  datatype Entry = Entry(
    href: Option<string>,
    lastmod: Option<Time>,
    master: Option<Component>,
    instances: seq<Component>)

  /** `unseen` holds the uids a synchronisation pass has not met yet; there is none outside a pass. */
  datatype Cache = Cache(objects: map<string, Entry>, unseen: Option<set<string>>)

  const EMPTY := Cache(map[], None)
  const NEW_ENTRY := Entry(None, None, None, [])

  // ---- instances -----------------------------------------------------------

  /** The first instance at that recurrence id, or the length of the list. */
  function InstanceAt(instances: seq<Component>, rid: Time): (k: nat)
    ensures k <= |instances|
    ensures k < |instances| ==> instances[k].rid == Some(rid)
    ensures forall i :: 0 <= i < k ==> instances[i].rid != Some(rid)
  {
    if instances == [] || instances[0].rid == Some(rid) then 0 else 1 + InstanceAt(instances[1..], rid)
  }

  predicate HasInstance(instances: seq<Component>, rid: Time) {
    InstanceAt(instances, rid) < |instances|
  }

  /** The master no longer has an occurrence there. */
  function Cut(master: Option<Component>, rid: Time): Option<Component> {
    match master
    case None => None
    case Some(m) => Some(m.(occurrences := m.occurrences - {rid}))
  }

  // ---- adding --------------------------------------------------------------

  /** An entry keeps the oldest modification time it was given. */
  function Older(kept: Option<Time>, given: Option<Time>): Option<Time> {
    if given.Some? && (kept.None? || given.value < kept.value) then given else kept
  }

  function AddTo(e: Entry, href: Option<string>, lastmod: Option<Time>, comp: Component): Entry {
    var f := e.(href := if href.Some? then href else e.href, lastmod := Older(e.lastmod, lastmod));
    if comp.rid.None? then f.(master := Some(comp))
    else if HasInstance(e.instances, comp.rid.value) then f
    else f.(instances := [comp] + e.instances, master := Cut(e.master, comp.rid.value))
  }

  function EntryOf(c: Cache, uid: string): Entry {
    if uid in c.objects then c.objects[uid] else NEW_ENTRY
  }

  /** A second master for a uid is refused, and so is a component without a uid. */
  predicate Accepts(c: Cache, comp: Component) {
    comp.uid.Some? && !(EntryOf(c, comp.uid.value).master.Some? && comp.rid.None?)
  }

  function Add(c: Cache, href: Option<string>, lastmod: Option<Time>, comp: Component): Cache {
    if !Accepts(c, comp) then c
    else
      var uid := comp.uid.value;
      c.(objects := c.objects[uid := AddTo(EntryOf(c, uid), href, lastmod, comp)])
  }

  // ---- modifying and removing ----------------------------------------------

  /** The first detached instance there goes, and so does the master's own occurrence. */
  function Discard(e: Entry, rid: Time): Entry {
    var k := InstanceAt(e.instances, rid);
    e.(instances := if k < |e.instances| then e.instances[..k] + e.instances[k + 1..] else e.instances,
       master := Cut(e.master, rid))
  }

  function ModifyIn(e: Entry, comp: Component, all: bool, discardDetached: bool): Entry {
    if all || comp.rid.None? || discardDetached then
      var f := e.(master := Some(comp));
      if discardDetached && comp.rid.Some? then Discard(f, comp.rid.value) else f
    else
      e.(instances := [comp] + e.instances, master := Cut(e.master, comp.rid.value))
  }

  function Modify(c: Cache, comp: Component, all: bool, discardDetached: bool): Cache {
    if comp.uid.None? || comp.uid.value !in c.objects then c
    else
      var uid := comp.uid.value;
      c.(objects := c.objects[uid := ModifyIn(c.objects[uid], comp, all, discardDetached)])
  }

  function Remove(c: Cache, uid: string): Cache {
    c.(objects := Without(c.objects, uid))
  }

  // ---- synchronisation -----------------------------------------------------

  function Start(c: Cache): Cache {
    if c.unseen.Some? then c else c.(unseen := Some(c.objects.Keys))
  }

  predicate Stale(c: Cache, uid: string, lastmod: Time) {
    uid in c.objects && c.objects[uid].lastmod.Some? && c.objects[uid].lastmod.value < lastmod
  }

  /** Whether the cache has what the server has: that instance, or the object no older. */
  predicate Found(c: Cache, uid: string, lastmod: Time, rid: Option<Time>) {
    && c.unseen.Some? && uid in c.objects
    && if rid.Some? then HasInstance(c.objects[uid].instances, rid.value) else !Stale(c, uid, lastmod)
  }

  /** Asking marks the entry as seen; a stale entry asked for as a whole is dropped. */
  function Ask(c: Cache, uid: string, lastmod: Time, href: Option<string>, rid: Option<Time>): Cache {
    if c.unseen.None? || uid !in c.objects then c
    else
      var seen := c.(unseen := Some(c.unseen.value - {uid}));
      if rid.Some? then seen
      else if Stale(c, uid, lastmod) then Remove(seen, uid)
      else if href.Some? then seen.(objects := c.objects[uid := c.objects[uid].(href := href)])
      else seen
  }

  /** What the end of a pass reports as removed: unseen entries with a master. */
  function Reports(c: Cache): set<string> {
    if c.unseen.None? then {}
    else set uid | uid in c.unseen.value && uid in c.objects && c.objects[uid].master.Some?
  }

  /** The entries reported stay in the cache. */
  function End(c: Cache): Cache {
    c.(unseen := None)
  }

  // ---- runs ----------------------------------------------------------------

  datatype Event =
    | AddObject(href: Option<string>, lastmod: Option<Time>, comp: Component)
    | ModifyObject(comp: Component, all: bool, discardDetached: bool)
    | RemoveObject(uid: string)
    | InCache(uid: string, newer: Time, at: Option<string>, rid: Option<Time>)
    | SyncStart
    | SyncEnd

  /**
   An object is never removed while a pass has yet to meet it, and a whole object is
   only asked for when it has a modification time.
   */
  predicate Allowed(c: Cache, e: Event) {
    match e
    case RemoveObject(uid) => c.unseen.Some? ==> uid !in c.unseen.value
    case InCache(uid, _, _, rid) => uid in c.objects && rid.None? ==> c.objects[uid].lastmod.Some?
    case _ => true
  }

  function Step(c: Cache, e: Event): Cache {
    match e
    case AddObject(href, lastmod, comp) => Add(c, href, lastmod, comp)
    case ModifyObject(comp, all, discardDetached) => Modify(c, comp, all, discardDetached)
    case RemoveObject(uid) => Remove(c, uid)
    case InCache(uid, newer, at, rid) => Ask(c, uid, newer, at, rid)
    case SyncStart => Start(c)
    case SyncEnd => End(c)
  }

  function Run(c: Cache, events: seq<Event>): Cache {
    if events == [] then c else Step(Run(c, events[..|events| - 1]), events[|events| - 1])
  }

  /** Every event was allowed when it happened. */
  predicate AllAllowed(c: Cache, events: seq<Event>) {
    events == [] ||
    (AllAllowed(c, events[..|events| - 1]) && Allowed(Run(c, events[..|events| - 1]), events[|events| - 1]))
  }

  // ---- what a client sees --------------------------------------------------

  datatype Shown =
    | Whole(master: Component)
    | Occurrence(stamp: Option<Time>, body: string, rid: Time)
    | Detached(comp: Component)

  /** The whole object; or the newest detached instance at a recurrence id, else the master's own occurrence. */
  function VisibleIn(e: Entry, rid: Option<Time>): Option<Shown> {
    match rid
    case None => if e.master.Some? then Some(Whole(e.master.value)) else None
    case Some(r) =>
      if HasInstance(e.instances, r) then Some(Detached(e.instances[InstanceAt(e.instances, r)]))
      else if e.master.Some? && r in e.master.value.occurrences
      then Some(Occurrence(e.master.value.stamp, e.master.value.body, r))
      else None
  }

  function Visible(c: Cache, uid: string, rid: Option<Time>): Option<Shown> {
    VisibleIn(EntryOf(c, uid), rid)
  }

  /** The master, if any, and the detached instances, newest first. */
  function Parts(e: Entry): seq<Component> {
    (if e.master.Some? then [e.master.value] else []) + e.instances
  }

  datatype Reply = NotFound | One(shown: Shown) | Calendar(parts: seq<Component>)

  function GetObject(c: Cache, uid: string, rid: Option<Time>): Reply {
    var shown := Visible(c, uid, rid);
    if shown.None? then NotFound
    else if rid.None? && c.objects[uid].instances != [] then Calendar(Parts(c.objects[uid]))
    else One(shown.value)
  }

  // ---- saving and loading --------------------------------------------------

  /** The file: entry by entry, in whatever order the hash table gives. */
  function Saved(c: Cache, order: seq<string>): seq<Component> {
    if order == [] then []
    else (if order[0] in c.objects then Parts(c.objects[order[0]]) else []) + Saved(c, order[1..])
  }

  /** Loading; a component without a modification time takes that of the one before it. */
  function Load(c: Cache, comps: seq<Component>, stale: Time): Cache
    decreases comps
  {
    if comps == [] then c
    else
      var stamp := if comps[0].stamp.Some? then comps[0].stamp.value else stale;
      Load(Add(c, None, Some(stamp), comps[0]), comps[1..], stamp)
  }
}
