/**
 The calendar cache as the objects the program keeps: a hash table of entries updated
 in place and the table of entries a pass has not met.  Every method is proved to do to
 the abstract state what CalendarState says.
 */
module CalendarCache {
  import opened Basics
  import opened CalendarState

  class CacheEntry {
    const uid: string
    var href: Option<string>
    var lastmod: Option<Time>
    var master: Option<Component>
    var instances: seq<Component>

    constructor (uid: string)
      ensures this.uid == uid && Value() == NEW_ENTRY
    {
      this.uid := uid;
      href, lastmod, master, instances := None, None, None, [];
    }

    function Value(): Entry
      reads this
    {
      Entry(href, lastmod, master, instances)
    }

    /** Walks the list of detached instances up to the first at that recurrence id. */
    method FindInstance(rid: Time) returns (k: nat)
      ensures k == InstanceAt(instances, rid)
    {
      k := 0;
      while k < |instances| && instances[k].rid != Some(rid)
        invariant k <= |instances|
        invariant InstanceAt(instances, rid) == k + InstanceAt(instances[k..], rid)
      {
        assert instances[k..][1..] == instances[k + 1..];
        k := k + 1;
      }
    }

    method RemoveOccurrence(rid: Time)
      modifies `master
      ensures Value() == old(Value()).(master := Cut(old(master), rid))
    {
      if master.Some? {
        master := Some(master.value.(occurrences := master.value.occurrences - {rid}));
      }
    }

    method AddComponent(href: Option<string>, lastmod: Option<Time>, comp: Component)
      modifies this
      ensures Value() == AddTo(old(Value()), href, lastmod, comp)
    {
      if href.Some? {
        this.href := href;
      }
      if lastmod.Some? && (this.lastmod.None? || this.lastmod.value > lastmod.value) {
        this.lastmod := lastmod;
      }
      if comp.rid.Some? {
        var k := FindInstance(comp.rid.value);
        if k == |instances| {
          instances := [comp] + instances;
          RemoveOccurrence(comp.rid.value);
        }
      } else {
        master := Some(comp);
      }
    }

    /** The master, if any, and the detached instances go to the file. */
    method WriteTo(file: seq<Component>) returns (longer: seq<Component>)
      ensures longer == file + Parts(Value())
    {
      longer := if master.Some? then file + [master.value] else file;
      ghost var start := longer;
      var k := 0;
      while k < |instances|
        invariant 0 <= k <= |instances| && longer == start + instances[..k]
      {
        longer := longer + [instances[k]];
        k := k + 1;
      }
      assert instances[..k] == instances;
    }

    method DiscardDetachedInstance(rid: Time)
      modifies this
      ensures Value() == Discard(old(Value()), rid)
    {
      var k := FindInstance(rid);
      if k < |instances| {
        instances := instances[..k] + instances[k + 1..];
      }
      RemoveOccurrence(rid);
    }

    method ModifyComponent(comp: Component, all: bool, discardDetached: bool)
      modifies this
      ensures Value() == ModifyIn(old(Value()), comp, all, discardDetached)
    {
      if all || comp.rid.None? || discardDetached {
        master := Some(comp);
        if discardDetached && comp.rid.Some? {
          DiscardDetachedInstance(comp.rid.value);
        }
      } else {
        instances := [comp] + instances;
        RemoveOccurrence(comp.rid.value);
      }
    }
  }

  class ExchangeCalendar {
    var objects: map<string, CacheEntry>
    var inPass: bool
    var cacheUnseen: set<CacheEntry>

    ghost predicate Valid()
      reads this
    {
      && (forall uid <- objects :: objects[uid].uid == uid)
      && (forall e <- cacheUnseen :: e.uid in objects && objects[e.uid] == e)
    }

    ghost function Entries(): (m: map<string, Entry>)
      reads `objects, objects.Values
      ensures m.Keys == objects.Keys
    {
      map uid <- objects :: objects[uid].Value()
    }

    ghost function Unseen(): set<string>
      reads `cacheUnseen
    {
      set e <- cacheUnseen :: e.uid
    }

    ghost function State(): Cache
      reads this, objects.Values
    {
      Cache(Entries(), if inPass then Some(Unseen()) else None)
    }

    constructor ()
      ensures Valid() && State() == EMPTY
    {
      objects, inPass, cacheUnseen := map[], false, {};
    }

    /** One entry changed, or is new. */
    lemma OneEntry(before: map<string, Entry>, uid: string)
      requires uid in objects && objects.Keys == before.Keys + {uid}
      requires forall u <- objects :: u != uid ==> objects[u].Value() == before[u]
      ensures Entries() == before[uid := objects[uid].Value()]
    {
    }

    /** Objects of other uids are other objects. */
    lemma Others(uid: string)
      requires Valid() && uid in objects
      ensures forall u <- objects :: u != uid ==> objects[u] != objects[uid]
    {
    }

    method AddObject(href: Option<string>, lastmod: Option<Time>, comp: Component) returns (added: bool)
      requires Valid()
      modifies this, objects.Values
      ensures Valid() && added == Accepts(old(State()), comp) && State() == Add(old(State()), href, lastmod, comp)
      ensures forall e <- objects.Values :: e in old(objects.Values) || fresh(e)
      ensures inPass == old(inPass)
    {
      hide AddTo, Entries, Unseen;
      if comp.uid.None? {
        return false;
      }
      var uid := comp.uid.value;
      EntryAt(uid);
      if uid in objects && objects[uid].master.Some? && comp.rid.None? {
        return false;
      }
      AddAccepted(uid, href, lastmod, comp);
      return true;
    }

    method AddAccepted(uid: string, href: Option<string>, lastmod: Option<Time>, comp: Component)
      requires Valid() && comp.uid == Some(uid) && Accepts(State(), comp)
      modifies this, objects.Values
      ensures Valid() && State() == Add(old(State()), href, lastmod, comp)
      ensures forall e <- objects.Values :: e in old(objects.Values) || fresh(e)
      ensures inPass == old(inPass)
    {
      hide AddTo, Entries, Unseen, Accepts;
      EnsureEntry(uid);
      AddToEntry(uid, href, lastmod, comp);
    }

    lemma EntryAt(uid: string)
      ensures uid in objects ==> uid in Entries() && Entries()[uid] == objects[uid].Value()
      ensures Entries().Keys == objects.Keys
    {
    }

    method AddToEntry(uid: string, href: Option<string>, lastmod: Option<Time>, comp: Component)
      requires Valid() && uid in objects
      modifies objects[uid]
      ensures Valid() && Entries() == old(Entries())[uid := AddTo(old(Entries())[uid], href, lastmod, comp)]
    {
      hide AddTo;
      ghost var before := Entries();
      Others(uid);
      objects[uid].AddComponent(href, lastmod, comp);
      OneEntry(before, uid);
    }

    /** The entry of the uid, new if there was none. */
    method EnsureEntry(uid: string)
      requires Valid()
      modifies this
      ensures Valid() && uid in objects && inPass == old(inPass) && Unseen() == old(Unseen())
      ensures Entries() == old(Entries())[uid := EntryOf(old(State()), uid)]
      ensures objects.Values <= old(objects.Values) + {objects[uid]}
      ensures uid in old(objects) ==> objects == old(objects)
      ensures uid !in old(objects) ==> fresh(objects[uid])
    {
      if uid !in objects {
        ghost var before := Entries();
        var e := new CacheEntry(uid);
        objects := objects[uid := e];
        OneEntry(before, uid);
      }
    }

    method ModifyObject(comp: Component, all: bool, discardDetached: bool) returns (found: bool)
      requires Valid()
      modifies objects.Values
      ensures Valid() && found == (comp.uid.Some? && comp.uid.value in objects)
      ensures State() == Modify(old(State()), comp, all, discardDetached)
    {
      hide ModifyIn;
      if comp.uid.None? || comp.uid.value !in objects {
        return false;
      }
      var uid := comp.uid.value;
      ghost var before := Entries();
      Others(uid);
      objects[uid].ModifyComponent(comp, all, discardDetached);
      OneEntry(before, uid);
      return true;
    }

    /** Must not be called on an entry that the pass has yet to meet. */
    method RemoveObject(uid: string) returns (found: bool)
      requires Valid() && (inPass ==> uid !in Unseen())
      modifies this
      ensures Valid() && found == (uid in old(objects)) && State() == Remove(old(State()), uid)
    {
      if uid !in objects {
        assert Without(Entries(), uid) == Entries();
        return false;
      }
      cacheUnseen := if inPass then cacheUnseen else {};
      objects := Without(objects, uid);
      return true;
    }

    // ---- synchronisation ---------------------------------------------------

    method CacheSyncStart()
      requires Valid()
      modifies this
      ensures Valid() && State() == Start(old(State()))
    {
      if inPass {
        return;
      }
      cacheUnseen := AllEntries();
      inPass := true;
      UnseenAll();
    }

    /** Collects the entries of the table one by one. */
    method AllEntries() returns (all: set<CacheEntry>)
      requires Valid()
      ensures forall e <- all :: e.uid in objects && objects[e.uid] == e
      ensures forall uid <- objects.Keys :: objects[uid] in all
    {
      var left := objects.Keys;
      all := {};
      while left != {}
        invariant left <= objects.Keys
        invariant forall e <- all :: e.uid in objects && objects[e.uid] == e
        invariant forall uid <- objects.Keys :: uid in left || objects[uid] in all
        decreases |left|
      {
        var uid :| uid in left;
        all := all + {objects[uid]};
        left := left - {uid};
      }
    }

    lemma UnseenAll()
      requires Valid() && forall uid <- objects.Keys :: objects[uid] in cacheUnseen
      ensures Unseen() == objects.Keys
    {
      forall uid | uid in objects
        ensures uid in Unseen()
      {
        assert objects[uid] in cacheUnseen && objects[uid].uid == uid;
      }
    }

    method InCache(uid: string, newer: Time, href: Option<string>, rid: Option<Time>) returns (found: bool)
      requires Valid() && Allowed(State(), Event.InCache(uid, newer, href, rid))
      modifies this, objects.Values
      ensures Valid() && found == Found(old(State()), uid, newer, rid)
      ensures State() == Ask(old(State()), uid, newer, href, rid)
    {
      if !inPass || uid !in objects {
        return false;
      }
      ghost var before, unseen := Entries(), Unseen();
      var e := objects[uid];
      Others(uid);
      SeenUid(e);
      cacheUnseen := cacheUnseen - {e};
      assert Entries() == before && Unseen() == unseen - {uid};
      if rid.Some? {
        var k := e.FindInstance(rid.value);
        return k < |e.instances|;
      }
      if e.lastmod.value < newer {
        objects := Without(objects, uid);
        assert Entries() == Without(before, uid);
        return false;
      }
      if href.Some? {
        e.href := href;
        OneEntry(before, uid);
      }
      return true;
    }

    /** Entries are unseen object by object, which is uid by uid. */
    lemma SeenUid(e: CacheEntry)
      requires Valid() && e.uid in objects && objects[e.uid] == e
      ensures (set x <- cacheUnseen - {e} :: x.uid) == Unseen() - {e.uid}
    {
      forall u | u in Unseen() && u != e.uid
        ensures u in set x <- cacheUnseen - {e} :: x.uid
      {
        var x :| x in cacheUnseen && x.uid == u;
        assert x in cacheUnseen - {e};
      }
    }

    /** Reports the unseen entries that have a master; the entries themselves stay. */
    method CacheSyncEnd() returns (removed: set<string>)
      requires Valid() && inPass
      modifies this
      ensures Valid() && removed == Reports(old(State())) && State() == End(old(State()))
    {
      var left := cacheUnseen;
      removed := {};
      while left != {}
        invariant left <= cacheUnseen && objects == old(objects) && cacheUnseen == old(cacheUnseen)
        invariant inPass && Entries() == old(Entries())
        invariant removed == set e | e in cacheUnseen && e !in left && e.master.Some? :: e.uid
        decreases |left|
      {
        var e :| e in left;
        if e.master.Some? {
          removed := removed + {e.uid};
        }
        left := left - {e};
      }
      ReportedUids();
      cacheUnseen, inPass := {}, false;
    }

    lemma ReportedUids()
      requires Valid() && inPass
      ensures (set e | e in cacheUnseen && e.master.Some? :: e.uid) == Reports(State())
    {
      forall uid | uid in Reports(State())
        ensures uid in set e | e in cacheUnseen && e.master.Some? :: e.uid
      {
        var e :| e in cacheUnseen && e.uid == uid;
      }
    }

    // ---- looking up, saving and loading ------------------------------------

    method GetObject(uid: string, rid: Option<Time>) returns (reply: Reply)
      requires Valid()
      ensures reply == CalendarState.GetObject(State(), uid, rid)
    {
      if uid !in objects {
        return NotFound;
      }
      var e := objects[uid];
      if rid.Some? {
        var k := e.FindInstance(rid.value);
        if k < |e.instances| {
          return One(Detached(e.instances[k]));
        }
        if e.master.Some? && rid.value in e.master.value.occurrences {
          return One(Occurrence(e.master.value.stamp, e.master.value.body, rid.value));
        }
        return NotFound;
      }
      if e.master.None? {
        return NotFound;
      }
      if |e.instances| > 0 {
        return Calendar([e.master.value] + e.instances);
      }
      return One(Whole(e.master.value));
    }

    /** Writes the entries in the order the hash table gives them. */
    method Save(order: seq<string>) returns (file: seq<Component>)
      requires Valid() && forall uid <- order :: uid in objects
      ensures file == Saved(State(), order)
    {
      hide Parts, Saved;
      file := [];
      ghost var c := State();
      var i := 0;
      while i < |order|
        invariant 0 <= i <= |order|
        invariant Saved(c, order) == file + Saved(c, order[i..])
      {
        var e := objects[order[i]];
        SavedUnfold(c, order[i..]);
        assert order[i..][1..] == order[i + 1..];
        assert c.objects[order[i]] == e.Value();
        file := e.WriteTo(file);
        i := i + 1;
      }
      assert order[|order|..] == [];
      SavedNothing(c);
    }

    lemma SavedNothing(c: Cache)
      ensures Saved(c, []) == []
    {
    }

    lemma SavedUnfold(c: Cache, order: seq<string>)
      requires order != [] && order[0] in c.objects
      ensures Saved(c, order) == Parts(c.objects[order[0]]) + Saved(c, order[1..])
    {
    }

    method LoadCache(file: seq<Component>, stale: Time)
      requires Valid()
      modifies this, objects.Values
      ensures Valid() && State() == Load(old(State()), file, stale)
    {
      hide Add;
      var last := stale;
      var i := 0;
      while i < |file|
        invariant 0 <= i <= |file| && Valid()
        invariant forall e <- objects.Values :: e in old(objects.Values) || fresh(e)
        invariant Load(State(), file[i..], last) == Load(old(State()), file, stale)
      {
        assert file[i..][1..] == file[i + 1..];
        if file[i].stamp.Some? {
          last := file[i].stamp.value;
        }
        var _ := AddObject(None, Some(last), file[i]);
        i := i + 1;
      }
      assert file[|file|..] == [];
    }
  }
}
