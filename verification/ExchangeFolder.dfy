/**
 The mail folder index as the objects the program keeps: messages updated in place,
 two hash indexes that point at them, and the queue of messages with unsent edits.
 Every method is proved to do to the abstract state what FolderState says.
 */
module ExchangeFolders {
  import opened Basics
  import opened MessageFlags
  import opened FolderState
  import opened FolderIndex
  import opened PendingQueue

  class ExchangeMessage {
    const uid: string
    const serial: nat
    var href: Option<string>
    var flags: Word
    var changeFlags: Word
    var changeMask: Word
    var tags: map<string, string>

    constructor (uid: string, href: Option<string>, serial: nat, flags: Word)
      ensures this.uid == uid && this.serial == serial
      ensures Value() == Message(uid, href, serial, flags, {}, {}, map[])
    {
      this.uid, this.href, this.serial, this.flags := uid, href, serial, flags;
      changeFlags, changeMask, tags := {}, {}, map[];
    }

    function Value(): Message
      reads this
    {
      Message(uid, href, serial, flags, changeFlags, changeMask, tags)
    }
  }

  function Values(ms: seq<ExchangeMessage>): (r: seq<Message>)
    reads ms
    ensures |r| == |ms|
  {
    seq(|ms|, i requires 0 <= i < |ms| reads ms => ms[i].Value())
  }

  ghost function Serials(ms: seq<ExchangeMessage>): (r: seq<nat>)
    ensures |r| == |ms|
  {
    seq(|ms|, i requires 0 <= i < |ms| => ms[i].serial)
  }

  ghost function SerialMap(index: map<string, ExchangeMessage>): (r: map<string, nat>)
    ensures r.Keys == index.Keys
  {
    map k <- index :: index[k].serial
  }

  lemma ValuesAppended(ms: seq<ExchangeMessage>, m: ExchangeMessage)
    ensures Values(ms + [m]) == Values(ms) + [m.Value()]
  {
  }

  lemma ValuesCut(ms: seq<ExchangeMessage>, k: nat)
    requires k < |ms|
    ensures Values(ms[..k] + ms[k + 1..]) == Values(ms)[..k] + Values(ms)[k + 1..]
  {
  }

  lemma SerialMapUpdated(index: map<string, ExchangeMessage>, key: string, m: ExchangeMessage)
    ensures SerialMap(index[key := m]) == SerialMap(index)[key := m.serial]
    ensures index[key := m].Values <= index.Values + {m}
  {
  }

  lemma SerialMapWithout(index: map<string, ExchangeMessage>, key: string)
    ensures SerialMap(Without(index, key)) == Without(SerialMap(index), key)
    ensures Without(index, key).Values <= index.Values
  {
  }

  lemma SerialsCut(q: seq<ExchangeMessage>, k: nat)
    requires k < |q|
    ensures Serials(q[k := q[|q| - 1]][..|q| - 1]) == RemoveFastAt(Serials(q), k)
    ensures forall m <- q[k := q[|q| - 1]][..|q| - 1] :: m in q
  {
  }

  lemma AddShape(f: Folder, m: Message, g: Folder)
    requires m == Message(m.uid, m.href, f.nextSerial, m.flags, {}, {}, map[])
    requires g.messages == f.messages + [m] && g.byUid == f.byUid[m.uid := m.serial]
    requires g.byHref == if m.href.Some? then f.byHref[m.href.value := m.serial] else f.byHref
    requires g.nextSerial == f.nextSerial + 1
    requires g.highArticle == f.highArticle && g.deletedCount == f.deletedCount && g.changed == f.changed
    requires g.unread == if SEEN in m.flags then f.unread else U32(f.unread + 1)
    ensures g == Add(f, m.uid, m.href, m.flags)
  {
  }

  lemma RemoveAtShape(f: Folder, k: nat, m: Message, g: Folder)
    requires k < |f.messages| && f.messages[k] == m
    requires g.messages == f.messages[..k] + f.messages[k + 1..] && g.byUid == Without(f.byUid, m.uid)
    requires g.byHref == if m.href.Some? then Without(f.byHref, m.href.value) else f.byHref
    requires g.changed == if m.Pending() then RemoveFast(f.changed, m.serial) else f.changed
    requires g.unread == if SEEN in m.flags then f.unread else U32(f.unread - 1)
    requires g.nextSerial == f.nextSerial && g.highArticle == f.highArticle && g.deletedCount == f.deletedCount
    ensures g == RemoveAt(f, k)
  {
  }

  /** The array ordered by uid. */
  function InsertObject(m: ExchangeMessage, sorted: seq<ExchangeMessage>): (r: seq<ExchangeMessage>)
    ensures m in r && (forall o <- r :: o == m || o in sorted) && forall o <- sorted :: o in r
  {
    if sorted == [] then [m]
    else if StrLe(m.uid, sorted[0].uid) then [m] + sorted
    else [sorted[0]] + InsertObject(m, sorted[1..])
  }

  function SortObjects(ms: seq<ExchangeMessage>): (r: seq<ExchangeMessage>)
    ensures (forall o <- r :: o in ms) && forall o <- ms :: o in r
  {
    if ms == [] then [] else InsertObject(ms[0], SortObjects(ms[1..]))
  }

  lemma ValuesPrepended(m: ExchangeMessage, ms: seq<ExchangeMessage>)
    ensures Values([m] + ms) == [m.Value()] + Values(ms)
  {
  }

  lemma {:induction false} InsertedValues(m: ExchangeMessage, sorted: seq<ExchangeMessage>)
    ensures Values(InsertObject(m, sorted)) == InsertMessage(m.Value(), Values(sorted))
  {
    ValuesPrepended(m, sorted);
    if sorted != [] {
      assert sorted == [sorted[0]] + sorted[1..];
      ValuesPrepended(sorted[0], sorted[1..]);
      ValuesPrepended(sorted[0], InsertObject(m, sorted[1..]));
      InsertedValues(m, sorted[1..]);
      hide Values, StrLe;
      assert Values(sorted)[1..] == Values(sorted[1..]);
    }
  }

  lemma {:induction false} SortedValues(ms: seq<ExchangeMessage>)
    ensures Values(SortObjects(ms)) == SortMessages(Values(ms))
  {
    if ms != [] {
      assert Values(ms)[0] == ms[0].Value();
      assert Values(ms)[1..] == Values(ms[1..]);
      SortedValues(ms[1..]);
      InsertedValues(ms[0], SortObjects(ms[1..]));
    }
  }

  /** The messages a deletion listing mentions. */
  ghost function KnownObjects(listing: seq<Listed>, index: map<string, ExchangeMessage>): set<ExchangeMessage> {
    set l | l in listing && l.href in index :: index[l.href]
  }

  lemma KnownNone(index: map<string, ExchangeMessage>)
    ensures KnownObjects([], index) == {}
  {
  }

  lemma KnownGrows(listing: seq<Listed>, i: nat, index: map<string, ExchangeMessage>)
    requires i < |listing|
    ensures KnownObjects(listing[..i + 1], index) ==
            KnownObjects(listing[..i], index) + if listing[i].href in index then {index[listing[i].href]} else {}
  {
    assert listing[..i + 1] == listing[..i] + [listing[i]];
  }

  class ExchangeFolder {
    var messages: seq<ExchangeMessage>
    var messagesByUid: map<string, ExchangeMessage>
    var messagesByHref: map<string, ExchangeMessage>
    var nextSerial: nat
    var highArticleNum: nat
    var deletedCount: nat
    var unreadCount: nat
    var changedMessages: seq<ExchangeMessage>

    ghost function State(): Folder
      reads this, messages
    {
      Folder(Values(messages), SerialMap(messagesByUid), SerialMap(messagesByHref),
             nextSerial, highArticleNum, deletedCount, unreadCount, Serials(changedMessages))
    }

    /** Every message object the folder refers to. */
    ghost function Pool(): set<ExchangeMessage>
      reads `messages, `messagesByUid, `messagesByHref, `changedMessages
    {
      (set m <- messages) + messagesByUid.Values + messagesByHref.Values + (set m <- changedMessages)
    }

    /** A serial number identifies a message object. */
    ghost predicate Identified()
      reads `messages, `messagesByUid, `messagesByHref, `changedMessages
    {
      forall a <- Pool(), b <- Pool() :: a.serial == b.serial ==> a == b
    }

    ghost predicate Valid()
      reads this, messages
    {
      Identified() && Indexed(State())
    }

    /** The objects found through an index are those of the array. */
    lemma Registered(key: string)
      requires Valid()
      ensures key in messagesByUid ==>
                && messagesByUid[key] in messages
                && Find(State(), key) == Some(messagesByUid[key].Value())
      ensures key in messagesByHref ==>
                && messagesByHref[key] in messages
                && FindByHref(State(), key) == Some(messagesByHref[key].Value())
                && messagesByHref[key].href == Some(key)
    {
      var f := State();
      if key in messagesByUid {
        assert BearsUid(f.messages, f.byUid[key], key);
        FetchedObject(messagesByUid[key]);
      }
      if key in messagesByHref {
        assert BearsHref(f.messages, f.byHref[key], key);
        FetchedObject(messagesByHref[key]);
      }
    }

    lemma FetchedObject(o: ExchangeMessage)
      requires Valid() && o in Pool() && Fetch(Values(messages), o.serial).Some?
      ensures o in messages && Fetch(Values(messages), o.serial) == Some(o.Value())
    {
      var k := Position(Values(messages), o.serial);
      assert messages[k] in Pool() && messages[k].serial == o.serial;
    }

    /** What overwriting one object of the array does to the array's values. */
    lemma Overwritten(before: seq<Message>, m: ExchangeMessage)
      requires Identified() && m in messages && |before| == |messages|
      requires forall i :: 0 <= i < |messages| ==>
                 before[i].serial == messages[i].serial && (messages[i] != m ==> before[i] == messages[i].Value())
      ensures Values(messages) == Replace(before, m.Value())
    {
      forall i | 0 <= i < |messages|
        ensures Values(messages)[i] == Replace(before, m.Value())[i]
      {
        assert messages[i] in Pool() && m in Pool();
      }
    }

    // ---- opening -----------------------------------------------------------

    constructor ()
      ensures Valid() && State() == EMPTY && messages == []
    {
      messages, messagesByUid, messagesByHref, changedMessages := [], map[], map[], [];
      nextSerial, highArticleNum, deletedCount, unreadCount := 0, 0, 0, 0;
    }

    method LoadRows(rows: seq<Row>, highArticle: nat)
      requires Valid() && messages == [] && State() == EMPTY && DistinctUids(rows)
      modifies this
      ensures Valid() && State() == Load(rows, highArticle)
    {
      hide Indexed, Identified, FolderState.LoadRows;
      var i := 0;
      while i < |rows|
        invariant 0 <= i <= |rows| && Valid()
        invariant forall k :: 0 <= k < |messages| ==> fresh(messages[k])
        invariant forall k :: i <= k < |rows| ==> rows[k].uid !in State().byUid
        invariant FolderState.LoadRows(State(), rows[i..]) == FolderState.LoadRows(EMPTY, rows)
      {
        var row := rows[i];
        var href := if row.href == Some("") then None else row.href;
        LoadStep(State(), rows[i..]);
        assert rows[i..][1..] == rows[i + 1..];
        AppendMessage(row.uid, href, row.flags);
        i := i + 1;
      }
      LoadDone(State());
      assert rows[|rows|..] == [];
      highArticleNum := highArticle;
      SameTables(FolderState.LoadRows(EMPTY, rows), State());
    }

    lemma LoadStep(f: Folder, rows: seq<Row>)
      requires rows != []
      ensures var href := if rows[0].href == Some("") then None else rows[0].href;
              FolderState.LoadRows(f, rows) == FolderState.LoadRows(Add(f, rows[0].uid, href, rows[0].flags), rows[1..])
    {
    }

    lemma LoadDone(f: Folder)
      ensures FolderState.LoadRows(f, []) == f
    {
    }

    /** Puts the message in the array and the two indexes. */
    method Link(m: ExchangeMessage)
      modifies `messages, `messagesByUid, `messagesByHref
      ensures messages == old(messages) + [m]
      ensures Values(messages) == old(Values(messages)) + [m.Value()]
      ensures SerialMap(messagesByUid) == old(SerialMap(messagesByUid))[m.uid := m.serial]
      ensures SerialMap(messagesByHref) == (if m.href.Some?
                                            then old(SerialMap(messagesByHref))[m.href.value := m.serial]
                                            else old(SerialMap(messagesByHref)))
      ensures messagesByUid.Values <= old(messagesByUid.Values) + {m}
      ensures messagesByHref.Values <= old(messagesByHref.Values) + {m}
    {
      hide Values, SerialMap;
      ValuesAppended(messages, m);
      SerialMapUpdated(messagesByUid, m.uid, m);
      if m.href.Some? { SerialMapUpdated(messagesByHref, m.href.value, m); }
      messages := messages + [m];
      messagesByUid := messagesByUid[m.uid := m];
      if m.href.Some? {
        messagesByHref := messagesByHref[m.href.value := m];
      }
    }

    method AppendMessage(uid: string, href: Option<string>, flags: Word)
      requires Valid() && uid !in messagesByUid
      modifies this
      ensures Valid() && State() == Add(old(State()), uid, href, flags)
      ensures |messages| == |old(messages)| + 1 && messages[..|old(messages)|] == old(messages)
      ensures fresh(messages[|old(messages)|])
    {
      hide Indexed, U32, Values, SerialMap, Identified, Add, Pool;
      ghost var f := State();
      PoolBounded();
      var m := new ExchangeMessage(uid, href, nextSerial, flags);
      nextSerial := nextSerial + 1;
      Link(m);
      if SEEN !in flags {
        unreadCount := U32(unreadCount + 1);
      }
      StillIdentified(old(Pool()), m);
      AddShape(f, m.Value(), State());
      AddIndexed(f, uid, href, flags);
    }

    /** Objects stay identified when the pool gains at most one with a new serial number. */
    twostate lemma StillIdentified(pool: set<ExchangeMessage>, new m: ExchangeMessage)
      requires old(Identified()) && pool == old(Pool())
      requires forall o <- messages :: o in old(messages) || o == m
      requires messagesByUid.Values <= old(messagesByUid.Values) + {m}
      requires messagesByHref.Values <= old(messagesByHref.Values) + {m}
      requires forall o <- changedMessages :: o in old(changedMessages) || o == m
      requires m in old(messages) || forall o <- pool :: o.serial != m.serial
      ensures Identified()
    {
    }

    /** Serial numbers in use lie below the next one. */
    lemma PoolBounded()
      requires Valid()
      ensures forall o <- Pool() :: o.serial < nextSerial
    {
      hide BearsUid, BearsHref, Distinct, Identified;
      var f := State();
      forall o | o in messages
        ensures o.serial < nextSerial
      {
        var k :| 0 <= k < |messages| && messages[k] == o;
        assert f.messages[k] in f.messages;
      }
      forall key | key in messagesByUid || key in messagesByHref
        ensures key in messagesByUid ==> messagesByUid[key] in messages
        ensures key in messagesByHref ==> messagesByHref[key] in messages
      {
        Registered(key);
      }
      forall o | o in changedMessages
        ensures o.serial < nextSerial
      {
        var k :| 0 <= k < |changedMessages| && changedMessages[k] == o;
        assert f.changed[k] in f.changed;
      }
    }

    // ---- finding and removing ----------------------------------------------

    method FindMessageIndex(serial: nat) returns (k: int)
      ensures k == BinarySearch(Values(messages), 0, |messages| - 1, serial)
    {
      ghost var values := Values(messages);
      var low, high := 0, |messages| - 1;
      while low <= high
        invariant 0 <= low && high < |messages|
        invariant BinarySearch(values, low, high, serial) == BinarySearch(values, 0, |messages| - 1, serial)
        decreases high - low + 1
      {
        var mid := (low + high) / 2;
        assert values[mid].serial == messages[mid].serial;
        if serial == messages[mid].serial {
          return mid;
        } else if serial < messages[mid].serial {
          high := mid - 1;
        } else {
          low := mid + 1;
        }
      }
      return -1;
    }

    /** No other object of the queue has the message's serial number. */
    ghost predicate OnlyInQueue(m: ExchangeMessage)
      reads `changedMessages
    {
      forall o <- changedMessages :: o.serial == m.serial ==> o == m
    }

    lemma QueueIdentified(m: ExchangeMessage)
      requires Identified() && m in messages
      ensures OnlyInQueue(m)
    {
      forall o | o in changedMessages && o.serial == m.serial
        ensures o == m
      {
        assert o in Pool() && m in Pool();
      }
    }

    /** The place of a message in the queue, or the queue's length. */
    method QueueIndex(m: ExchangeMessage) returns (k: nat)
      requires OnlyInQueue(m)
      ensures k == IndexIn(Serials(changedMessages), m.serial)
    {
      k := 0;
      while k < |changedMessages|
        invariant 0 <= k <= |changedMessages|
        invariant forall i :: 0 <= i < k ==> changedMessages[i].serial != m.serial
      {
        if changedMessages[k] == m {
          assert Serials(changedMessages)[k] == m.serial;
          return;
        }
        k := k + 1;
      }
    }

    /** A message with unsent edits leaves the queue, the last entry taking its place. */
    method Dequeue(m: ExchangeMessage)
      requires OnlyInQueue(m)
      modifies `changedMessages
      ensures Serials(changedMessages) == RemoveFast(old(Serials(changedMessages)), m.serial)
      ensures forall o <- changedMessages :: o in old(changedMessages)
    {
      hide IndexIn, OnlyInQueue, RemoveFastAt, Serials;
      var q := QueueIndex(m);
      if q < |changedMessages| {
        SerialsCut(changedMessages, q);
        changedMessages := changedMessages[q := changedMessages[|changedMessages| - 1]][..|changedMessages| - 1];
      }
    }

    /** Takes the message out of the array and the two indexes. */
    method Unlink(index: nat)
      requires index < |messages|
      modifies `messages, `messagesByUid, `messagesByHref
      ensures messages == old(messages)[..index] + old(messages)[index + 1..]
      ensures var m := old(messages[index]);
              && Values(messages) == old(Values(messages))[..index] + old(Values(messages))[index + 1..]
              && SerialMap(messagesByUid) == Without(old(SerialMap(messagesByUid)), m.uid)
              && SerialMap(messagesByHref) == (if m.href.Some?
                                               then Without(old(SerialMap(messagesByHref)), m.href.value)
                                               else old(SerialMap(messagesByHref)))
      ensures messagesByUid.Values <= old(messagesByUid.Values)
      ensures messagesByHref.Values <= old(messagesByHref.Values)
    {
      hide Values, SerialMap, Without;
      var m := messages[index];
      ValuesCut(messages, index);
      SerialMapWithout(messagesByUid, m.uid);
      if m.href.Some? { SerialMapWithout(messagesByHref, m.href.value); }
      messages := messages[..index] + messages[index + 1..];
      messagesByUid := Without(messagesByUid, m.uid);
      if m.href.Some? {
        messagesByHref := Without(messagesByHref, m.href.value);
      }
    }

    /** A message that left the array leaves the unread counter and the queue. */
    method Discount(m: ExchangeMessage)
      requires OnlyInQueue(m)
      modifies `unreadCount, `changedMessages
      ensures unreadCount == if SEEN in m.flags then old(unreadCount) else U32(old(unreadCount) - 1)
      ensures Serials(changedMessages) == (if m.Value().Pending()
                                           then RemoveFast(old(Serials(changedMessages)), m.serial)
                                           else old(Serials(changedMessages)))
      ensures forall o <- changedMessages :: o in old(changedMessages)
    {
      hide U32, Serials, RemoveFast, OnlyInQueue;
      if SEEN !in m.flags {
        unreadCount := U32(unreadCount - 1);
      }
      if m.changeMask != {} || m.tags != map[] {
        Dequeue(m);
      }
    }

    method MessageRemoveAtIndex(index: nat)
      requires Valid() && index < |messages|
      modifies this
      ensures Valid() && State() == RemoveAt(old(State()), index)
      ensures messages == old(messages)[..index] + old(messages)[index + 1..]
    {
      hide Indexed, U32, Values, SerialMap, Serials, Identified, RemoveFast, Without, RemoveAt, Pool, OnlyInQueue;
      ghost var f := State();
      var m := messages[index];
      ValueAt(index);
      QueueIdentified(m);
      Unlink(index);
      Discount(m);
      StillIdentified(old(Pool()), m);
      RemoveAtShape(f, index, m.Value(), State());
      RemoveAtIndexed(f, index);
    }

    lemma ValueAt(index: nat)
      requires index < |messages|
      ensures State().messages[index] == messages[index].Value()
    {
    }

    method MessageRemoved(href: string)
      requires Valid()
      modifies this
      ensures Valid() && State() == FolderState.MessageRemoved(old(State()), href)
      ensures forall m <- messages :: m in old(messages)
      ensures State().byUid.Keys == messagesByUid.Keys <= old(messagesByUid).Keys
    {
      hide Indexed, Identified, Fetch, BinarySearch, RemoveAt;
      Registered(href);
      FindByHrefNone(State(), href);
      MessageRemovedShrinks(State(), href);
      if href !in messagesByHref {
        return;
      }
      var index := FindMessageIndex(messagesByHref[href].serial);
      if index == -1 {
        return;
      }
      MessageRemoveAtIndex(index);
    }

    lemma FindByHrefNone(f: Folder, href: string)
      ensures href !in f.byHref ==> FindByHref(f, href) == None
    {
    }

    lemma MessageRemovedShrinks(f: Folder, href: string)
      ensures FolderState.MessageRemoved(f, href).byUid.Keys <= f.byUid.Keys
    {
      hide BinarySearch, Fetch;
    }

    /** The server confirmed that the messages at these hrefs are gone. */
    method MessagesRemoved(hrefs: seq<string>)
      requires Valid()
      modifies this
      ensures Valid() && State() == Removals(old(State()), hrefs)
      ensures forall m <- messages :: m in old(messages)
    {
      hide Indexed, Identified, FolderState.MessageRemoved;
      ghost var f := State();
      var i := 0;
      while i < |hrefs|
        invariant 0 <= i <= |hrefs| && Valid()
        invariant forall m <- messages :: m in old(messages)
        invariant Removals(State(), hrefs[i..]) == Removals(f, hrefs)
      {
        assert hrefs[i..][1..] == hrefs[i + 1..];
        MessageRemoved(hrefs[i]);
        ghost var g := State();
        deletedCount := U32(deletedCount + 1);
        assert State() == CountDeleted(g);
        SameTables(g, State());
        i := i + 1;
      }
    }

    // ---- flags -------------------------------------------------------------

    method ChangeFlags(m: ExchangeMessage, newFlags: Word)
      requires Valid() && m in messages
      modifies this`unreadCount, m
      ensures Valid() && messages == old(messages)
      ensures State() == FolderState.ChangeFlags(old(State()), old(m.Value()), newFlags)
    {
      hide Indexed, Identified, Replace, U32;
      ghost var f, before := State(), m.Value();
      if (SEEN in m.flags) != (SEEN in newFlags) {
        if SEEN in m.flags {
          unreadCount := U32(unreadCount + 1);
        } else {
          unreadCount := U32(unreadCount - 1);
        }
      }
      m.flags := newFlags;
      Overwritten(old(Values(messages)), m);
      ghost var k :| 0 <= k < |messages| && messages[k] == m;
      assert f.messages[k] == before;
      ChangeFlagsIndexed(f, before, newFlags);
    }

    // ---- refresh -----------------------------------------------------------

    /** One row of a refresh. */
    /** A row with a new uid: whatever its href is registered to goes, then the message is added. */
    method NewRow(it: Item)
      requires Valid() && it.Usable() && it.uid.value !in messagesByUid
      modifies this
      ensures Valid()
      ensures var f := old(State());
              var c := if it.href in f.byHref then FolderState.MessageRemoved(CountDeleted(f), it.href) else f;
              State() == Add(c, it.uid.value, Some(it.href), it.flags)
      ensures forall k :: 0 <= k < |messages| ==> messages[k] in old(messages) || fresh(messages[k])
    {
      hide Indexed, Identified, Fetch, Add, FolderState.MessageRemoved, Values, SerialMap, Serials, U32;
      ghost var f := State();
      if it.href in messagesByHref {
        deletedCount := U32(deletedCount + 1);
        SameTables(f, State());
        MessageRemoved(it.href);
        MessageRemovedKeys(CountDeleted(f), it.href);
      }
      AppendMessage(it.uid.value, Some(it.href), it.flags);
    }

    method RefreshRow(it: Item)
      requires Valid() && it.Usable()
      modifies this, messages
      ensures Valid() && State() == RefreshItem(old(State()), it)
      ensures forall k :: 0 <= k < |messages| ==> messages[k] in old(messages) || fresh(messages[k])
    {
      hide Indexed, Identified, Fetch, Add, FolderState.MessageRemoved, FolderState.ChangeFlags, Values, SerialMap,
           Serials, U32;
      ghost var f := State();
      var uid := it.uid.value;
      Registered(uid);
      FindNoneWithout(f, uid);
      if uid in messagesByUid {
        var m := messagesByUid[uid];
        if it.flags != m.flags {
          ChangeFlags(m, it.flags);
        }
      } else {
        NewRow(it);
      }
      ghost var g := State();
      highArticleNum := Max(highArticleNum, it.article.value);
      SameTables(g, State());
    }

    lemma FindNoneWithout(f: Folder, uid: string)
      ensures uid !in f.byUid ==> Find(f, uid) == None
    {
    }

    method RefreshFolder(rows: seq<Item>, ok: bool)
      requires Valid()
      modifies this, messages
      ensures Valid() && State() == Refresh(old(State()), rows, ok)
      ensures forall k :: 0 <= k < |messages| ==> messages[k] in old(messages) || fresh(messages[k])
    {
      hide Indexed, Identified, RefreshItem;
      if !ok {
        return;
      }
      ghost var f := State();
      var items := SortItems(FolderState.Usable(rows));
      var i := 0;
      while i < |items|
        invariant 0 <= i <= |items| && Valid()
        invariant forall k :: 0 <= k < |messages| ==> messages[k] in old(messages) || fresh(messages[k])
        invariant RefreshItems(State(), items[i..]) == RefreshItems(f, items)
      {
        assert items[i] in items;
        assert items[i..][1..] == items[i + 1..];
        RefreshRow(items[i]);
        i := i + 1;
      }
    }

    // ---- deletion sync -----------------------------------------------------

    /** One row of the deletion listing; the message it is about, if there is one. */
    method MarkRow(l: Listed, ghost later: seq<Listed>) returns (found: bool)
      requires Valid()
      modifies this`unreadCount, messages
      ensures Valid() && messages == old(messages) && messagesByHref == old(messagesByHref)
      ensures found <==> l.href in messagesByHref
      ensures found ==> messagesByHref[l.href] in messages
      ensures MarkListed(State(), later) == MarkListed(old(State()), [l] + later)
    {
      hide Indexed, Identified, Fetch, MarkListed;
      ghost var f := State();
      Registered(l.href);
      FindByHrefNone(f, l.href);
      found := l.href in messagesByHref;
      if found {
        var m := messagesByHref[l.href];
        if (SEEN in m.flags) != l.read {
          ChangeFlags(m, FlipSeen(m.flags));
        }
      }
      MarkListedStep(f, [l] + later);
      assert ([l] + later)[1..] == later;
    }

    lemma MarkListedStep(f: Folder, listing: seq<Listed>)
      requires listing != []
      ensures MarkListed(f, listing) ==
              match FindByHref(f, listing[0].href)
              case None => MarkListed(f, listing[1..])
              case Some(m) =>
                MarkListed(if (SEEN in m.flags) != listing[0].read
                           then FolderState.ChangeFlags(f, m, FlipSeen(m.flags)) else f, listing[1..])
    {
    }

    /** Marks the listed messages and collects them. */
    method MarkListing(listing: seq<Listed>) returns (known: set<ExchangeMessage>)
      requires Valid()
      modifies this`unreadCount, messages
      ensures Valid() && messages == old(messages) && messagesByHref == old(messagesByHref)
      ensures State() == MarkListed(old(State()), listing)
      ensures known == KnownObjects(listing, messagesByHref)
    {
      hide Indexed, Identified, MarkListed, Values, SerialMap, Serials, KnownObjects;
      ghost var f := State();
      known := {};
      KnownNone(messagesByHref);
      assert listing[..0] == [];
      var i := 0;
      while i < |listing|
        invariant 0 <= i <= |listing| && Valid()
        invariant messages == old(messages) && messagesByHref == old(messagesByHref)
        invariant MarkListed(State(), listing[i..]) == MarkListed(f, listing)
        invariant known == KnownObjects(listing[..i], messagesByHref)
      {
        assert listing[i..] == [listing[i]] + listing[i + 1..];
        var found := MarkRow(listing[i], listing[i + 1..]);
        if found {
          known := known + {messagesByHref[listing[i].href]};
        }
        KnownGrows(listing, i, messagesByHref);
        i := i + 1;
      }
      assert listing[..|listing|] == listing;
      MarkListedDone(State());
      assert listing[|listing|..] == [];
    }

    lemma MarkListedDone(f: Folder)
      ensures MarkListed(f, []) == f
    {
    }

    /** Clears out the messages that were not listed, from the end of the array. */
    method RemoveUnlisted(known: set<ExchangeMessage>, ghost serials: set<nat>)
      requires Valid()
      requires forall m <- messages :: m in known <==> m.serial in serials
      modifies this
      ensures Valid() && State() == RemoveUnknown(old(State()), serials, |old(messages)| - 1)
      ensures forall m <- messages :: m in old(messages)
    {
      hide Indexed, Identified, RemoveAt, SerialMap, Serials, U32;
      ghost var f := State();
      var i := |messages| - 1;
      while i >= 0
        invariant -1 <= i < |messages| && Valid()
        invariant forall m <- messages :: m in old(messages)
        invariant RemoveUnknown(State(), serials, i) == RemoveUnknown(f, serials, |f.messages| - 1)
        decreases i
      {
        assert messages[i] in messages;
        ValueAt(i);
        if messages[i] !in known {
          ghost var g := State();
          deletedCount := U32(deletedCount + 1);
          assert State() == CountDeleted(g);
          SameTables(g, State());
          MessageRemoveAtIndex(i);
        }
        i := i - 1;
      }
    }

    /** `deleted` and `visible` are the server's counters, -1 when it sent none. */
    method SyncDeletions(deleted: int, visible: int, listing: seq<Listed>)
      requires Valid()
      modifies this, messages
      ensures Valid() && State() == FolderState.SyncDeletions(old(State()), deleted, visible, listing)
      ensures forall m <- messages :: m in old(messages)
    {
      hide Indexed, Identified, MarkListed, RemoveUnknown, U32, KnownObjects;
      ghost var f := State();
      if U32(visible) >= |messages| {
        if deletedCount == U32(deleted) {
          return;
        }
        if deletedCount == 0 {
          deletedCount := U32(deleted);
          SameTables(f, State());
          return;
        }
      }
      var known := MarkListing(listing);
      KnownSerials(f, listing, known);
      RemoveUnlisted(known, Known(f, listing));
    }

    lemma KnownSerials(f: Folder, listing: seq<Listed>, known: set<ExchangeMessage>)
      requires Identified() && f.byHref == SerialMap(messagesByHref)
      requires known == KnownObjects(listing, messagesByHref)
      ensures forall m <- messages :: m in known <==> m.serial in Known(f, listing)
    {
      forall m | m in messages
        ensures m in known <==> m.serial in Known(f, listing)
      {
        if m.serial in Known(f, listing) {
          var l :| l in listing && l.href in f.byHref && f.byHref[l.href] == m.serial;
          assert messagesByHref[l.href] in Pool() && m in Pool();
        }
      }
    }

    // ---- user edits --------------------------------------------------------

    /** Queues the message unless it is queued already. */
    method ChangeMessage(m: ExchangeMessage)
      requires OnlyInQueue(m)
      modifies `changedMessages
      ensures Serials(changedMessages) == Enqueue(old(Serials(changedMessages)), m.serial)
      ensures forall o <- changedMessages :: o in old(changedMessages) || o == m
    {
      ghost var before := Serials(changedMessages);
      var k := QueueIndex(m);
      if k == |changedMessages| {
        assert m.serial !in before;
        changedMessages := changedMessages + [m];
        assert Serials(changedMessages) == before + [m.serial];
      } else {
        assert before[k] == m.serial;
      }
    }

    /** Writes a change of SEEN at once and leaves the rest pending. */
    method EditMessage(m: ExchangeMessage, flags: Word, mask: Word) returns (queue: bool)
      modifies `unreadCount, m
      ensures m.Value() == Edited(old(m.Value()), flags, mask)
      ensures queue <==> EditedMask(old(m.flags), flags, mask) != {}
      ensures unreadCount == if (SEEN in m.flags) == old(SEEN in m.flags) then old(unreadCount)
                             else U32(old(unreadCount) + if SEEN in m.flags then -1 else 1)
    {
      hide U32;
      var left := mask;
      if SEEN in mask {
        if (SEEN in m.flags) == (SEEN in flags) {
          left := mask - {SEEN};
        } else {
          m.flags := FlipSeen(m.flags);
          unreadCount := U32(unreadCount + if SEEN in m.flags then -1 else 1);
        }
      }
      queue := left != {};
      if queue {
        m.changeFlags := m.changeFlags + flags * left;
        m.changeFlags := m.changeFlags - (left - flags);
        m.changeMask := m.changeMask + left;
      } else {
        EmptyEdit(m.changeFlags, flags, m.changeMask);
      }
    }

    /** The edit of a message of the array, and its place in the queue. */
    method EditQueued(m: ExchangeMessage, flags: Word, mask: Word)
      requires Valid() && m in messages
      modifies `unreadCount, `changedMessages, m
      ensures Identified() && m.Value() == Edited(old(m.Value()), flags, mask)
      ensures Values(messages) == Replace(old(Values(messages)), m.Value())
      ensures Serials(changedMessages) ==
              if EditedMask(old(m.flags), flags, mask) == {} then old(Serials(changedMessages))
              else Enqueue(old(Serials(changedMessages)), m.serial)
      ensures unreadCount == if (SEEN in m.flags) == old(SEEN in m.flags) then old(unreadCount)
                             else U32(old(unreadCount) + if SEEN in m.flags then -1 else 1)
    {
      hide Indexed, Identified, Replace, Fetch, U32, OnlyInQueue, EditedMask, Edited, SerialMap;
      ghost var before := Values(messages);
      QueueIdentified(m);
      EditedSame(m.Value(), flags, mask);
      var queue := EditMessage(m, flags, mask);
      if queue {
        ChangeMessage(m);
      }
      StillIdentified(old(Pool()), m);
      Overwritten(before, m);
    }

    method SetMessageFlags(uid: string, flags: Word, mask: Word) returns (found: bool)
      requires Valid()
      modifies this, messages
      ensures Valid() && State() == SetFlags(old(State()), uid, flags, mask)
      ensures found <==> uid in old(messagesByUid)
      ensures messages == old(messages)
    {
      hide Indexed, Identified, Replace, Fetch, U32, EditedMask, Edited, Values, Serials, Enqueue;
      ghost var f := State();
      Registered(uid);
      FindNoneWithout(f, uid);
      SetFlagsIndexed(f, uid, flags, mask);
      found := uid in messagesByUid;
      if found {
        EditQueued(messagesByUid[uid], flags, mask);
      }
    }

    lemma EmptyEdit(changeFlags: Word, bits: Word, changeMask: Word)
      ensures MergedBits(changeFlags, bits, {}) == changeFlags && changeMask + {} == changeMask
    {
    }

    method SetMessageTag(uid: string, name: string, value: Option<string>) returns (found: bool)
      requires Valid()
      modifies this, messages
      ensures Valid() && State() == SetTag(old(State()), uid, name, value)
      ensures found <==> uid in old(messagesByUid)
      ensures messages == old(messages)
    {
      hide Indexed, Identified, Replace, Fetch, OnlyInQueue;
      ghost var f := State();
      Registered(uid);
      FindNoneWithout(f, uid);
      SetTagIndexed(f, uid, name, value);
      if uid !in messagesByUid {
        return false;
      }
      found := true;
      var m := messagesByUid[uid];
      QueueIdentified(m);
      m.tags := if value.Some? then m.tags[name := value.value] else Without(m.tags, name);
      ChangeMessage(m);
      StillIdentified(old(Pool()), m);
      Overwritten(f.messages, m);
    }

    // ---- full listing ------------------------------------------------------

    method SortByUid()
      requires Valid()
      modifies `messages
      ensures Valid() && State() == old(State()).(messages := SortMessages(old(State()).messages))
      ensures forall m <- messages :: m in old(messages)
    {
      hide Indexed, Values, SerialMap, Serials, Identified, Pool, SortMessages, SortObjects;
      ghost var f := State();
      SortedValues(messages);
      messages := SortObjects(messages);
      FewerObjects();
      PermutedIndexed(f, SortMessages(f.messages));
    }

    twostate lemma FewerObjects()
      requires old(Identified()) && forall o <- messages :: o in old(messages)
      requires messagesByUid.Values <= old(messagesByUid.Values)
      requires messagesByHref.Values <= old(messagesByHref.Values)
      requires forall o <- changedMessages :: o in old(changedMessages)
      ensures Identified()
    {
    }

    /** Where the row matching position `m` of the copy is applied. */
    method Locate(m: nat, copyLen: nat, serial: nat) returns (k: nat)
      requires m < |messages| && 0 < copyLen <= |messages|
      ensures k < |messages| && k == Landing(Values(messages), m, copyLen, serial)
    {
      ghost var values := Values(messages);
      k := m;
      if messages[m].serial != serial {
        var i := 0;
        k := 0;
        while i < copyLen
          invariant 0 <= i <= copyLen
          invariant k == if i == 0 then 0 else i - 1
          invariant forall j :: 0 <= j < i ==> values[j].serial != serial
        {
          k := i;
          if messages[i].serial == serial {
            assert values[..copyLen][i].serial == serial;
            assert forall j :: 0 <= j < i ==> values[..copyLen][j] == values[j];
            return;
          }
          i := i + 1;
        }
        assert forall j :: 0 <= j < copyLen ==> values[..copyLen][j] == values[j];
      }
    }

    /** Applies a listed row to the message at position `k`. */
    method LandRow(k: nat, it: Item)
      requires Valid() && k < |messages|
      modifies this, messages
      ensures Valid() && State() == Land(old(State()), k, it)
      ensures messages == old(messages)
    {
      hide Indexed, Identified, Replace, FolderState.ChangeFlags, Values, SerialMap;
      ghost var f := State();
      var m := messages[k];
      ValueAt(k);
      if m.href.None? {
        SetHref(m, it.href);
      }
      if m.flags != it.flags {
        ChangeFlags(m, it.flags);
      }
    }

    method SetHref(m: ExchangeMessage, href: string)
      requires Valid() && m in messages && m.href.None?
      modifies `messagesByHref, m
      ensures Valid() && messages == old(messages)
      ensures State() == FolderState.SetHref(old(State()), old(m.Value()), href)
      ensures m.Value() == old(m.Value()).(href := Some(href))
    {
      hide Indexed, Identified, Replace, SerialMap, Serials, Pool;
      ghost var f, before := State(), m.Value();
      ghost var k :| 0 <= k < |messages| && messages[k] == m;
      assert f.messages[k] == before;
      SerialMapUpdated(messagesByHref, href, m);
      m.href := Some(href);
      if href !in messagesByHref {
        messagesByHref := messagesByHref[href := m];
      }
      StillIdentified(old(Pool()), m);
      Overwritten(f.messages, m);
      SetHrefIndexed(f, before, href);
    }

    lemma MatchUnfold(f: Folder, m: nat, rest: seq<Message>, items: seq<Item>)
      requires m + |rest| <= |f.messages| && rest != [] && items != []
      ensures !items[0].Usable() ==> MatchItems(f, m, rest, items) == MatchItems(f, m, rest, items[1..])
      ensures items[0].Usable() ==>
                var tail := DropUntil(rest, items[0].uid.value);
                MatchItems(f, m, rest, items)
                == if tail == [] then f
                   else MatchItems(Land(f, Landing(f.messages, m, m + |tail|, tail[0].serial), items[0]),
                                   m + 1, tail[1..], items[1..])
    {
      hide Land, Landing, DropUntil;
    }

    lemma HighUnfold(rest: seq<Message>, items: seq<Item>, high: nat)
      requires rest != [] && items != []
      ensures !items[0].Usable() ==> ListingHigh(rest, items, high) == ListingHigh(rest, items[1..], high)
      ensures items[0].Usable() ==>
                var tail := DropUntil(rest, items[0].uid.value);
                var article := items[0].article.value;
                ListingHigh(rest, items, high)
                == if tail == [] then TrailingHigh(items[1..], if article < high then U32(article - 1) else high)
                   else ListingHigh(tail[1..], items[1..], Max(high, article))
    {
      hide DropUntil, U32;
    }

    lemma MatchDone(f: Folder, m: nat, rest: seq<Message>, items: seq<Item>, high: nat)
      requires m + |rest| <= |f.messages| && (rest == [] || items == [])
      ensures MatchItems(f, m, rest, items) == f && ListingHigh(rest, items, high) == TrailingHigh(items, high)
    {
    }

    /** The copy with everything from position `m` up to the first message of that uid removed. */
    static method DropFrom(copies: seq<Message>, m: nat, uid: string) returns (rest: seq<Message>)
      requires m <= |copies|
      ensures m <= |rest| <= |copies|
      ensures rest[m..] == DropUntil(copies[m..], uid)
    {
      hide DropUntil;
      rest := copies;
      while m < |rest| && rest[m].uid != uid
        invariant m <= |rest| <= |copies|
        invariant DropUntil(rest[m..], uid) == DropUntil(copies[m..], uid)
      {
        DropHead(rest[m..], uid);
        assert rest[m..][1..] == (rest[..m] + rest[m + 1..])[m..];
        rest := rest[..m] + rest[m + 1..];
      }
      DropHead(rest[m..], uid);
    }

    static lemma DropHead(ms: seq<Message>, uid: string)
      ensures DropUntil(ms, uid) == if ms != [] && ms[0].uid != uid then DropUntil(ms[1..], uid) else ms
    {
    }

    /** One row of the matching loop; `running` is false when it used up the copy. */
    method MatchRow(it: Item, copies: seq<Message>, m: nat, high: nat, ghost later: seq<Item>)
      returns (copies': seq<Message>, m': nat, high': nat, running: bool)
      requires Valid() && m < |copies| <= |messages|
      modifies this, messages
      ensures Valid() && messages == old(messages) && m' <= |copies'| <= |copies|
      ensures running ==>
                && MatchItems(State(), m', copies'[m'..], later) ==
                     MatchItems(old(State()), m, copies[m..], [it] + later)
                && ListingHigh(copies'[m'..], later, high') == ListingHigh(copies[m..], [it] + later, high)
      ensures !running ==>
                && State() == MatchItems(old(State()), m, copies[m..], [it] + later)
                && TrailingHigh(later, high') == ListingHigh(copies[m..], [it] + later, high)
    {
      hide Indexed, Identified, MatchItems, ListingHigh, TrailingHigh, Land, Landing, DropUntil, Values, U32;
      MatchUnfold(State(), m, copies[m..], [it] + later);
      HighUnfold(copies[m..], [it] + later, high);
      assert ([it] + later)[1..] == later;
      copies', m', high', running := copies, m, high, true;
      if it.Usable() {
        copies' := DropFrom(copies, m, it.uid.value);
        if m == |copies'| {
          if it.article.value < high {
            high' := U32(it.article.value - 1);
          }
          running := false;
        } else {
          assert copies'[m..][1..] == copies'[m + 1..];
          high' := Max(high, it.article.value);
          var k := Locate(m, |copies'|, copies'[m].serial);
          LandRow(k, it);
          m' := m + 1;
        }
      }
    }

    method GetFolderContentsOnline(listing: seq<Item>, ok: bool) returns (success: bool)
      requires Valid()
      modifies this, messages
      ensures Valid() && State() == GetContents(old(State()), listing, ok)
      ensures success == ok
      ensures forall m <- messages :: m in old(messages)
    {
      hide Indexed, Identified, MatchItems, ListingHigh, TrailingHigh, SortMessages, Values, SerialMap, Serials;
      ghost var f := State();
      SortByUid();
      ghost var g := State();
      var copies := Values(messages);
      ghost var sorted := copies;
      assert |sorted| == |multiset(f.messages)|;
      assert copies[0..] == copies && listing[0..] == listing;
      var m, r, high := 0, 0, 0;
      var running := true;
      while running && m < |copies| && r < |listing|
        invariant 0 <= m <= |copies| <= |messages| && 0 <= r <= |listing| && Valid()
        invariant forall k :: 0 <= k < |messages| ==> messages[k] in old(messages)
        invariant running ==>
                    && MatchItems(State(), m, copies[m..], listing[r..]) == MatchItems(g, 0, sorted, listing)
                    && ListingHigh(copies[m..], listing[r..], high) == ListingHigh(sorted, listing, 0)
        invariant !running ==>
                    && State() == MatchItems(g, 0, sorted, listing)
                    && TrailingHigh(listing[r..], high) == ListingHigh(sorted, listing, 0)
        decreases |listing| - r
      {
        assert listing[r..] == [listing[r]] + listing[r + 1..];
        copies, m, high, running := MatchRow(listing[r], copies, m, high, listing[r + 1..]);
        r := r + 1;
      }
      if running {
        MatchDone(State(), m, copies[m..], listing[r..], high);
      }
      high := ReadTrailing(listing[r..], high);
      if !ok {
        return false;
      }
      ghost var h := State();
      highArticleNum := high;
      SameTables(h, State());
      return true;
    }

    /** Reads the rows after the matching loop. */
    static method ReadTrailing(rows: seq<Item>, start: nat) returns (high: nat)
      ensures high == TrailingHigh(rows, start)
    {
      high := start;
      var i := 0;
      while i < |rows|
        invariant 0 <= i <= |rows|
        invariant TrailingHigh(rows[i..], high) == TrailingHigh(rows, start)
      {
        assert rows[i..][1..] == rows[i + 1..];
        if rows[i].article.Some? && rows[i].article.value <= high {
          high := U32(rows[i].article.value - 1);
        }
        i := i + 1;
      }
    }

    // ---- the flusher -------------------------------------------------------

    /** Posts and clears the pending edits of one message. */
    static method PostEdits(m: ExchangeMessage) returns (requests: seq<Request>)
      modifies m
      ensures m.Value() == Flushed(old(m.Value()))
      ensures requests == Requests(old(m.Value()))
    {
      requests := [];
      if SEEN in m.changeMask {
        m.flags := WithSeen(m.flags, SEEN in m.changeFlags);
        m.changeMask := m.changeMask - {SEEN};
      }
      if ANSWERED in m.changeMask {
        requests := requests + [Answered(m.href, ANSWERED in m.changeFlags, ANSWERED_ALL in m.changeFlags)];
        m.changeMask := m.changeMask - {ANSWERED, ANSWERED_ALL};
      }
      if FLAGGED in m.changeMask {
        requests := requests + [Importance(m.href, FLAGGED in m.changeFlags)];
        m.changeMask := m.changeMask - {FLAGGED};
      }
      if m.tags != map[] {
        requests := requests + [FollowUp(m.href, m.tags)];
        m.tags := map[];
      }
      assert m.changeMask == FlushedMask(old(m.changeMask));
    }

    method SendEdits(m: ExchangeMessage) returns (requests: seq<Request>)
      requires Valid() && m in messages
      modifies m
      ensures Valid()
      ensures State() == old(State()).(messages := Replace(old(State()).messages, Flushed(old(m.Value()))))
      ensures m.Value() == Flushed(old(m.Value()))
      ensures requests == Requests(old(m.Value()))
    {
      hide Indexed, Identified, Replace, SerialMap, Flushed, Requests;
      ghost var f, before := State(), m.Value();
      ghost var k :| 0 <= k < |messages| && messages[k] == m;
      assert f.messages[k] == before;
      requests := PostEdits(m);
      FlushedSame(before);
      Overwritten(f.messages, m);
      IndexedQueue(f);
      ReplaceIndexed(f, before, Flushed(before), State());
    }

    /** Every queued object is one of the array. */
    ghost predicate QueueInArray()
      reads `messages, `changedMessages
    {
      forall o <- changedMessages :: o in messages
    }

    lemma QueuedInArray()
      requires Valid() && Flushable(State())
      ensures QueueInArray()
    {
      hide Fetch;
      var f := State();
      forall o | o in changedMessages
        ensures o in messages
      {
        var k :| 0 <= k < |changedMessages| && changedMessages[k] == o;
        assert f.changed[k] in f.changed;
        FetchedObject(o);
      }
    }

    lemma QueuedAt(i: nat)
      requires Valid() && QueueInArray() && i < |changedMessages|
      ensures State().changed[i] == changedMessages[i].serial
      ensures Fetch(State().messages, State().changed[i]) == Some(changedMessages[i].Value())
    {
      assert changedMessages[i] in messages;
      var k :| 0 <= k < |messages| && messages[k] == changedMessages[i];
      assert Values(messages)[k].serial == changedMessages[i].serial;
      FetchedObject(changedMessages[i]);
    }

    lemma FlushUnfold(f: Folder, i: nat, m: Message)
      requires i < |f.changed| && Fetch(f.messages, f.changed[i]) == Some(m)
      ensures var g := f.(messages := Replace(f.messages, Flushed(m)));
              var h := g.(changed := RemoveFastAt(g.changed, i));
              && FlushLoop(f, i) == (if Flushed(m).changeMask == {} then FlushLoop(h, i) else FlushLoop(g, i + 1))
              && FlushLog(f, i) == [m] + (if Flushed(m).changeMask == {} then FlushLog(h, i) else FlushLog(g, i + 1))
    {
      hide Flushed, Replace;
    }

    lemma LogUnfold(m: Message, rest: seq<Message>)
      ensures AllRequests([m] + rest) == Requests(m) + AllRequests(rest)
      ensures forall seen :: ReadMarks([m] + rest, seen) ==
                             (if SEEN in m.changeMask && (SEEN in m.changeFlags) == seen then [m.href] else [])
                             + ReadMarks(rest, seen)
    {
      assert ([m] + rest)[1..] == rest;
    }

    /** Visits the queued message at position `i`; `next` is where the loop goes on. */
    method SendNext(i: nat)
      returns (next: nat, seen: seq<Option<string>>, unseen: seq<Option<string>>, requests: seq<Request>)
      requires Valid() && QueueInArray() && i < |changedMessages|
      modifies this, messages
      ensures Valid() && QueueInArray() && messages == old(messages)
      ensures next <= |changedMessages| && |changedMessages| - next < old(|changedMessages|) - i
      ensures FlushLoop(State(), next) == FlushLoop(old(State()), i)
      ensures var log, rest := FlushLog(old(State()), i), FlushLog(State(), next);
              && AllRequests(log) == requests + AllRequests(rest)
              && ReadMarks(log, true) == seen + ReadMarks(rest, true)
              && ReadMarks(log, false) == unseen + ReadMarks(rest, false)
    {
      hide Indexed, Identified, FlushLoop, FlushLog, Flushed, Requests, AllRequests, ReadMarks, Fetch, Replace,
           Values, Serials, SerialMap, RemoveFastAt;
      ghost var f := State();
      var m := changedMessages[i];
      ghost var before := m.Value();
      QueuedAt(i);
      FlushUnfold(f, i, before);
      seen, unseen := [], [];
      if SEEN in m.changeMask {
        if SEEN in m.changeFlags {
          seen := [m.href];
        } else {
          unseen := [m.href];
        }
      }
      assert m in messages;
      requests := SendEdits(m);
      if m.changeMask == {} {
        RemoveQueued(i);
        next := i;
      } else {
        next := i + 1;
      }
      LogUnfold(before, FlushLog(State(), next));
    }

    /** Sends the edits of all queued messages; read states are collected for one request each way. */
    method SendQueue() returns (seen: seq<Option<string>>, unseen: seq<Option<string>>, requests: seq<Request>)
      requires Valid() && QueueInArray()
      modifies this, messages
      ensures Valid() && QueueInArray() && messages == old(messages)
      ensures State() == FlushLoop(old(State()), 0)
      ensures var log := FlushLog(old(State()), 0);
              && requests == AllRequests(log)
              && seen == ReadMarks(log, true) && unseen == ReadMarks(log, false)
    {
      hide Indexed, Identified, FlushLoop, FlushLog, AllRequests, ReadMarks, Values, Serials, SerialMap;
      ghost var f := State();
      ghost var log := FlushLog(f, 0);
      seen, unseen, requests := [], [], [];
      var i := 0;
      while i < |changedMessages|
        invariant 0 <= i <= |changedMessages| && Valid() && QueueInArray() && messages == old(messages)
        invariant FlushLoop(State(), i) == FlushLoop(f, 0)
        invariant requests + AllRequests(FlushLog(State(), i)) == AllRequests(log)
        invariant seen + ReadMarks(FlushLog(State(), i), true) == ReadMarks(log, true)
        invariant unseen + ReadMarks(FlushLog(State(), i), false) == ReadMarks(log, false)
        decreases |changedMessages| - i
      {
        var next, read, unread, sent := SendNext(i);
        seen, unseen, requests, i := seen + read, unseen + unread, requests + sent, next;
      }
      LogDone(State(), i);
    }

    lemma LogDone(f: Folder, i: nat)
      requires i >= |f.changed|
      ensures FlushLoop(f, i) == f && FlushLog(f, i) == []
      ensures AllRequests([]) == [] && ReadMarks([], true) == [] && ReadMarks([], false) == []
    {
    }

    /** Takes position `i` out of the queue, the last entry taking its place. */
    method RemoveQueued(i: nat)
      requires Valid() && QueueInArray() && i < |changedMessages|
      modifies `changedMessages
      ensures Valid() && QueueInArray()
      ensures State() == old(State()).(changed := RemoveFastAt(old(State()).changed, i))
      ensures |changedMessages| == |old(changedMessages)| - 1
    {
      hide Indexed, Identified, Values, Serials, SerialMap, RemoveFastAt;
      ghost var f := State();
      SerialsCut(changedMessages, i);
      changedMessages := changedMessages[i := changedMessages[|changedMessages| - 1]][..|changedMessages| - 1];
      StillIdentified(old(Pool()), old(changedMessages)[i]);
      CutIndexed(f, i);
    }

    lemma CutIndexed(f: Folder, i: nat)
      requires Indexed(f) && i < |f.changed|
      ensures Indexed(f.(changed := RemoveFastAt(f.changed, i)))
    {
      assert forall s <- RemoveFastAt(f.changed, i) :: s in f.changed;
      SameIndex(f, f.(changed := RemoveFastAt(f.changed, i)));
    }

    method ClearQueue()
      requires Valid()
      modifies `changedMessages
      ensures Valid() && State() == old(State()).(changed := [])
    {
      hide Indexed, Identified, Values, SerialMap;
      ghost var f := State();
      changedMessages := [];
      FewerObjects();
      SameIndex(f, State());
    }

    /** The hrefs of the queued messages marked for deletion, in queue order. */
    method DeletedHrefs() returns (hrefs: seq<Option<string>>)
      requires Valid() && QueueInArray()
      ensures hrefs == DeletionHrefs(State().messages, State().changed)
    {
      hide Indexed, Identified, Fetch, DeletionHrefs, Values, Serials, SerialMap;
      ghost var f := State();
      hrefs := [];
      NoDeletions(f.messages);
      SerialsLength(changedMessages);
      var i := 0;
      while i < |changedMessages|
        invariant 0 <= i <= |changedMessages| == |f.changed|
        invariant hrefs == DeletionHrefs(f.messages, f.changed[..i])
      {
        var m := changedMessages[i];
        QueuedAt(i);
        OneMoreDeletion(f.messages, f.changed, i);
        if DELETED in m.changeMask * m.changeFlags {
          hrefs := hrefs + [m.href];
        } else {
          assert hrefs + [] == hrefs;
        }
        i := i + 1;
      }
      assert f.changed[..i] == f.changed;
    }

    lemma LoopDeletes()
      requires Valid()
      ensures AnyDelete(State()) <==> DeletionHrefs(State().messages, State().changed) != []
    {
      AnyDeleteIff(State());
    }

    lemma SerialsLength(s: seq<ExchangeMessage>)
      ensures |Serials(s)| == |s|
    {
    }

    lemma NoDeletions(ms: seq<Message>)
      ensures DeletionHrefs(ms, []) == []
    {
    }

    lemma OneMoreDeletion(ms: seq<Message>, q: seq<nat>, i: nat)
      requires i < |q|
      ensures var m := Fetch(ms, q[i]);
              DeletionHrefs(ms, q[..i + 1]) ==
              DeletionHrefs(ms, q[..i]) + if AsksDeletion(m) then [m.value.href] else []
    {
      assert q[..i + 1][..i] == q[..i];
    }

    /**
     One run of the flusher.  `gone` are the hrefs whose deletion the server confirms.
     The result says whether the flusher is to run again, and what was posted: requests,
     hrefs to be marked read and unread, and hrefs to be deleted.
     */
    method ProcessFlags(gone: seq<string>)
      returns (again: bool, seen: seq<Option<string>>, unseen: seq<Option<string>>, requests: seq<Request>,
               deleted: seq<Option<string>>)
      requires Valid() && Flushable(State())
      modifies this, messages
      ensures Valid() && State() == Flush(old(State()), gone)
      ensures forall m <- messages :: m in old(messages)
      ensures var log := FlushLog(old(State()), 0);
              && requests == AllRequests(log)
              && seen == ReadMarks(log, true) && unseen == ReadMarks(log, false)
      ensures again <==> AnyReadEdit(old(State())) && State().changed != []
      ensures var left := FlushLoop(old(State()), 0);
              deleted == if AnyReadEdit(old(State())) then [] else DeletionHrefs(left.messages, left.changed)
    {
      hide Indexed, Identified, FlushLoop, FlushLog, AllRequests, ReadMarks, Removals, Flushable, AnyReadEdit,
           AnyDelete, DeletionHrefs;
      ghost var f := State();
      QueuedInArray();
      ReadMarksPosted(f);
      FlushIndexed(f, gone);
      seen, unseen, requests := SendQueue();
      if seen != [] || unseen != [] {
        again, deleted := |changedMessages| != 0, [];
        return;
      }
      deleted := DeletedHrefs();
      LoopDeletes();
      if deleted != [] {
        MessagesRemoved(gone);
      }
      ClearQueue();
      again := false;
    }
  }
}
