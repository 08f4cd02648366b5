/**
 The offline journal as values.  Several folders, each with a summary, a cache and a
 queue of journal entries, and the server they will be replayed against.  A folder is
 named by its position; a message's content stands for its text and its flags.
 */
module JournalState {
  import opened Basics
  import opened MessageFlags

  /** Messages put in a folder offline get a temporary uid "-N" until they are replayed. */
  datatype Uid = Server(id: nat) | Offline(number: nat)

  datatype Entry =
    | Append(uid: Uid)
    | Transfer(uid: Uid, original: Uid, source: nat, deleteOriginal: bool)
    | Delete(uid: Uid, flags: Word, set': Word)
    | Unplayable(uid: Uid)

  datatype Local = Local(
    summary: map<Uid, string>,
    cache: map<Uid, string>,
    queue: seq<Entry>,
    nextUid: nat)

  datatype World = World(folders: seq<Local>, server: seq<map<Uid, string>>, nextServer: nat)

  // ---- journalling ---------------------------------------------------------

  function NewUid(l: Local): Uid {
    Offline(l.nextUid)
  }

  function UpdateCache(l: Local, content: string): Local {
    l.(summary := l.summary[NewUid(l) := content], cache := l.cache[NewUid(l) := content], nextUid := l.nextUid + 1)
  }

  function RemoveMessage(l: Local, uid: Uid): Local {
    if uid in l.summary then l.(summary := Without(l.summary, uid), cache := Without(l.cache, uid)) else l
  }

  function Push(l: Local, e: Entry): Local {
    l.(queue := l.queue + [e])
  }

  function JournalAppend(l: Local, content: string): Local {
    Push(UpdateCache(l, content), Append(NewUid(l)))
  }

  function JournalDelete(l: Local, uid: Uid, flags: Word, set': Word): Local {
    Push(if DELETED in flags * set' then RemoveMessage(l, uid) else l, Delete(uid, flags, set'))
  }

  /** Where a message really comes from. */
  datatype Source = FromServer(folder: nat, original: Uid) | FromAppend | Nowhere

  /** The last entry of the queue that put the message there. */
  function RealSource(queue: seq<Entry>, uid: Uid): Source {
    if queue == [] then Nowhere
    else
      var last := queue[|queue| - 1];
      if last.uid == uid && last.Transfer? then FromServer(last.source, last.original)
      else if last.uid == uid && last.Append? then FromAppend
      else RealSource(queue[..|queue| - 1], uid)
  }

  function Trash(queue: seq<Entry>, uid: Uid): seq<Entry> {
    if queue == [] then []
    else
      var last := queue[|queue| - 1];
      Trash(queue[..|queue| - 1], uid) + if last.uid == uid then [] else [last]
  }

  function FindSource(l: Local, here: nat, uid: Uid): Source {
    if uid.Server? then FromServer(here, uid) else RealSource(l.queue, uid)
  }

  /** The source folder once the message has left it. */
  function Leave(l: Local, uid: Uid): Local {
    RemoveMessage(if uid.Offline? then l.(queue := Trash(l.queue, uid)) else l, uid)
  }

  function TransferEntry(temp: Uid, s: Source, deleteOriginal: bool): Entry {
    match s
    case FromServer(folder, original) => Transfer(temp, original, folder, deleteOriginal)
    case FromAppend => Append(temp)
    case Nowhere => Unplayable(temp)
  }

  function JournalTransfer(w: World, src: nat, dst: nat, uid: Uid, del: bool): World
    requires src < |w.folders| && dst < |w.folders| && uid in w.folders[src].cache
  {
    var temp := NewUid(w.folders[dst]);
    var cached := w.folders[dst := UpdateCache(w.folders[dst], w.folders[src].cache[uid])];
    var s := FindSource(cached[src], src, uid);
    var left := if del then cached[src := Leave(cached[src], uid)] else cached;
    w.(folders := left[dst := Push(left[dst], TransferEntry(temp, s, del))])
  }

  /** Messages not in the summary are skipped; one that is not cached ends the transfer. */
  function TransferAll(w: World, src: nat, dst: nat, uids: seq<Uid>, del: bool): (w': World)
    requires src < |w.folders| && dst < |w.folders|
    ensures |w'.folders| == |w.folders| && w'.server == w.server && w'.nextServer == w.nextServer
    decreases uids
  {
    if uids == [] then w
    else if uids[0] !in w.folders[src].summary then TransferAll(w, src, dst, uids[1..], del)
    else if uids[0] !in w.folders[src].cache then w
    else TransferAll(JournalTransfer(w, src, dst, uids[0], del), src, dst, uids[1..], del)
  }

  /** Every named message that the folder has is cached. */
  ghost predicate AllCached(l: Local, uids: seq<Uid>) {
    forall uid <- uids :: uid in l.summary ==> uid in l.cache
  }

  datatype Op =
    | AppendOp(dst: nat, content: string)
    | TransferOp(src: nat, dst: nat, uids: seq<Uid>, del: bool)
    | DeleteOp(folder: nat, uid: Uid, flags: Word, set': Word)

  predicate Applies(w: World, op: Op) {
    match op
    case AppendOp(dst, _) => dst < |w.folders|
    case TransferOp(src, dst, _, _) => src < |w.folders| && dst < |w.folders|
    case DeleteOp(folder, _, _, _) => folder < |w.folders|
  }

  function Step(w: World, op: Op): (w': World)
    requires Applies(w, op)
    ensures |w'.folders| == |w.folders| && w'.server == w.server && w'.nextServer == w.nextServer
  {
    match op
    case AppendOp(dst, content) => w.(folders := w.folders[dst := JournalAppend(w.folders[dst], content)])
    case TransferOp(src, dst, uids, del) => TransferAll(w, src, dst, uids, del)
    case DeleteOp(folder, uid, flags, set') =>
      w.(folders := w.folders[folder := JournalDelete(w.folders[folder], uid, flags, set')])
  }

  function Run(w: World, ops: seq<Op>): (w': World)
    requires forall op <- ops :: Applies(w, op)
    ensures |w'.folders| == |w.folders| && w'.server == w.server && w'.nextServer == w.nextServer
    decreases ops
  {
    if ops == [] then w
    else
      assert forall op <- ops[1..] :: op in ops && Applies(w, op);
      Run(Step(w, ops[0]), ops[1..])
  }

  // ---- replaying -----------------------------------------------------------

  /** An entry to be played, and whether the server will accept what it asks for. */
  datatype Job = Job(folder: nat, entry: Entry, accepted: bool)

  /** The folder once the entry's temporary message has become `uid` on the server. */
  function Settled(l: Local, temp: Uid, uid: Uid, content: string): Local {
    RemoveMessage(l.(summary := l.summary[uid := content]), temp)
  }

  /** The queue without the first occurrence of the entry. */
  function Unlink(queue: seq<Entry>, e: Entry): seq<Entry> {
    if queue == [] then []
    else if queue[0] == e then queue[1..]
    else [queue[0]] + Unlink(queue[1..], e)
  }

  /** An entry that was played leaves the queue. */
  function Played(l: Local, e: Entry): Local {
    l.(queue := Unlink(l.queue, e))
  }

  /** Without its cached text the temporary message is given up. */
  function AppendPlayed(w: World, f: nat, temp: Uid): (w': World)
    requires |w.server| == |w.folders| && f < |w.folders|
    ensures |w'.folders| == |w.folders| && |w'.server| == |w.server|
  {
    var l := w.folders[f];
    var posted := Server(w.nextServer);
    if temp !in l.cache then w.(folders := w.folders[f := RemoveMessage(l, temp)])
    else
      w.(folders := w.folders[f := Settled(l, temp, posted, l.cache[temp])],
         server := w.server[f := w.server[f][posted := l.cache[temp]]])
  }

  /** The server accepts the message, or there is no longer a message to send. */
  predicate AppendPlays(w: World, f: nat, temp: Uid, accepted: bool)
    requires f < |w.folders|
  {
    temp in w.folders[f].cache ==> accepted
  }

  /** The server accepts the transfer and the original is where the entry looks for it. */
  predicate TransferPlays(w: World, f: nat, temp: Uid, original: Uid, source: nat, accepted: bool)
    requires |w.server| == |w.folders| && f < |w.folders|
  {
    temp in w.folders[f].cache ==> accepted && source < |w.folders| && original in w.server[source]
  }

  /** The online folder knows the message whose flags are to change. */
  predicate DeletePlays(w: World, f: nat, uid: Uid)
    requires |w.server| == |w.folders| && f < |w.folders|
  {
    uid in w.server[f]
  }

  function TransferPlayed(w: World, f: nat, temp: Uid, original: Uid, source: nat, del: bool): (w': World)
    requires |w.server| == |w.folders| && f < |w.folders| && TransferPlays(w, f, temp, original, source, true)
    ensures |w'.folders| == |w.folders| && |w'.server| == |w.server|
  {
    var l := w.folders[f];
    var posted := Server(w.nextServer);
    if temp !in l.cache then w.(folders := w.folders[f := RemoveMessage(l, temp)])
    else
      var cut := if del then w.server[source := Without(w.server[source], original)] else w.server;
      var left := if del then w.folders[source := RemoveMessage(w.folders[source], original)] else w.folders;
      w.(folders := left[f := Settled(left[f], temp, posted, l.cache[temp])],
         server := cut[f := cut[f][posted := w.server[source][original]]])
  }

  function Dequeued(w: World, j: Job): World
    requires j.folder < |w.folders|
  {
    w.(folders := w.folders[j.folder := Played(w.folders[j.folder], j.entry)])
  }

  /**
   Plays one entry; the server names new messages `Server(w.nextServer)`.  An entry that
   cannot be played stays queued and changes nothing.
   */
  function Play(w: World, j: Job): (w': World)
    requires |w.server| == |w.folders|
    ensures |w'.folders| == |w.folders| && |w'.server| == |w.server| && w'.nextServer == w.nextServer + 1
  {
    var f := j.folder;
    var r :=
      if f >= |w.folders| then w
      else
        match j.entry
        case Append(temp) => if AppendPlays(w, f, temp, j.accepted) then Dequeued(AppendPlayed(w, f, temp), j) else w
        case Transfer(temp, original, source, del) =>
          if TransferPlays(w, f, temp, original, source, j.accepted)
          then Dequeued(TransferPlayed(w, f, temp, original, source, del), j) else w
        case Delete(uid, _, _) => if DeletePlays(w, f, uid) then Dequeued(w, j) else w
        case Unplayable(_) => w;
    r.(nextServer := w.nextServer + 1)
  }

  function Replay(w: World, jobs: seq<Job>): (w': World)
    requires |w.server| == |w.folders|
    ensures |w'.folders| == |w.folders| && |w'.server| == |w.server| && w'.nextServer == w.nextServer + |jobs|
  {
    if jobs == [] then w else Play(Replay(w, jobs[..|jobs| - 1]), jobs[|jobs| - 1])
  }
}
