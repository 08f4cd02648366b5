/**
 Saving a contact list: the members on the server are reconciled with the edited list by
 posting commands that add and delete members.
 */
module ContactList {
  import opened Basics

  datatype Member = Member(email: string, id: Option<nat>)

  // ---- what the program does -----------------------------------------------

  /** The hash of server members; a later member replaces an earlier one with its email. */
  function Table(server: seq<Member>): map<string, Member> {
    if server == [] then map[]
    else
      var last := server[|server| - 1];
      Table(server[..|server| - 1])[last.email := last]
  }

  /** What the walk over the local members leaves: members not met, emails added, locals handled. */
  datatype Walk = Walk(unmet: map<string, Member>, added: seq<string>, handled: nat)

  /** The walk ends at the first add command, counted from `n`, that the server does not accept. */
  function WalkLocals(unmet: map<string, Member>, local: seq<string>, n: nat, accepts: nat -> bool): (w: Walk)
    ensures w.handled <= |local|
    decreases local
  {
    if local == [] then Walk(unmet, [], 0)
    else if local[0] in unmet then
      var w := WalkLocals(unmet - {local[0]}, local[1..], n, accepts);
      w.(handled := w.handled + 1)
    else if accepts(n) then
      var w := WalkLocals(unmet, local[1..], n + 1, accepts);
      w.(added := [local[0]] + w.added, handled := w.handled + 1)
    else Walk(unmet, [], 0)
  }

  /** New members get new ids. */
  function NewMembers(emails: seq<string>, nextId: nat): (r: seq<Member>)
    ensures |r| == |emails|
  {
    seq(|emails|, i requires 0 <= i < |emails| => Member(emails[i], Some(nextId + i)))
  }

  function Remaining(members: seq<Member>, ids: set<nat>): seq<Member> {
    if members == [] then []
    else if members[0].id.Some? && members[0].id.value in ids then Remaining(members[1..], ids)
    else [members[0]] + Remaining(members[1..], ids)
  }

  /** Only members with an id can be deleted, and the server may refuse even those. */
  function Deleted(unmet: map<string, Member>, refuses: set<nat>): set<nat> {
    (set email | email in unmet && unmet[email].id.Some? :: unmet[email].id.value) - refuses
  }

  function Merged(server: seq<Member>, local: seq<string>, nextId: nat, accepts: nat -> bool, refuses: set<nat>)
    : seq<Member>
  {
    var w := WalkLocals(Table(server), local, 0, accepts);
    Remaining(server + NewMembers(w.added, nextId), Deleted(w.unmet, refuses))
  }

  // ---- the program ---------------------------------------------------------

  /** The list on the server. */
  class ServerList {
    var members: seq<Member>
    var nextId: nat
    var posted: nat
    const accepts: nat -> bool
    const refuses: set<nat>

    constructor (members: seq<Member>, nextId: nat, accepts: nat -> bool, refuses: set<nat>)
      ensures this.members == members && this.nextId == nextId && posted == 0
      ensures this.accepts == accepts && this.refuses == refuses
    {
      this.members, this.nextId, this.posted := members, nextId, 0;
      this.accepts, this.refuses := accepts, refuses;
    }

    method AddMember(email: string) returns (ok: bool)
      modifies this
      ensures ok == accepts(old(posted)) && posted == old(posted) + 1
      ensures members == old(members) + if ok then [Member(email, Some(old(nextId)))] else []
      ensures nextId == old(nextId) + if ok then 1 else 0
    {
      ok := accepts(posted);
      posted := posted + 1;
      if ok {
        members := members + [Member(email, Some(nextId))];
        nextId := nextId + 1;
      }
    }

    method DeleteMember(id: nat)
      modifies `members
      ensures members == if id in refuses then old(members) else Remaining(old(members), {id})
    {
      if id !in refuses {
        members := Remaining(members, {id});
      }
    }
  }

  method FillTable(server: seq<Member>) returns (sh: map<string, Member>)
    ensures sh == Table(server)
  {
    sh := map[];
    var i := 0;
    while i < |server|
      invariant 0 <= i <= |server| && sh == Table(server[..i])
    {
      assert server[..i + 1][..i] == server[..i];
      sh := sh[server[i].email := server[i]];
      i := i + 1;
    }
    assert server[..|server|] == server;
  }

  /** The walk so far and the rest of it, from local member `l` on, make up the whole one. */
  ghost predicate Continues(whole: Walk, added: seq<string>, unmet: map<string, Member>, local: seq<string>, l: nat,
                            accepts: nat -> bool)
    requires l <= |local|
  {
    var rest := WalkLocals(unmet, local[l..], |added|, accepts);
    whole.unmet == rest.unmet && whole.added == added + rest.added
  }

  lemma WalkStart(unmet: map<string, Member>, local: seq<string>, accepts: nat -> bool)
    ensures Continues(WalkLocals(unmet, local, 0, accepts), [], unmet, local, 0, accepts)
  {
    assert local[0..] == local;
  }

  /** The member is on the server and is not to be deleted. */
  lemma WalkMet(whole: Walk, added: seq<string>, unmet: map<string, Member>, local: seq<string>, l: nat,
                accepts: nat -> bool)
    requires l < |local| && Continues(whole, added, unmet, local, l, accepts) && local[l] in unmet
    ensures Continues(whole, added, unmet - {local[l]}, local, l + 1, accepts)
  {
    assert local[l..][1..] == local[l + 1..];
  }

  /** The member is new, and the server takes it. */
  lemma WalkAdded(whole: Walk, added: seq<string>, unmet: map<string, Member>, local: seq<string>, l: nat,
                  accepts: nat -> bool)
    requires l < |local| && Continues(whole, added, unmet, local, l, accepts)
    requires local[l] !in unmet && accepts(|added|)
    ensures Continues(whole, added + [local[l]], unmet, local, l + 1, accepts)
  {
    assert local[l..][1..] == local[l + 1..];
    var later := WalkLocals(unmet, local[l + 1..], |added| + 1, accepts).added;
    assert added + ([local[l]] + later) == (added + [local[l]]) + later;
  }

  /** The member is new, and the server refuses it: the walk ends. */
  lemma WalkRefused(whole: Walk, added: seq<string>, unmet: map<string, Member>, local: seq<string>, l: nat,
                    accepts: nat -> bool)
    requires l < |local| && Continues(whole, added, unmet, local, l, accepts)
    requires local[l] !in unmet && !accepts(|added|)
    ensures unmet == whole.unmet && added == whole.added
  {
    assert added + [] == added;
  }

  lemma WalkDone(whole: Walk, added: seq<string>, unmet: map<string, Member>, local: seq<string>,
                 accepts: nat -> bool)
    requires Continues(whole, added, unmet, local, |local|, accepts)
    ensures unmet == whole.unmet && added == whole.added
  {
    assert local[|local|..] == [] && added + [] == added;
  }

  /** The loop over the local members. */
  method AddMissing(list: ServerList, sh: map<string, Member>, local: seq<string>) returns (unmet: map<string, Member>)
    requires list.posted == 0
    modifies list
    ensures var w := WalkLocals(sh, local, 0, list.accepts);
            unmet == w.unmet && list.members == old(list.members) + NewMembers(w.added, old(list.nextId))
  {
    hide WalkLocals, NewMembers, Continues;
    ghost var w := WalkLocals(sh, local, 0, list.accepts);
    ghost var before, first := list.members, list.nextId;
    ghost var added: seq<string> := [];
    unmet := sh;
    var l, ok := 0, true;
    NothingNew(first);
    WalkStart(sh, local, list.accepts);
    while l < |local| && ok
      invariant 0 <= l <= |local|
      invariant list.members == before + NewMembers(added, first)
      invariant ok ==> list.posted == |added| && list.nextId == first + |added|
      invariant ok ==> Continues(w, added, unmet, local, l, list.accepts)
      invariant !ok ==> unmet == w.unmet && added == w.added
    {
      if local[l] in unmet {
        WalkMet(w, added, unmet, local, l, list.accepts);
        unmet := unmet - {local[l]};
      } else {
        ok := list.AddMember(local[l]);
        if ok {
          NewAppended(added, local[l], first);
          WalkAdded(w, added, unmet, local, l, list.accepts);
          added := added + [local[l]];
        } else {
          WalkRefused(w, added, unmet, local, l, list.accepts);
        }
      }
      l := l + 1;
    }
    if ok {
      WalkDone(w, added, unmet, local, list.accepts);
    }
  }

  lemma NothingNew(nextId: nat)
    ensures NewMembers([], nextId) == []
  {
  }

  lemma NewAppended(emails: seq<string>, email: string, nextId: nat)
    ensures NewMembers(emails + [email], nextId) ==
            NewMembers(emails, nextId) + [Member(email, Some(nextId + |emails|))]
  {
  }

  /** The ids of the members that are no longer left to look at. */
  ghost function Posted(unmet: map<string, Member>, left: set<string>): set<nat> {
    set email | email in unmet && email !in left && unmet[email].id.Some? :: unmet[email].id.value
  }

  lemma PostedMore(unmet: map<string, Member>, left: set<string>, email: string)
    requires email in left && email in unmet
    ensures Posted(unmet, left - {email}) ==
            Posted(unmet, left) + if unmet[email].id.Some? then {unmet[email].id.value} else {}
  {
  }

  lemma PostedAll(unmet: map<string, Member>, refuses: set<nat>)
    ensures Posted(unmet, {}) - refuses == Deleted(unmet, refuses) && Posted(unmet, unmet.Keys) == {}
  {
  }

  /** Posts a delete command for every member left in the hash that has an id. */
  method RemoveMembers(list: ServerList, unmet: map<string, Member>)
    modifies list`members
    ensures list.members == Remaining(old(list.members), Deleted(unmet, list.refuses))
  {
    hide Remaining, Posted, Deleted;
    var left := unmet.Keys;
    PostedAll(unmet, list.refuses);
    RemainingAll(list.members, list.refuses);
    while left != {}
      invariant left <= unmet.Keys
      invariant list.members == Remaining(old(list.members), Posted(unmet, left) - list.refuses)
      decreases |left|
    {
      var email :| email in left;
      PostedMore(unmet, left, email);
      if unmet[email].id.Some? {
        RemainingMore(old(list.members), Posted(unmet, left), list.refuses, unmet[email].id.value);
        list.DeleteMember(unmet[email].id.value);
      }
      left := left - {email};
    }
  }

  lemma RemainingAll(members: seq<Member>, refuses: set<nat>)
    ensures Remaining(members, {} - refuses) == members
  {
    assert {} - refuses == {};
    AllRemaining(members);
  }

  /** One command more, refused or not. */
  lemma RemainingMore(members: seq<Member>, ids: set<nat>, refuses: set<nat>, id: nat)
    ensures var before := Remaining(members, ids - refuses);
            Remaining(members, (ids + {id}) - refuses) == if id in refuses then before else Remaining(before, {id})
  {
    hide Remaining;
    RemainingTwice(members, ids - refuses, id);
    assert (ids + {id}) - refuses == if id in refuses then ids - refuses else (ids - refuses) + {id};
  }

  lemma {:induction false} AllRemaining(members: seq<Member>)
    ensures Remaining(members, {}) == members
  {
    if members != [] { AllRemaining(members[1..]); }
  }

  lemma {:induction false} RemainingTwice(members: seq<Member>, ids: set<nat>, id: nat)
    ensures Remaining(Remaining(members, ids), {id}) == Remaining(members, ids + {id})
  {
    if members != [] {
      RemainingTwice(members[1..], ids, id);
      var m, rest := members[0], Remaining(members[1..], ids);
      assert ([m] + rest)[1..] == rest && ([m] + rest)[0] == m;
    }
  }

  method MergeContactLists(list: ServerList, local: seq<string>)
    requires list.posted == 0
    modifies list
    ensures list.members == Merged(old(list.members), local, old(list.nextId), list.accepts, list.refuses)
  {
    var sh := FillTable(list.members);
    var unmet := AddMissing(list, sh, local);
    RemoveMembers(list, unmet);
  }

  // ---- what it achieves ----------------------------------------------------

  function Emails(members: seq<Member>): set<string> {
    set m <- members :: m.email
  }

  function Listed(local: seq<string>): set<string> {
    set email <- local
  }

  /** A member that will be deleted if need be: the last one with its email, and with an id not refused. */
  predicate Deletable(server: seq<Member>, refuses: set<nat>, k: nat)
    requires k < |server|
  {
    && server[k].id.Some? && server[k].id.value !in refuses
    && forall j :: k < j < |server| ==> server[j].email != server[k].email
  }

  /** Ids tell members apart, and those to come are new. */
  predicate DistinctIds(server: seq<Member>, nextId: nat) {
    && (forall j, k :: 0 <= j < k < |server| && server[j].id.Some? ==> server[j].id != server[k].id)
    && (forall m <- server :: m.id.Some? ==> m.id.value < nextId)
  }

  lemma {:induction false} TableExact(server: seq<Member>)
    ensures Table(server).Keys == Emails(server)
    ensures forall email <- Table(server) :: Table(server)[email] in server && Table(server)[email].email == email
    ensures forall k :: 0 <= k < |server| && (forall j :: k < j < |server| ==> server[j].email != server[k].email) ==>
                          server[k].email in Table(server) && Table(server)[server[k].email] == server[k]
  {
    if server != [] {
      var front, last := server[..|server| - 1], server[|server| - 1];
      TableExact(front);
      assert server == front + [last];
      forall k | 0 <= k < |server| && forall j :: k < j < |server| ==> server[j].email != server[k].email
        ensures server[k].email in Table(server) && Table(server)[server[k].email] == server[k]
      {
        if k < |front| { assert server[|front|].email != server[k].email; }
      }
    }
  }

  lemma ListedCons(email: string, rest: seq<string>)
    ensures Listed([email] + rest) == {email} + Listed(rest)
  {
  }

  /** The walk meets the members whose emails are listed, and adds the others of the list. */
  lemma {:induction false} WalkExact(unmet: map<string, Member>, local: seq<string>, n: nat, accepts: nat -> bool)
    ensures var w := WalkLocals(unmet, local, n, accepts);
            && w.unmet.Keys == unmet.Keys - Listed(local[..w.handled])
            && (forall email <- w.unmet :: w.unmet[email] == unmet[email])
            && Listed(local[..w.handled]) - unmet.Keys <= Listed(w.added) <= Listed(local[..w.handled])
    decreases local
  {
    if local != [] {
      var w := WalkLocals(unmet, local, n, accepts);
      if local[0] in unmet {
        WalkExact(unmet - {local[0]}, local[1..], n, accepts);
        assert local[..w.handled] == [local[0]] + local[1..][..w.handled - 1];
        ListedCons(local[0], local[1..][..w.handled - 1]);
      } else if accepts(n) {
        WalkExact(unmet, local[1..], n + 1, accepts);
        assert local[..w.handled] == [local[0]] + local[1..][..w.handled - 1];
        ListedCons(local[0], local[1..][..w.handled - 1]);
        ListedCons(local[0], WalkLocals(unmet, local[1..], n + 1, accepts).added);
      }
    }
  }

  lemma {:induction false} RemainingExact(members: seq<Member>, ids: set<nat>)
    ensures forall m :: m in Remaining(members, ids) <==> m in members && (m.id.Some? ==> m.id.value !in ids)
  {
    if members != [] {
      RemainingExact(members[1..], ids);
      assert members == [members[0]] + members[1..];
    }
  }

  lemma NewEmails(added: seq<string>, nextId: nat)
    ensures Emails(NewMembers(added, nextId)) == Listed(added)
    ensures forall m <- NewMembers(added, nextId) :: m.id.Some? && m.id.value >= nextId
  {
    var r := NewMembers(added, nextId);
    forall email | email in added
      ensures email in Emails(r)
    {
      var i :| 0 <= i < |added| && added[i] == email;
      assert r[i] in r;
    }
  }

  /**
   What a merge leaves on the server, whether or not an add command failed: the emails
   handled before the failure, and those of members that could not be deleted.
   */
  lemma MergedEmails(server: seq<Member>, local: seq<string>, nextId: nat, accepts: nat -> bool,
                     refuses: set<nat>)
    requires DistinctIds(server, nextId)
    ensures var done := Listed(local[..WalkLocals(Table(server), local, 0, accepts).handled]);
            Emails(Merged(server, local, nextId, accepts, refuses))
            == done + (set k | 0 <= k < |server| && !Deletable(server, refuses, k) :: server[k].email)
  {
    hide Table, WalkLocals, Remaining, Deletable, NewMembers;
    var w := WalkLocals(Table(server), local, 0, accepts);
    var done := Listed(local[..w.handled]);
    var merged := Merged(server, local, nextId, accepts, refuses);
    WalkExact(Table(server), local, 0, accepts);
    TableExact(server);
    NewEmails(w.added, nextId);
    RemainingExact(server + NewMembers(w.added, nextId), Deleted(w.unmet, refuses));
    forall k: nat | k < |server|
      ensures server[k] in merged <==> server[k].email in done || !Deletable(server, refuses, k)
    {
      DeletedIff(server, w.unmet, refuses, done, nextId, k);
    }
    forall m | m in NewMembers(w.added, nextId)
      ensures m in merged
    {
      assert m.id.value >= nextId;
      NewStays(server, w.unmet, refuses, nextId, m);
    }
    Members(server, refuses, NewMembers(w.added, nextId), merged, done, w.added);
  }

  lemma NewStays(server: seq<Member>, unmet: map<string, Member>, refuses: set<nat>, nextId: nat, m: Member)
    requires DistinctIds(server, nextId) && m.id.Some? && m.id.value >= nextId
    requires forall email <- unmet :: unmet[email] in server
    ensures m.id.value !in Deleted(unmet, refuses)
  {
  }

  /** A member goes exactly when its email was not handled and it can be deleted. */
  lemma DeletedIff(server: seq<Member>, unmet: map<string, Member>, refuses: set<nat>, done: set<string>,
                   nextId: nat, k: nat)
    requires DistinctIds(server, nextId) && k < |server|
    requires unmet.Keys == Table(server).Keys - done && forall email <- unmet :: unmet[email] == Table(server)[email]
    ensures (server[k].id.Some? && server[k].id.value in Deleted(unmet, refuses)) <==>
            server[k].email !in done && Deletable(server, refuses, k)
  {
    hide Table;
    TableExact(server);
    if server[k].id.Some? && server[k].id.value in Deleted(unmet, refuses) {
      var email :| email in unmet && unmet[email].id.Some? && unmet[email].id.value == server[k].id.value;
      var j :| 0 <= j < |server| && server[j] == unmet[email];
      assert j == k;
      LastOfEmail(server, k);
    }
  }

  /** The member the table holds for an email is the last one with it. */
  lemma {:induction false} LastOfEmail(server: seq<Member>, k: nat)
    requires k < |server| && server[k].email in Table(server)
    requires server[k].id.Some? && Table(server)[server[k].email] == server[k]
    requires forall i, j :: 0 <= i < j < |server| && server[i].id.Some? ==> server[i].id != server[j].id
    ensures forall j :: k < j < |server| ==> server[j].email != server[k].email
  {
    var front, last := server[..|server| - 1], server[|server| - 1];
    assert server == front + [last];
    if k < |front| { LastOfEmail(front, k); }
  }

  lemma Members(server: seq<Member>, refuses: set<nat>, new': seq<Member>, merged: seq<Member>, done: set<string>,
                added: seq<string>)
    requires forall m <- merged :: m in server || m in new'
    requires forall m <- new' :: m in merged
    requires Emails(new') == Listed(added) && done - Emails(server) <= Listed(added) <= done
    requires forall k: nat :: k < |server| ==>
             (server[k] in merged <==> server[k].email in done || !Deletable(server, refuses, k))
    ensures Emails(merged) == done + (set k | 0 <= k < |server| && !Deletable(server, refuses, k) :: server[k].email)
  {
    hide Deletable;
    forall email | email in Emails(merged)
      ensures email in done + (set k | 0 <= k < |server| && !Deletable(server, refuses, k) :: server[k].email)
    {
      var m :| m in merged && m.email == email;
      if m in server {
        var k :| 0 <= k < |server| && server[k] == m;
      } else {
        assert email in Emails(new');
      }
    }
    forall email | email in done
      ensures email in Emails(merged)
    {
      if email in Emails(server) {
        var m :| m in server && m.email == email;
        var k :| 0 <= k < |server| && server[k] == m;
      } else {
        assert email in Emails(new');
        var m :| m in new' && m.email == email;
      }
    }
  }

  /**
   When every add command succeeds the server's emails become exactly the listed ones if
   and only if every member that is not listed can be deleted.
   */
  lemma MergeIff(server: seq<Member>, local: seq<string>, nextId: nat, accepts: nat -> bool,
                     refuses: set<nat>)
    requires DistinctIds(server, nextId) && forall n :: accepts(n)
    ensures Emails(Merged(server, local, nextId, accepts, refuses)) == Listed(local)
            <==> forall k :: 0 <= k < |server| && server[k].email !in local ==> Deletable(server, refuses, k)
  {
    hide Deletable, Merged;
    MergedEmails(server, local, nextId, accepts, refuses);
    AllHandled(Table(server), local, 0, accepts);
    assert local[..|local|] == local;
    var kept := set k | 0 <= k < |server| && !Deletable(server, refuses, k) :: server[k].email;
    assert forall k :: 0 <= k < |server| && !Deletable(server, refuses, k) ==> server[k].email in kept;
  }

  lemma {:induction false} AllHandled(unmet: map<string, Member>, local: seq<string>, n: nat, accepts: nat -> bool)
    requires forall n :: accepts(n)
    ensures WalkLocals(unmet, local, n, accepts).handled == |local|
    decreases local
  {
    if local != [] {
      if local[0] in unmet { AllHandled(unmet - {local[0]}, local[1..], n, accepts); }
      else { AllHandled(unmet, local[1..], n + 1, accepts); }
    }
  }

  /** Two members with one email: only the later one is deleted, and the email stays. */
  lemma DuplicateStays(accepts: nat -> bool)
    requires forall n :: accepts(n)
    ensures var server := [Member("a", Some(0)), Member("a", Some(1))];
            DistinctIds(server, 2) && Emails(Merged(server, [], 2, accepts, {})) == {"a"}
  {
    var server := [Member("a", Some(0)), Member("a", Some(1))];
    MergedEmails(server, [], 2, accepts, {});
    assert !Deletable(server, {}, 0) && Deletable(server, {}, 1);
    assert (set k | 0 <= k < |server| && !Deletable(server, {}, k) :: server[k].email) == {"a"};
    assert Listed([][..WalkLocals(Table(server), [], 0, accepts).handled]) == {};
  }
}
