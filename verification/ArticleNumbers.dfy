/**
 The article-number bookkeeping of a full listing: which rows it leaves to be fetched
 by the next refresh, and when it loses one.
 */
module ArticleNumbers {
  import opened Basics
  import opened MessageFlags
  import opened FolderState
  import opened FolderIndex

  /** Article numbers as a server assigns them: from 1, in 32 bits. */
  predicate Numbered(items: seq<Item>) {
    forall it <- items :: it.article.Some? ==> 1 <= it.article.value < 0x1_0000_0000
  }

  ghost function Uids(ms: seq<Message>): set<string> {
    set m <- ms :: m.uid
  }

  /** Every usable row is known locally or lies above the high article number. */
  ghost predicate NothingMissed(locals: set<string>, items: seq<Item>, high: nat) {
    forall it <- items :: it.Usable() ==> it.uid.value in locals || it.article.value > high
  }

  /**
   The row that uses up the local copy, if any, is unknown, repeats the highest article
   number matched so far, and no later row has an article number as low.
   */
  predicate Tied(locals: set<string>, rest: seq<Message>, items: seq<Item>, high: nat)
    decreases items
  {
    if rest == [] || items == [] then false
    else if !items[0].Usable() then Tied(locals, rest, items[1..], high)
    else
      var tail := DropUntil(rest, items[0].uid.value);
      var article := items[0].article.value;
      if tail != [] then Tied(locals, tail[1..], items[1..], Max(high, article))
      else
        && items[0].uid.value !in locals
        && article == high
        && forall it <- items[1..] :: it.article.Some? ==> article < it.article.value
  }

  lemma {:induction false} TrailingHighExact(items: seq<Item>, high: nat)
    requires Numbered(items)
    ensures var h := TrailingHigh(items, high);
            && h <= high
            && (forall it <- items :: it.article.Some? ==> it.article.value > h)
            && (h == high <==> forall it <- items :: it.article.Some? ==> it.article.value > high)
    decreases items
  {
    if items != [] {
      assert forall it :: it in items <==> it == items[0] || it in items[1..];
      var article := items[0].article;
      TrailingHighExact(items[1..], if article.Some? && article.value <= high then article.value - 1 else high);
    }
  }

  lemma {:induction false} ListingMissesIff(locals: set<string>, rest: seq<Message>, items: seq<Item>, high: nat)
    requires Numbered(items) && Uids(rest) <= locals
    ensures NothingMissed(locals, items, ListingHigh(rest, items, high)) <==> !Tied(locals, rest, items, high)
    decreases items
  {
    if rest == [] || items == [] {
      TrailingHighExact(items, high);
    } else {
      assert forall it :: it in items <==> it == items[0] || it in items[1..];
      if !items[0].Usable() {
        ListingMissesIff(locals, rest, items[1..], high);
      } else {
        var tail := DropUntil(rest, items[0].uid.value);
        var article := items[0].article.value;
        if tail == [] {
          TrailingHighExact(items[1..], if article < high then article - 1 else high);
        } else {
          assert tail[0] in rest;
          assert forall m <- tail[1..] :: m in rest;
          ListingMissesIff(locals, tail[1..], items[1..], Max(high, article));
        }
      }
    }
  }

  lemma SortedUids(ms: seq<Message>)
    ensures Uids(SortMessages(ms)) == Uids(ms)
  {
    forall m
      ensures m in SortMessages(ms) <==> m in ms
    {
      assert m in SortMessages(ms) <==> m in multiset(ms);
    }
  }

  /**
   No lost mail, exactly: after a full listing every usable row is known by uid or lies
   above the new high article number, so that the next refresh fetches it, unless the
   row that uses up the local copy ties with the highest number matched before it.
   */
  lemma FullListingMissesIff(f: Folder, items: seq<Item>)
    requires Numbered(items)
    ensures NothingMissed(Uids(f.messages), items, GetContents(f, items, true).highArticle)
            <==> !Tied(Uids(f.messages), SortMessages(f.messages), items, 0)
  {
    SortedUids(f.messages);
    ListingMissesIff(Uids(f.messages), SortMessages(f.messages), items, 0);
  }

  ghost predicate DistinctArticles(items: seq<Item>) {
    forall i, j :: 0 <= i < j < |items| && items[i].article.Some? ==> items[i].article != items[j].article
  }

  /** A tie needs two rows with the same article number. */
  lemma {:induction false} TieRepeatsArticle(locals: set<string>, rest: seq<Message>, items: seq<Item>, high: nat)
    requires DistinctArticles(items)
    requires forall it <- items :: it.article != Some(high)
    ensures !Tied(locals, rest, items, high)
    decreases items
  {
    hide DropUntil;
    if rest != [] && items != [] {
      var later := items[1..];
      assert forall i :: 0 <= i < |later| ==> later[i] == items[i + 1];
      if !items[0].Usable() {
        TieRepeatsArticle(locals, rest, items[1..], high);
      } else {
        var tail := DropUntil(rest, items[0].uid.value);
        if tail != [] {
          TieRepeatsArticle(locals, tail[1..], items[1..], Max(high, items[0].article.value));
        }
      }
    }
  }

  /** With distinct article numbers a full listing misses nothing. */
  lemma FullListingMissesNothing(f: Folder, items: seq<Item>)
    requires Numbered(items) && DistinctArticles(items)
    ensures NothingMissed(Uids(f.messages), items, GetContents(f, items, true).highArticle)
  {
    FullListingMissesIff(f, items);
    TieRepeatsArticle(Uids(f.messages), SortMessages(f.messages), items, 0);
  }

  const TWO_ROWS := [Row("a", Some("/a"), {}), Row("b", Some("/b"), {})]

  function Two(first: Word): seq<Message> {
    [Message("a", Some("/a"), 0, first, {}, {}, map[]), Message("b", Some("/b"), 1, {}, {}, {}, map[])]
  }

  lemma TwoLoaded()
    ensures Load(TWO_ROWS, 0).messages == Two({})
  {
    var f := Add(EMPTY, "a", Some("/a"), {});
    assert TWO_ROWS[1..] == [TWO_ROWS[1]] && TWO_ROWS[1..][1..] == [];
    assert LoadRows(EMPTY, TWO_ROWS) == LoadRows(f, [TWO_ROWS[1]]) == LoadRows(Add(f, "b", Some("/b"), {}), []);
  }

  lemma InsertedFirst(a: Message, b: Message)
    requires StrLe(a.uid, b.uid)
    ensures SortMessages([a, b]) == [a, b]
  {
    hide StrLe;
    assert [a, b][1..] == [b] && [b][1..] == [];
    assert SortMessages([b]) == InsertMessage(b, SortMessages([]));
  }

  lemma OnlyOther(c: Message, uid: string)
    requires c.uid != uid
    ensures DropUntil([c], uid) == []
  {
    assert [c][1..] == [];
  }

  lemma FirstStays(a: Message, c: Message, uid: string)
    requires a.uid == uid
    ensures DropUntil([a, c], uid) == [a, c] && [a, c][1..] == [c]
  {
  }

  const FIVE_A := Item(Some("a"), Some(5), "/a", {})
  const FIVE_X := Item(Some("x"), Some(5), "/x", {})

  /** The second of the two rows uses up the local copy. */
  lemma TieAtEnd(locals: set<string>, c: Message)
    requires DropUntil([c], "x") == [] && "x" !in locals
    ensures ListingHigh([c], [FIVE_X], 5) == 5 && Tied(locals, [c], [FIVE_X], 5)
  {
    hide DropUntil;
    assert [FIVE_X][1..] == [];
  }

  lemma TwoRowsTie(locals: set<string>, a: Message, c: Message)
    requires a.uid == "a" && c.uid != "x" && "x" !in locals
    ensures ListingHigh([a, c], [FIVE_A, FIVE_X], 0) == 5 && Tied(locals, [a, c], [FIVE_A, FIVE_X], 0)
  {
    hide DropUntil;
    var items := [FIVE_A, FIVE_X];
    FirstStays(a, c, "a");
    OnlyOther(c, "x");
    TieAtEnd(locals, c);
    assert items[1..] == [FIVE_X];
    assert ListingHigh([a, c], items, 0) == ListingHigh([c], [FIVE_X], 5);
    assert Tied(locals, [a, c], items, 0) == Tied(locals, [c], [FIVE_X], 5);
  }

  /**
   A tie: two messages are loaded and two rows are listed, both numbered 5.  The second row is
   unknown and uses up the local copy, and afterwards it is neither known nor above 5.
   */
  lemma TieLosesRow()
    ensures var f, items := Load(TWO_ROWS, 0), [FIVE_A, FIVE_X];
            var g := GetContents(f, items, true);
            && Numbered(items) && "x" !in Uids(f.messages) && g.highArticle == 5
            && !NothingMissed(Uids(f.messages), items, g.highArticle)
  {
    hide SortMessages, LoadRows, ListingHigh, Tied, MatchItems;
    var f, items, ms := Load(TWO_ROWS, 0), [FIVE_A, FIVE_X], Two({});
    TwoLoaded();
    assert StrLe(ms[0].uid, ms[1].uid);
    InsertedFirst(ms[0], ms[1]);
    TwoRowsTie(Uids(f.messages), ms[0], ms[1]);
    FullListingMissesIff(f, items);
  }

  /** The numbers must start at 1: a trailing row numbered 0 wraps the high number around. */
  lemma ZeroArticleWraps()
    ensures ListingHigh([], [Item(Some("x"), Some(7), "/x", {}), Item(Some("y"), Some(0), "/y", {})], 0) == 0xFFFF_FFFF
  {
    var items := [Item(Some("x"), Some(7), "/x", {}), Item(Some("y"), Some(0), "/y", {})];
    assert items[1..] == [items[1]] && items[1..][1..] == [];
    assert TrailingHigh(items[1..], 0) == TrailingHigh([], 0xFFFF_FFFF);
  }

  // ---- where the flags of a matched row land -------------------------------

  /**
   With `m` rows matched and `d` local messages passed over, the row matching position
   `m + d` of the sorted array changes exactly that message if and only if nothing was
   passed over yet or `m + 2 * d` is still inside the array.
   */
  lemma FlagsLandIff(ms: seq<Message>, m: nat, d: nat)
    requires Distinct(ms) && m + d < |ms|
    ensures Landing(ms, m, |ms| - d, ms[m + d].serial) == m + d <==> d == 0 || m + 2 * d < |ms|
  {
    if d > 0 {
      var copyLen := |ms| - d;
      var k := Position(ms[..copyLen], ms[m + d].serial);
      if m + d < copyLen {
        assert ms[..copyLen][m + d] == ms[m + d];
        assert k <= m + d;
        assert ms[..copyLen][k] == ms[k];
      }
    }
  }

  lemma FirstPassedOver(a: Message, b: Message)
    requires a.uid != b.uid && a.serial != b.serial
    ensures DropUntil([a, b], b.uid) == [b] && Landing([a, b], 0, 1, b.serial) == 0
  {
    assert [a, b][1..] == [b] && [a, b][..1] == [a] && [a][1..] == [];
  }

  lemma TwoSorted()
    ensures SortMessages(Two({})) == Two({}) && DropUntil(Two({}), "b") == Two({})[1..]
    ensures Landing(Two({}), 0, 1, 1) == 0
  {
    hide SortMessages, DropUntil, Landing;
    var ms := Two({});
    assert StrLe(ms[0].uid, ms[1].uid);
    InsertedFirst(ms[0], ms[1]);
    FirstPassedOver(ms[0], ms[1]);
  }

  /** The server lists only "b", as read: the client marks "a" read and leaves "b" unread. */
  lemma FlagsLandOnAnother()
    ensures GetContents(Load(TWO_ROWS, 0), [Item(Some("b"), Some(5), "/b", {SEEN})], true).messages == Two({SEEN})
  {
    hide SortMessages, LoadRows, DropUntil, Landing;
    var f, it := Load(TWO_ROWS, 0), Item(Some("b"), Some(5), "/b", {SEEN});
    TwoLoaded();
    TwoSorted();
    var g := f.(messages := Two({}));
    assert [it][1..] == [] && |Two({})[1..]| == 1;
    assert Land(g, 0, it).messages == Two({SEEN});
    assert MatchItems(g, 0, Two({}), [it]) == MatchItems(Land(g, 0, it), 1, Two({})[1..][1..], []);
  }
}
