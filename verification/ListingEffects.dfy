/**
 What a full listing does to every message, whatever is listed: which row is matched with
 which message, which message its flags and href end up on, and where the high article number
 comes to rest.
 */
module ListingEffects {
  import opened Basics
  import opened FolderState
  import opened FolderIndex
  import opened ArticleNumbers
  import NoLostMail
  import opened RefreshCompleteness

  // ---- the match -----------------------------------------------------------

  /** The first position a further row may be matched with. */
  function After(ps: seq<nat>): nat {
    if ps == [] then 0 else ps[|ps| - 1] + 1
  }

  /** The position is that of the first message of the uid from `start` on. */
  ghost predicate FirstOf(sorted: seq<Message>, start: nat, p: nat, uid: string) {
    && start <= p < |sorted| && sorted[p].uid == uid
    && forall q :: start <= q < p ==> sorted[q].uid != uid
  }

  /** Each row in turn is matched with the first message of its uid behind the one before. */
  ghost predicate Matched(sorted: seq<Message>, rows: seq<Item>, ps: seq<nat>) {
    && |ps| <= |rows|
    && forall j :: 0 <= j < |ps| ==> rows[j].uid.Some? && FirstOf(sorted, After(ps[..j]), ps[j], rows[j].uid.value)
  }

  ghost predicate NoneFrom(sorted: seq<Message>, start: nat, uid: string) {
    forall q :: start <= q < |sorted| ==> sorted[q].uid != uid
  }

  /** Matching ends with the first row that has no such message. */
  ghost predicate WholeMatch(sorted: seq<Message>, rows: seq<Item>, ps: seq<nat>) {
    && Matched(sorted, rows, ps)
    && (|ps| < |rows| ==> rows[|ps|].uid.Some? && NoneFrom(sorted, After(ps), rows[|ps|].uid.value))
  }

  /** The message that row `j`, matched with position `p` of `n`, is applied to. */
  function LandsAt(n: nat, j: nat, p: nat): int {
    if p == j then j else if 2 * p < j + n then p else j + n - p - 1
  }

  /** The flags of the last row applied to position `i`. */
  function LandedFlags(n: nat, rows: seq<Item>, ps: seq<nat>, i: nat, own: set<nat>): set<nat>
    requires |ps| <= |rows|
  {
    if ps == [] then own
    else
      var j := |ps| - 1;
      if LandsAt(n, j, ps[j]) == i then rows[j].flags else LandedFlags(n, rows, ps[..j], i, own)
  }

  /** A message's own href, else that of the first row applied to it. */
  function LandedHref(n: nat, rows: seq<Item>, ps: seq<nat>, i: nat, own: Option<string>): Option<string>
    requires |ps| <= |rows|
  {
    if ps == [] then own
    else
      var j := |ps| - 1;
      var before := LandedHref(n, rows, ps[..j], i, own);
      if before.None? && LandsAt(n, j, ps[j]) == i then Some(rows[j].href) else before
  }

  /** Every message as the matched rows leave it. */
  ghost predicate Landed(ms: seq<Message>, sorted: seq<Message>, rows: seq<Item>, ps: seq<nat>)
    requires |ps| <= |rows|
  {
    && |ms| == |sorted|
    && forall i :: 0 <= i < |ms| ==>
         ms[i] == sorted[i].(flags := LandedFlags(|sorted|, rows, ps, i, sorted[i].flags),
                             href := LandedHref(|sorted|, rows, ps, i, sorted[i].href))
  }

  // ---- one row -------------------------------------------------------------

  ghost predicate SameSerialsAs(ms: seq<Message>, sorted: seq<Message>) {
    |ms| == |sorted| && forall i :: 0 <= i < |ms| ==> ms[i].serial == sorted[i].serial
  }

  lemma LandedSerials(ms: seq<Message>, sorted: seq<Message>, rows: seq<Item>, ps: seq<nat>)
    requires |ps| <= |rows| && Landed(ms, sorted, rows, ps)
    ensures SameSerialsAs(ms, sorted)
  {
    hide LandedFlags, LandedHref;
  }

  lemma LandsWhere(ms: seq<Message>, sorted: seq<Message>, j: nat, p: nat)
    requires SameSerialsAs(ms, sorted) && Distinct(sorted) && j <= p < |sorted|
    ensures Landing(ms, j, j + |sorted| - p, sorted[p].serial) == LandsAt(|sorted|, j, p)
    ensures 0 <= LandsAt(|sorted|, j, p) < |sorted|
  {
    var copyLen := j + |sorted| - p;
    var k := Position(ms[..copyLen], sorted[p].serial);
    if p != j {
      if p < copyLen {
        assert ms[..copyLen][p] == ms[p];
        assert k <= p;
        assert ms[..copyLen][k] == ms[k];
      }
    }
  }

  lemma LandIs(f: Folder, k: nat, it: Item)
    requires Distinct(f.messages) && k < |f.messages|
    ensures Land(f, k, it).messages == f.messages[k := Described(f.messages[k], it)]
    ensures Distinct(Land(f, k, it).messages)
  {
    var m := f.messages[k];
    assert m.(flags := m.flags) == m;
    var ms := f.messages[k := Described(m, it)];
    assert forall i :: 0 <= i < |ms| ==> ms[i].serial == f.messages[i].serial;
    assert Land(f, k, it).messages == ms;
  }

  lemma RowLands(ms: seq<Message>, sorted: seq<Message>, rows: seq<Item>, ps: seq<nat>, p: nat, k: nat)
    requires |ps| < |rows| && Landed(ms, sorted, rows, ps) && k < |ms| && LandsAt(|sorted|, |ps|, p) == k
    ensures Landed(ms[k := Described(ms[k], rows[|ps|])], sorted, rows, ps + [p])
  {
    hide LandsAt;
    var qs := ps + [p];
    assert qs[..|ps|] == ps && qs[|ps|] == p;
  }

  // ---- the article numbers -------------------------------------------------

  /** The highest article number of the rows, or 0. */
  function Highest(rows: seq<Item>): nat {
    if rows == [] then 0
    else
      var last := rows[|rows| - 1];
      Max(Highest(rows[..|rows| - 1]), if last.article.Some? then last.article.value else 0)
  }

  /** Just below one of the rows. */
  ghost predicate JustBelow(rows: seq<Item>, h: nat) {
    exists it <- rows :: it.article == Some(h + 1)
  }

  lemma {:induction false} TrailingTight(items: seq<Item>, high: nat)
    requires Numbered(items)
    ensures var h := TrailingHigh(items, high);
            && h <= high && (h == high || JustBelow(items, h))
            && forall it <- items :: it.article.Some? ==> it.article.value > h
    decreases items
  {
    TrailingHighExact(items, high);
    if items != [] {
      var article := items[0].article;
      assert items[0] in items && forall it <- items[1..] :: it in items;
      TrailingTight(items[1..], if article.Some? && article.value <= high then article.value - 1 else high);
    }
  }

  /** The high number after matching ended with `rest` unread rows, from that of the matched ones. */
  ghost predicate Settled(matched: nat, back: seq<Item>, h: nat) {
    h <= matched && (h == matched || JustBelow(back, h))
  }

  // ---- all rows ------------------------------------------------------------

  ghost predicate Suffix(back: seq<Item>, items: seq<Item>) {
    |back| <= |items| && back == items[|items| - |back|..]
  }

  lemma UsableHead(items: seq<Item>)
    requires items != []
    ensures FolderState.Usable(items) ==
            if items[0].Usable() then [items[0]] + FolderState.Usable(items[1..]) else FolderState.Usable(items[1..])
  {
  }

  lemma SuffixLater(back: seq<Item>, items: seq<Item>)
    requires items != [] && Suffix(back, items[1..])
    ensures Suffix(back, items)
  {
  }

  /** The first message of the uid in what is left of the copy. */
  lemma TailFirst(sorted: seq<Message>, start: nat, rest: seq<Message>, tail: seq<Message>, uid: string)
    requires start <= |sorted| && rest == sorted[start..] && tail == DropUntil(rest, uid)
    ensures tail == [] ==> forall q :: start <= q < |sorted| ==> sorted[q].uid != uid
    ensures tail != [] ==> FirstOf(sorted, start, |sorted| - |tail|, uid) && tail[0] == sorted[|sorted| - |tail|]
                           && tail[1..] == sorted[|sorted| - |tail| + 1..]
  {
    hide DropUntil;
    var n := |rest| - |tail|;
    forall q | start <= q < start + n
      ensures sorted[q].uid != uid
    {
      assert rest[q - start] == sorted[q];
    }
    assert tail == rest[n..];
    if tail != [] { assert rest[n] == sorted[start + n] == tail[0]; }
  }

  lemma OneMoreMatched(sorted: seq<Message>, rows: seq<Item>, ps: seq<nat>, p: nat)
    requires Matched(sorted, rows, ps) && |ps| < |rows| && rows[|ps|].uid.Some?
    requires FirstOf(sorted, After(ps), p, rows[|ps|].uid.value)
    ensures Matched(sorted, rows, ps + [p]) && After(ps + [p]) == p + 1
  {
    hide FirstOf;
    var qs := ps + [p];
    forall j | 0 <= j < |qs|
      ensures rows[j].uid.Some? && FirstOf(sorted, After(qs[..j]), qs[j], rows[j].uid.value)
    {
      if j < |ps| { assert qs[..j] == ps[..j] && qs[j] == ps[j]; } else { assert qs[..j] == ps; }
    }
  }

  lemma {:induction false} MatchedFar(sorted: seq<Message>, rows: seq<Item>, ps: seq<nat>)
    requires Matched(sorted, rows, ps)
    ensures |ps| <= After(ps)
    decreases |ps|
  {
    hide FirstOf;
    if ps != [] {
      var j := |ps| - 1;
      FirstBehind(sorted, After(ps[..j]), ps[j], rows[j].uid.value);
      assert forall i :: 0 <= i < j ==> ps[..j][..i] == ps[..i] && ps[..j][i] == ps[i];
      MatchedFar(sorted, rows, ps[..j]);
    }
  }

  lemma FirstBehind(sorted: seq<Message>, start: nat, p: nat, uid: string)
    ensures FirstOf(sorted, start, p, uid) ==> start <= p < |sorted|
  {
  }

  lemma HighestMore(rows: seq<Item>, m: nat)
    requires m < |rows| && rows[m].article.Some?
    ensures Highest(rows[..m + 1]) == Max(Highest(rows[..m]), rows[m].article.value)
  {
    assert rows[..m + 1][..m] == rows[..m];
  }

  /** One turn of the loop. */
  lemma MatchLands(f: Folder, m: nat, rest: seq<Message>, items: seq<Item>, tail: seq<Message>)
    requires m + |rest| <= |f.messages| && rest != [] && items != [] && items[0].Usable() && tail != []
    requires tail == DropUntil(rest, items[0].uid.value) && m + |tail| <= |f.messages|
    ensures MatchItems(f, m, rest, items) ==
            MatchItems(Land(f, Landing(f.messages, m, m + |tail|, tail[0].serial), items[0]), m + 1, tail[1..],
                       items[1..])
  {
    hide Land, Landing, DropUntil, FolderState.Usable;
  }

  lemma HighLands(rest: seq<Message>, items: seq<Item>, tail: seq<Message>, high: nat)
    requires rest != [] && items != [] && items[0].Usable() && tail != []
    requires tail == DropUntil(rest, items[0].uid.value)
    ensures ListingHigh(rest, items, high) == ListingHigh(tail[1..], items[1..], Max(high, items[0].article.value))
  {
    hide Max, DropUntil, TrailingHigh;
  }

  /** What that turn does with the row. */
  lemma StepLands(f: Folder, sorted: seq<Message>, rows: seq<Item>, ps: seq<nat>, tail: seq<Message>, it: Item)
    returns (p: nat)
    requires Distinct(f.messages) && Distinct(sorted) && Matched(sorted, rows, ps)
    requires Landed(f.messages, sorted, rows, ps) && |ps| < |rows|
    requires rows[|ps|] == it && it.Usable() && tail != [] && |ps| <= After(ps)
    requires |ps| + |tail| <= |sorted| && |f.messages| == |sorted|
    requires FirstOf(sorted, After(ps), |sorted| - |tail|, it.uid.value) && tail[0] == sorted[|sorted| - |tail|]
    requires tail[1..] == sorted[|sorted| - |tail| + 1..]
    ensures var g := Land(f, Landing(f.messages, |ps|, |ps| + |tail|, tail[0].serial), it);
            Distinct(g.messages) && Landed(g.messages, sorted, rows, ps + [p])
    ensures Matched(sorted, rows, ps + [p]) && After(ps + [p]) <= |sorted| && tail[1..] == sorted[After(ps + [p])..]
    ensures Highest(rows[..|ps| + 1]) == Max(Highest(rows[..|ps|]), it.article.value)
  {
    hide Distinct, Landed, Matched, Land, Landing, LandsAt, FirstOf, Highest, After, Max;
    p := |sorted| - |tail|;
    FirstBehind(sorted, After(ps), p, it.uid.value);
    LandedSerials(f.messages, sorted, rows, ps);
    LandsWhere(f.messages, sorted, |ps|, p);
    var k := Landing(f.messages, |ps|, |ps| + |tail|, tail[0].serial);
    LandIs(f, k, it);
    RowLands(f.messages, sorted, rows, ps, p, k);
    OneMoreMatched(sorted, rows, ps, p);
    HighestMore(rows, |ps|);
  }

  lemma NumberedTail(items: seq<Item>)
    requires Numbered(items) && items != []
    ensures Numbered(items[1..])
  {
    assert forall it <- items[1..] :: it in items;
  }

  lemma HeadRow(rows: seq<Item>, m: nat, it: Item, later: seq<Item>)
    requires m <= |rows| && rows[m..] == [it] + later
    ensures m < |rows| && rows[m] == it && rows[m + 1..] == later
  {
    assert rows[m] == rows[m..][0];
    assert rows[m + 1..] == rows[m..][1..];
  }

  lemma Ended(sorted: seq<Message>, rows: seq<Item>, ps: seq<nat>, items: seq<Item>)
    requires Matched(sorted, rows, ps) && After(ps) <= |sorted| && rows[|ps|..] == FolderState.Usable(items)
    requires items == [] || sorted[After(ps)..] == []
    requires forall j :: 0 <= j < |rows| ==> rows[j].Usable()
    ensures WholeMatch(sorted, rows, ps)
  {
    hide FirstOf, After;
    if |ps| < |rows| {
      assert rows[|ps|..] != [];
      assert rows[|ps|].Usable();
    }
  }

  lemma EndsHere(sorted: seq<Message>, rows: seq<Item>, ps: seq<nat>)
    requires Matched(sorted, rows, ps) && |ps| < |rows| && rows[|ps|].uid.Some?
    requires forall q :: After(ps) <= q < |sorted| ==> sorted[q].uid != rows[|ps|].uid.value
    ensures WholeMatch(sorted, rows, ps)
  {
  }

  lemma TrailingSettles(items: seq<Item>, high: nat)
    requires Numbered(items)
    ensures Settled(high, items, TrailingHigh(items, high)) && Suffix(items, items)
  {
    TrailingTight(items, high);
  }

  /** The row at which matching ends lowers the number only if it is strictly below. */
  lemma StrictSettles(items: seq<Item>, high: nat)
    requires Numbered(items) && items != [] && items[0].Usable()
    ensures var article := items[0].article.value;
            Settled(high, items, TrailingHigh(items[1..], if article < high then U32(article - 1) else high))
    ensures Suffix(items, items)
  {
    var article := items[0].article.value;
    assert items[0] in items && forall it <- items[1..] :: it in items;
    TrailingTight(items[1..], if article < high then U32(article - 1) else high);
  }

  /** A state of the loop in which the rows `ps` were matched. */
  ghost predicate Reached(f: Folder, sorted: seq<Message>, rows: seq<Item>, ps: seq<nat>, rest: seq<Message>,
                          items: seq<Item>) {
    && Distinct(f.messages) && Distinct(sorted) && Matched(sorted, rows, ps) && Landed(f.messages, sorted, rows, ps)
    && After(ps) <= |sorted| && rest == sorted[After(ps)..] && Numbered(items)
    && rows[|ps|..] == FolderState.Usable(items) && forall j :: 0 <= j < |rows| ==> rows[j].Usable()
  }

  /** How the loop and the rows behind it end. */
  ghost predicate Outcome(ms: seq<Message>, h: nat, sorted: seq<Message>, rows: seq<Item>, qs: seq<nat>,
                          back: seq<Item>, items: seq<Item>) {
    && WholeMatch(sorted, rows, qs) && Landed(ms, sorted, rows, qs)
    && Suffix(back, items) && FolderState.Usable(back) == rows[|qs|..]
    && Settled(Highest(rows[..|qs|]), back, h)
  }

  lemma ReachedFits(f: Folder, sorted: seq<Message>, rows: seq<Item>, ps: seq<nat>, rest: seq<Message>,
                    items: seq<Item>)
    requires Reached(f, sorted, rows, ps, rest, items)
    ensures |ps| + |rest| <= |f.messages| == |sorted| && |ps| <= |rows| && |ps| <= After(ps)
  {
    hide Distinct, Landed, FirstOf, After, FolderState.Usable, Numbered;
    MatchedFar(sorted, rows, ps);
    LandedSerials(f.messages, sorted, rows, ps);
  }

  lemma StopRun(f: Folder, sorted: seq<Message>, rows: seq<Item>, ps: seq<nat>, rest: seq<Message>,
                items: seq<Item>)
    requires Reached(f, sorted, rows, ps, rest, items) && (rest == [] || items == []) && |ps| <= |rows|
    ensures Outcome(f.messages, TrailingHigh(items, Highest(rows[..|ps|])), sorted, rows, ps, items, items)
  {
    hide Distinct, Landed, Matched, WholeMatch, Highest, TrailingHigh, Settled, After, FolderState.Usable, Numbered,
         Suffix;
    Ended(sorted, rows, ps, items);
    TrailingSettles(items, Highest(rows[..|ps|]));
  }

  lemma SkipRun(f: Folder, sorted: seq<Message>, rows: seq<Item>, ps: seq<nat>, rest: seq<Message>,
                items: seq<Item>)
    requires Reached(f, sorted, rows, ps, rest, items) && items != [] && !items[0].Usable()
    ensures Reached(f, sorted, rows, ps, rest, items[1..])
  {
    hide Distinct, Landed, FirstOf, After, FolderState.Usable, Numbered;
    UsableHead(items);
    NumberedTail(items);
  }

  lemma OutcomeLater(ms: seq<Message>, h: nat, sorted: seq<Message>, rows: seq<Item>, qs: seq<nat>,
                     back: seq<Item>, items: seq<Item>)
    requires items != [] && Outcome(ms, h, sorted, rows, qs, back, items[1..])
    ensures Outcome(ms, h, sorted, rows, qs, back, items)
  {
    hide Landed, WholeMatch, Highest, Settled, FolderState.Usable;
    SuffixLater(back, items);
  }

  lemma HeadReached(f: Folder, sorted: seq<Message>, rows: seq<Item>, ps: seq<nat>, rest: seq<Message>,
                    items: seq<Item>)
    requires Reached(f, sorted, rows, ps, rest, items) && items != [] && items[0].Usable()
    ensures |ps| < |rows| && rows[|ps|] == items[0] && rows[|ps| + 1..] == FolderState.Usable(items[1..])
  {
    hide Distinct, Landed, FirstOf, After, FolderState.Usable, Numbered;
    UsableHead(items);
    HeadRow(rows, |ps|, items[0], FolderState.Usable(items[1..]));
  }

  lemma MissRun(f: Folder, sorted: seq<Message>, rows: seq<Item>, ps: seq<nat>, rest: seq<Message>,
                items: seq<Item>)
    requires Reached(f, sorted, rows, ps, rest, items) && items != [] && items[0].Usable() && |ps| <= |rows|
    requires DropUntil(rest, items[0].uid.value) == []
    ensures var high, article := Highest(rows[..|ps|]), items[0].article.value;
            Outcome(f.messages, TrailingHigh(items[1..], if article < high then U32(article - 1) else high),
                    sorted, rows, ps, items, items)
  {
    hide Distinct, Landed, Matched, WholeMatch, Highest, TrailingHigh, Settled, After, FolderState.Usable, Numbered,
         DropUntil, Suffix, U32;
    HeadReached(f, sorted, rows, ps, rest, items);
    TailFirst(sorted, After(ps), rest, [], items[0].uid.value);
    EndsHere(sorted, rows, ps);
    StrictSettles(items, Highest(rows[..|ps|]));
  }

  lemma LandRun(f: Folder, sorted: seq<Message>, rows: seq<Item>, ps: seq<nat>, rest: seq<Message>,
                items: seq<Item>, tail: seq<Message>) returns (p: nat)
    requires Reached(f, sorted, rows, ps, rest, items) && items != [] && items[0].Usable()
    requires tail == DropUntil(rest, items[0].uid.value) && tail != [] && |ps| < |rows|
    requires |ps| + |tail| <= |f.messages|
    ensures var g := Land(f, Landing(f.messages, |ps|, |ps| + |tail|, tail[0].serial), items[0]);
            Reached(g, sorted, rows, ps + [p], tail[1..], items[1..])
    ensures Highest(rows[..|ps| + 1]) == Max(Highest(rows[..|ps|]), items[0].article.value)
  {
    hide Distinct, Landed, Matched, Land, Landing, DropUntil, FirstOf, Highest, After, FolderState.Usable, Numbered,
         Max;
    ReachedFits(f, sorted, rows, ps, rest, items);
    HeadReached(f, sorted, rows, ps, rest, items);
    TailFirst(sorted, After(ps), rest, tail, items[0].uid.value);
    NumberedTail(items);
    p := StepLands(f, sorted, rows, ps, tail, items[0]);
  }

  /** The loop from such a state. */
  lemma {:induction false} MatchRun(f: Folder, sorted: seq<Message>, rows: seq<Item>, ps: seq<nat>, rest: seq<Message>,
                                    items: seq<Item>) returns (qs: seq<nat>, back: seq<Item>)
    requires Reached(f, sorted, rows, ps, rest, items)
    ensures |ps| + |rest| <= |f.messages| && |ps| <= |rows|
    ensures Outcome(MatchItems(f, |ps|, rest, items).messages, ListingHigh(rest, items, Highest(rows[..|ps|])),
                    sorted, rows, qs, back, items)
    decreases items, 1
  {
    hide Reached, Outcome, Land, Landing, DropUntil, Highest, TrailingHigh, After, Max, U32;
    ReachedFits(f, sorted, rows, ps, rest, items);
    var m, high := |ps|, Highest(rows[..|ps|]);
    qs, back := ps, items;
    if rest == [] || items == [] {
      StopRun(f, sorted, rows, ps, rest, items);
    } else if !items[0].Usable() {
      SkipRun(f, sorted, rows, ps, rest, items);
      qs, back := MatchRun(f, sorted, rows, ps, rest, items[1..]);
      OutcomeLater(MatchItems(f, m, rest, items[1..]).messages, ListingHigh(rest, items[1..], high), sorted, rows, qs,
                   back, items);
    } else {
      var tail := DropUntil(rest, items[0].uid.value);
      if tail == [] {
        MissRun(f, sorted, rows, ps, rest, items);
      } else {
        qs, back := LaterRun(f, sorted, rows, ps, rest, items, tail);
      }
    }
  }

  /** The loop from a row that is matched. */
  lemma LaterRun(f: Folder, sorted: seq<Message>, rows: seq<Item>, ps: seq<nat>, rest: seq<Message>,
                 items: seq<Item>, tail: seq<Message>) returns (qs: seq<nat>, back: seq<Item>)
    requires Reached(f, sorted, rows, ps, rest, items) && rest != [] && items != [] && items[0].Usable()
    requires tail == DropUntil(rest, items[0].uid.value) && tail != []
    ensures |ps| + |rest| <= |f.messages| && |ps| <= |rows|
    ensures Outcome(MatchItems(f, |ps|, rest, items).messages, ListingHigh(rest, items, Highest(rows[..|ps|])),
                    sorted, rows, qs, back, items)
    decreases items, 0
  {
    hide Reached, Outcome, Land, Landing, DropUntil, Highest, TrailingHigh, After, Max, MatchItems, ListingHigh;
    ReachedFits(f, sorted, rows, ps, rest, items);
    HeadReached(f, sorted, rows, ps, rest, items);
    var m, high := |ps|, Highest(rows[..|ps|]);
    MatchLands(f, m, rest, items, tail);
    HighLands(rest, items, tail, high);
    var p := LandRun(f, sorted, rows, ps, rest, items, tail);
    var g := Land(f, Landing(f.messages, m, m + |tail|, tail[0].serial), items[0]);
    qs, back := MatchRun(g, sorted, rows, ps + [p], tail[1..], items[1..]);
    OutcomeLater(MatchItems(f, m, rest, items).messages, ListingHigh(rest, items, high), sorted, rows, qs, back,
                 items);
  }

  /**
   A full listing, exactly.  The usable rows are matched in turn with the messages in uid order,
   each with the first of its uid behind the one before, up to the first row that has none.  Every
   message then has the flags of the last row that landed on it and, if it had no href, that of the
   first; all else of it stays.  The new high article number is the highest matched one, or less by
   what it takes to be just below one of the rows left over.
   */
  lemma ListingExact(f: Folder, items: seq<Item>) returns (ps: seq<nat>, back: seq<Item>)
    requires Indexed(f) && Numbered(items)
    ensures var sorted, rows := SortMessages(f.messages), FolderState.Usable(items);
            && WholeMatch(sorted, rows, ps)
            && Landed(GetContents(f, items, true).messages, sorted, rows, ps)
            && Landed(GetContents(f, items, false).messages, sorted, rows, ps)
            && Suffix(back, items) && FolderState.Usable(back) == rows[|ps|..]
            && Settled(Highest(rows[..|ps|]), back, GetContents(f, items, true).highArticle)
            && GetContents(f, items, false).highArticle == f.highArticle
  {
    hide SortMessages, MatchItems, ListingHigh, Landed, WholeMatch, Settled, Numbered, Matched, Highest,
         FolderState.Usable;
    var sorted, rows := SortMessages(f.messages), FolderState.Usable(items);
    assert |sorted| == |multiset(sorted)|;
    PermutedDistinct(f.messages, sorted);
    NothingMatched(sorted, rows);
    forall j | 0 <= j < |rows|
      ensures rows[j].Usable()
    {
      assert rows[j] in rows;
    }
    assert sorted[0..] == sorted && rows[0..] == rows && rows[..0] == [];
    ps, back := MatchRun(f.(messages := sorted), sorted, rows, [], sorted, items);
    KeepsHigh(f.(messages := sorted), sorted, items);
  }

  lemma KeepsHigh(f: Folder, rest: seq<Message>, items: seq<Item>)
    requires |rest| <= |f.messages|
    ensures MatchItems(f, 0, rest, items).highArticle == f.highArticle
  {
    NoLostMail.MatchItemsQuiet(f, 0, rest, items);
  }

  lemma NothingMatched(sorted: seq<Message>, rows: seq<Item>)
    ensures Matched(sorted, rows, []) && Landed(sorted, sorted, rows, []) && Highest([]) == 0 && After([]) == 0
  {
  }

  // ---- hrefs ---------------------------------------------------------------

  /** A message's href is registered, or it is the one it had. */
  ghost predicate HrefsReached(f: Folder, g: Folder) {
    && (forall h <- f.byHref :: h in g.byHref && g.byHref[h] == f.byHref[h])
    && (forall m <- g.messages :: m.href.Some? ==>
          m.href.value in g.byHref || exists x <- f.messages :: x.serial == m.serial && x.href == m.href)
  }

  lemma LandReaches(f: Folder, g: Folder, k: nat, it: Item)
    requires Distinct(g.messages) && HrefsReached(f, g) && k < |g.messages|
    ensures HrefsReached(f, Land(g, k, it))
  {
    LandIs(g, k, it);
    var h := Land(g, k, it);
    forall m | m in h.messages && m.href.Some?
      ensures m.href.value in h.byHref || exists x <- f.messages :: x.serial == m.serial && x.href == m.href
    {
      var i :| 0 <= i < |h.messages| && h.messages[i] == m;
      assert g.messages[i] in g.messages;
    }
  }

  lemma {:induction false} MatchReaches(f: Folder, g: Folder, m: nat, rest: seq<Message>, items: seq<Item>)
    requires Distinct(g.messages) && HrefsReached(f, g) && m + |rest| <= |g.messages|
    ensures HrefsReached(f, MatchItems(g, m, rest, items))
    decreases items
  {
    hide Distinct, HrefsReached, Land, Landing, DropUntil;
    if rest != [] && items != [] {
      if !items[0].Usable() {
        MatchReaches(f, g, m, rest, items[1..]);
      } else {
        var tail := DropUntil(rest, items[0].uid.value);
        if tail != [] {
          var k := Landing(g.messages, m, m + |tail|, tail[0].serial);
          LandReaches(f, g, k, items[0]);
          LandIs(g, k, items[0]);
          MatchReaches(f, Land(g, k, items[0]), m + 1, tail[1..], items[1..]);
        }
      }
    }
  }

  /** A full listing unregisters no href, and registers every one it gives to a message. */
  lemma ListingRegisters(f: Folder, items: seq<Item>, ok: bool)
    requires Indexed(f)
    ensures HrefsReached(f, GetContents(f, items, ok))
  {
    hide MatchItems, SortMessages, ListingHigh;
    var sorted := SortMessages(f.messages);
    assert |sorted| == |multiset(sorted)|;
    var g := f.(messages := sorted);
    PermutedDistinct(f.messages, sorted);
    forall m | m in sorted
      ensures exists x <- f.messages :: x.serial == m.serial && x.href == m.href
    {
      assert m in multiset(f.messages);
    }
    MatchReaches(f, g, 0, sorted, items);
  }
}
