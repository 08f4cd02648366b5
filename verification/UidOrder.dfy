/** Uids are compared as byte strings; sorting by uid puts them in that order. */
module UidOrder {
  import opened FolderState

  /** `strcmp` orders strings totally, and only equal strings tie. */
  lemma {:induction false} StrLeTotal(a: string, b: string)
    ensures StrLe(a, b) || StrLe(b, a)
    ensures StrLe(a, b) && StrLe(b, a) ==> a == b
    ensures StrLe(a, a)
  {
    if a != [] {
      StrLeTotal(a[1..], if b == [] then [] else b[1..]);
      assert a == [a[0]] + a[1..];
      if b != [] { assert b == [b[0]] + b[1..]; }
    }
  }

  lemma {:induction false} StrLeTransitive(a: string, b: string, c: string)
    requires StrLe(a, b) && StrLe(b, c)
    ensures StrLe(a, c)
  {
    if a != [] && b != [] && c != [] && a[0] == b[0] == c[0] {
      StrLeTransitive(a[1..], b[1..], c[1..]);
    }
  }

  ghost predicate MessagesSorted(ms: seq<Message>) {
    forall i, j :: 0 <= i < j < |ms| ==> StrLe(ms[i].uid, ms[j].uid)
  }

  lemma MessagePrepended(m: Message, rest: seq<Message>)
    requires MessagesSorted(rest) && forall x <- rest :: StrLe(m.uid, x.uid)
    ensures MessagesSorted([m] + rest)
  {
    hide StrLe;
    assert forall i :: 0 <= i < |rest| ==> rest[i] in rest;
  }

  lemma MessagesTail(sorted: seq<Message>)
    requires MessagesSorted(sorted) && sorted != []
    ensures MessagesSorted(sorted[1..]) && forall x <- sorted :: StrLe(sorted[0].uid, x.uid)
  {
    StrLeTotal(sorted[0].uid, sorted[0].uid);
    hide StrLe;
  }

  lemma InsertedMembers(m: Message, sorted: seq<Message>)
    ensures forall x <- InsertMessage(m, sorted) :: x in sorted || x == m
  {
    forall x | x in InsertMessage(m, sorted)
      ensures x in sorted || x == m
    {
      assert x in multiset(InsertMessage(m, sorted));
    }
  }

  lemma {:induction false} InsertMessageSorted(m: Message, sorted: seq<Message>)
    requires MessagesSorted(sorted)
    ensures MessagesSorted(InsertMessage(m, sorted))
  {
    hide StrLe, MessagesSorted;
    OneSorted(m);
    if sorted != [] {
      MessagesTail(sorted);
      StrLeTotal(m.uid, sorted[0].uid);
      if StrLe(m.uid, sorted[0].uid) {
        forall x | x in sorted
          ensures StrLe(m.uid, x.uid)
        {
          StrLeTransitive(m.uid, sorted[0].uid, x.uid);
        }
        MessagePrepended(m, sorted);
      } else {
        InsertMessageSorted(m, sorted[1..]);
        InsertedMembers(m, sorted[1..]);
        MessagePrepended(sorted[0], InsertMessage(m, sorted[1..]));
      }
    }
  }

  lemma OneSorted(m: Message)
    ensures MessagesSorted([]) && MessagesSorted([m])
  {
  }

  /** The full listing works on the local messages in uid order. */
  lemma {:induction false} SortMessagesSorted(ms: seq<Message>)
    ensures MessagesSorted(SortMessages(ms)) && multiset(SortMessages(ms)) == multiset(ms)
  {
    if ms != [] {
      SortMessagesSorted(ms[1..]);
      InsertMessageSorted(ms[0], SortMessages(ms[1..]));
    }
  }

  ghost predicate ItemsSorted(items: seq<Item>) {
    forall i, j :: 0 <= i < j < |items| && items[i].uid.Some? && items[j].uid.Some? ==>
                     StrLe(items[i].uid.value, items[j].uid.value)
  }

  lemma ItemPrepended(it: Item, rest: seq<Item>)
    requires ItemsSorted(rest) && it.Usable() && forall x <- rest :: x.Usable() && StrLe(it.uid.value, x.uid.value)
    ensures ItemsSorted([it] + rest)
  {
    hide StrLe;
    assert forall i :: 0 <= i < |rest| ==> rest[i] in rest;
  }

  lemma ItemsTail(sorted: seq<Item>)
    requires ItemsSorted(sorted) && sorted != [] && forall x <- sorted :: x.Usable()
    ensures ItemsSorted(sorted[1..]) && sorted[0].Usable()
    ensures forall x <- sorted :: x.Usable() && StrLe(sorted[0].uid.value, x.uid.value)
  {
    assert sorted[0].Usable();
    StrLeTotal(sorted[0].uid.value, sorted[0].uid.value);
    hide StrLe;
  }

  lemma InsertedItems(it: Item, sorted: seq<Item>)
    requires it.Usable() && forall x <- sorted :: x.Usable()
    ensures forall x <- InsertItem(it, sorted) :: x in sorted || x == it
  {
    forall x | x in InsertItem(it, sorted)
      ensures x in sorted || x == it
    {
      assert x in multiset(InsertItem(it, sorted));
    }
  }

  lemma {:induction false} InsertItemSorted(it: Item, sorted: seq<Item>)
    requires it.Usable() && ItemsSorted(sorted) && forall x <- sorted :: x.Usable()
    ensures ItemsSorted(InsertItem(it, sorted))
  {
    hide StrLe, ItemsSorted;
    OneItemSorted(it);
    if sorted != [] {
      ItemsTail(sorted);
      StrLeTotal(it.uid.value, sorted[0].uid.value);
      if StrLe(it.uid.value, sorted[0].uid.value) {
        forall x | x in sorted
          ensures StrLe(it.uid.value, x.uid.value)
        {
          StrLeTransitive(it.uid.value, sorted[0].uid.value, x.uid.value);
        }
        ItemPrepended(it, sorted);
      } else {
        InsertItemSorted(it, sorted[1..]);
        InsertedItems(it, sorted[1..]);
        ItemPrepended(sorted[0], InsertItem(it, sorted[1..]));
      }
    }
  }

  lemma OneItemSorted(it: Item)
    ensures ItemsSorted([]) && ItemsSorted([it])
  {
  }

  /** A refresh records its rows in uid order, every usable row once for each time it was sent. */
  lemma {:induction false} SortItemsSorted(items: seq<Item>)
    requires forall x <- items :: x.Usable()
    ensures ItemsSorted(SortItems(items)) && multiset(SortItems(items)) == multiset(items)
  {
    if items != [] {
      SortItemsSorted(items[1..]);
      InsertItemSorted(items[0], SortItems(items[1..]));
    }
  }
}
