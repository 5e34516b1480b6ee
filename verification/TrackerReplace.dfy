/** Replacing a whole child collection (domain/aggregate_root.go:515-533): the result
    of clear-then-add-one-by-one, given in one piece, and what follows from it. */
module TrackerReplace {
  import opened AggregateStatus
  import opened Tracker
  import opened TrackerIdentity

  /** Index of the first sent item with identity `id`, or the number of items. */
  function FirstSent<K(==), V>(items: seq<Item<K, V>>, id: Identity<K>): (k: nat)
    ensures k <= |items|
    ensures k < |items| ==> Ident(items[k]) == id
    ensures forall j :: 0 <= j < k ==> Ident(items[j]) != id
  {
    if items == [] then 0
    else if Ident(items[0]) == id then 0
    else 1 + FirstSent(items[1..], id)
  }

  predicate Sent<K(==), V>(items: seq<Item<K, V>>, id: Identity<K>) {
    FirstSent(items, id) < |items|
  }

  predicate Tracked<K(==), V>(list: seq<Entry<K, V>>, id: Identity<K>) {
    FirstMatch(list, id) < |list|
  }

  /** What becomes of entry `i`: the first entry of each sent identity wakes with the
      first-sent values and its own row id; everything else is removed. */
  function Replaced<K(==), V>(list: seq<Entry<K, V>>, items: seq<Item<K, V>>, i: nat): Entry<K, V>
    requires i < |list|
  {
    var id := Ident(list[i].item);
    if FirstMatch(list, id) == i && Sent(items, id) then
      Entry(Restamp(list[i].item, items[FirstSent(items, id)]), list[i].original, Added)
    else
      list[i].(current := Removed)
  }

  /** The sent items of identities the list does not track, each once, first-sent. */
  function NewItems<K(==), V>(list: seq<Entry<K, V>>, items: seq<Item<K, V>>): seq<Item<K, V>> {
    if items == [] then []
    else
      var before, last := items[..|items| - 1], items[|items| - 1];
      NewItems(list, before) + if Tracked(list, Ident(last)) || Sent(before, Ident(last)) then [] else [last]
  }

  function Inserted<K, V>(items: seq<Item<K, V>>): seq<Entry<K, V>> {
    seq(|items|, i requires 0 <= i < |items| => Entry(items[i], Added, Added))
  }

  /** The collection after a replacement, described without running it. */
  function ReplaceResult<K(==), V>(list: seq<Entry<K, V>>, items: seq<Item<K, V>>): seq<Entry<K, V>> {
    seq(|list|, i requires 0 <= i < |list| => Replaced(list, items, i)) + Inserted(NewItems(list, items))
  }

  lemma SentSnoc<K, V>(before: seq<Item<K, V>>, last: Item<K, V>, id: Identity<K>)
    ensures Sent(before, id) ==> Sent(before + [last], id) && FirstSent(before + [last], id) == FirstSent(before, id)
    ensures !Sent(before, id) && Ident(last) == id ==> FirstSent(before + [last], id) == |before|
    ensures !Sent(before, id) && Ident(last) != id ==> !Sent(before + [last], id)
  {
    var items := before + [last];
    var k := FirstSent(items, id);
    assert k < |items| ==> Ident(items[k]) == id;
    assert k < |before| ==> items[k] == before[k];
    var b := FirstSent(before, id);
    assert b < |before| ==> items[b] == before[b];
    assert items[|before|] == last;
  }

  /** The new items are sent, untracked, and the first-sent of their identity ... */
  lemma {:induction false} NewItemsAreSent<K, V>(list: seq<Entry<K, V>>, items: seq<Item<K, V>>, j: nat)
    requires j < |NewItems(list, items)|
    ensures var it := NewItems(list, items)[j];
            !Tracked(list, Ident(it)) && Sent(items, Ident(it)) && items[FirstSent(items, Ident(it))] == it
  {
    var before, last := items[..|items| - 1], items[|items| - 1];
    assert items == before + [last];
    SentSnoc(before, last, Ident(NewItems(list, items)[j]));
    if j < |NewItems(list, before)| { NewItemsAreSent(list, before, j); }
  }

  /** ... no two of one identity ... */
  lemma {:induction false} NewItemsAreDistinct<K, V>(list: seq<Entry<K, V>>, items: seq<Item<K, V>>, i: nat, j: nat)
    requires i < j < |NewItems(list, items)|
    ensures Ident(NewItems(list, items)[i]) != Ident(NewItems(list, items)[j])
  {
    var before := items[..|items| - 1];
    NewItemsAreSent(list, before, i);
    if j < |NewItems(list, before)| { NewItemsAreDistinct(list, before, i, j); }
  }

  /** ... and every sent, untracked identity is among them. */
  lemma {:induction false} NewItemOf<K, V>(list: seq<Entry<K, V>>, items: seq<Item<K, V>>, id: Identity<K>)
     returns (j: nat)
    requires Sent(items, id) && !Tracked(list, id)
    ensures j < |NewItems(list, items)| && Ident(NewItems(list, items)[j]) == id
  {
    var before, last := items[..|items| - 1], items[|items| - 1];
    assert items == before + [last];
    SentSnoc(before, last, id);
    if Sent(before, id) {
      j := NewItemOf(list, before, id);
    } else {
      j := |NewItems(list, before)|;
    }
  }

  /** The described result, position by position. */
  lemma ResultShape<K, V>(list: seq<Entry<K, V>>, items: seq<Item<K, V>>)
    ensures var r, extra := ReplaceResult(list, items), NewItems(list, items);
            && |r| == |list| + |extra|
            && (forall i :: 0 <= i < |list| ==>
                r[i] == Replaced(list, items, i) && Ident(r[i].item) == Ident(list[i].item))
            && (forall i :: |list| <= i < |r| ==> r[i] == Entry(extra[i - |list|], Added, Added))
  {
  }

  /** Where the described result first meets an identity: where the list did, or at
      the one new entry of it. */
  lemma ResultFirstMatch<K, V>(list: seq<Entry<K, V>>, items: seq<Item<K, V>>, i: nat)
    requires i < |ReplaceResult(list, items)|
    ensures var r := ReplaceResult(list, items);
            FirstMatch(r, Ident(r[i].item)) == if i < |list| then FirstMatch(list, Ident(list[i].item)) else i
  {
    var r := ReplaceResult(list, items);
    ResultShape(list, items);
    if i < |list| {
      FirstMatchAt(r, Ident(r[i].item), FirstMatch(list, Ident(list[i].item)));
    } else {
      NewItemsAreSent(list, items, i - |list|);
      forall j | 0 <= j < i ensures Ident(r[j].item) != Ident(r[i].item) {
        if j >= |list| { NewItemsAreDistinct(list, items, j - |list|, i - |list|); }
      }
      FirstMatchAt(r, Ident(r[i].item), i);
    }
  }

  /** Entries of other identities do not notice one more item. */
  lemma ReplacedOther<K, V>(list: seq<Entry<K, V>>, before: seq<Item<K, V>>, last: Item<K, V>, i: nat)
    requires i < |list|
    requires Ident(list[i].item) != Ident(last) || FirstMatch(list, Ident(last)) != i || Sent(before, Ident(last))
    ensures Replaced(list, before + [last], i) == Replaced(list, before, i)
  {
    SentSnoc(before, last, Ident(list[i].item));
  }

  lemma {:induction false} AddTrackedToResult<K, V>(list: seq<Entry<K, V>>, before: seq<Item<K, V>>, last: Item<K, V>)
    requires Tracked(list, Ident(last))
    ensures Add(ReplaceResult(list, before), last) == ReplaceResult(list, before + [last])
  {
    var items := before + [last];
    var f := FirstMatch(list, Ident(last));
    var r, r' := ReplaceResult(list, before), ReplaceResult(list, items);
    ResultShape(list, before);
    ResultShape(list, items);
    assert items[..|items| - 1] == before;
    assert NewItems(list, items) == NewItems(list, before);
    FirstMatchAt(r, Ident(last), f);
    forall i | 0 <= i < |r| && i != f ensures r[i] == r'[i] {
      if i < |list| { ReplacedOther(list, before, last, i); }
    }
    SentSnoc(before, last, Ident(last));
    if Sent(before, Ident(last)) {
      ReplacedOther(list, before, last, f);
      assert Add(r, last) == r == r';
    } else {
      assert r' == r[f := Replaced(list, items, f)];
    }
  }

  /** What an untracked item leaves alone. */
  lemma {:induction false} UntrackedLeaves<K, V>(list: seq<Entry<K, V>>, before: seq<Item<K, V>>, last: Item<K, V>)
    requires !Tracked(list, Ident(last))
    ensures var extra := NewItems(list, before);
            NewItems(list, before + [last]) == extra + if Sent(before, Ident(last)) then [] else [last]
    ensures ReplaceResult(list, before + [last]) ==
            ReplaceResult(list, before) + if Sent(before, Ident(last)) then [] else [Entry(last, Added, Added)]
  {
    var items := before + [last];
    assert items[..|items| - 1] == before;
    ResultShape(list, before);
    ResultShape(list, items);
    forall i | 0 <= i < |list| ensures Replaced(list, items, i) == Replaced(list, before, i) {
      ReplacedOther(list, before, last, i);
    }
  }

  lemma {:induction false} AddUntrackedToResult<K, V>(list: seq<Entry<K, V>>, before: seq<Item<K, V>>, last: Item<K, V>)
    requires !Tracked(list, Ident(last))
    ensures Add(ReplaceResult(list, before), last) == ReplaceResult(list, before + [last])
  {
    var r := ReplaceResult(list, before);
    UntrackedLeaves(list, before, last);
    ResultShape(list, before);
    if Sent(before, Ident(last)) {
      var j := NewItemOf(list, before, Ident(last));
      ResultFirstMatch(list, before, |list| + j);
    } else {
      forall i | 0 <= i < |r| ensures Ident(r[i].item) != Ident(last) {
        if i >= |list| { NewItemsAreSent(list, before, i - |list|); }
      }
    }
  }

  lemma {:induction false} ReplaceIsResult<K, V>(list: seq<Entry<K, V>>, items: seq<Item<K, V>>)
    ensures Replace(list, items) == ReplaceResult(list, items)
  {
    if items == [] {
      assert Replace(list, items) == Clear(list) == ReplaceResult(list, items);
    } else {
      var before, last := items[..|items| - 1], items[|items| - 1];
      ReplaceIsResult(list, before);
      if Tracked(list, Ident(last)) {
        AddTrackedToResult(list, before, last);
      } else {
        AddUntrackedToResult(list, before, last);
      }
      assert before + [last] == items;
    }
  }

  /** From any list, duplicates included: an identity has an active entry exactly when
      it was sent, and never two. */
  lemma {:induction false} ReplaceKeepsExactlyTheSent<K, V>(
      list: seq<Entry<K, V>>, items: seq<Item<K, V>>, id: Identity<K>)
    ensures UniqueActive(Replace(list, items))
    ensures Sent(items, id) <==> exists i :: 0 <= i < |Replace(list, items)| &&
                                   Active(Replace(list, items)[i]) && Ident(Replace(list, items)[i].item) == id
  {
    ReplaceMakesUniqueActive(list, items);
    ReplaceIsResult(list, items);
    ResultShape(list, items);
    var r := Replace(list, items);
    if Sent(items, id) {
      var f := FirstMatch(list, id);
      if f < |list| {
        assert Active(r[f]) && Ident(r[f].item) == id;
      } else {
        var j := NewItemOf(list, items, id);
        assert Active(r[|list| + j]) && Ident(r[|list| + j].item) == id;
      }
    }
    forall i | 0 <= i < |r| && Active(r[i]) && Ident(r[i].item) == id ensures Sent(items, id) {
      if i >= |list| { NewItemsAreSent(list, items, i - |list|); }
    }
  }

  /** ... and that entry carries the first-sent values, under the row id already
      tracked when there is one. */
  lemma ReplaceFirstSentWins<K, V>(list: seq<Entry<K, V>>, items: seq<Item<K, V>>, i: nat)
    requires i < |Replace(list, items)| && Active(Replace(list, items)[i])
    ensures var e := Replace(list, items)[i];
            && Sent(items, Ident(e.item))
            && var sent := items[FirstSent(items, Ident(e.item))];
            var keeps := i < |list| && list[i].item.id != "" && sent.isStruct;
            e.item == sent.(id := if keeps then list[i].item.id else sent.id)
  {
    ReplaceIsResult(list, items);
    ResultShape(list, items);
    if i >= |list| { NewItemsAreSent(list, items, i - |list|); }
  }

  lemma ReplaceTracksAllSent<K, V>(list: seq<Entry<K, V>>, items: seq<Item<K, V>>)
    ensures NewItems(ReplaceResult(list, items), items) == []
  {
    var r := ReplaceResult(list, items);
    if NewItems(r, items) != [] {
      NewItemsAreSent(r, items, 0);
      var id := Ident(NewItems(r, items)[0]);
      ReplaceIsResult(list, items);
      ReplaceKeepsExactlyTheSent(list, items, id);
      assert false;
    }
  }

  /** Sending the same collection again changes nothing. */
  lemma {:induction false} ReplaceTwice<K, V>(list: seq<Entry<K, V>>, items: seq<Item<K, V>>)
    ensures Replace(Replace(list, items), items) == Replace(list, items)
  {
    var r := ReplaceResult(list, items);
    ReplaceIsResult(list, items);
    ReplaceIsResult(r, items);
    ResultShape(list, items);
    ResultShape(r, items);
    ReplaceTracksAllSent(list, items);
    forall i | 0 <= i < |r| ensures Replaced(r, items, i) == r[i] {
      ResultFirstMatch(list, items, i);
      if i >= |list| { NewItemsAreSent(list, items, i - |list|); }
    }
    assert ReplaceResult(r, items) == r;
  }

  /** On a freshly loaded collection without duplicates, the replacement resolves to
      exactly: update the rows sent again, delete the rows not sent, insert the new
      identities. */
  lemma {:induction false} ReplaceOnFreshLoad<K, V>(rows: seq<Item<K, V>>, items: seq<Item<K, V>>)
    requires UniqueEntries(Load(rows))
    ensures var r, extra := Replace(Load(rows), items), NewItems(Load(rows), items);
            && |r| == |rows| + |extra|
            && (forall i :: 0 <= i < |rows| ==> KeptOrDeleted(r[i], rows[i], items))
            && (forall i :: |rows| <= i < |r| ==> InsertedAs(r[i], extra[i - |rows|]))
  {
    var list := Load(rows);
    ReplaceIsResult(list, items);
    FreshRows(rows, list, items);
    FreshInserts(list, items);
  }

  lemma {:induction false} FreshRows<K, V>(rows: seq<Item<K, V>>, list: seq<Entry<K, V>>, items: seq<Item<K, V>>)
    requires list == Load(rows) && UniqueEntries(list)
    ensures var r := ReplaceResult(list, items);
            |list| == |rows| <= |r| && forall i :: 0 <= i < |rows| ==> KeptOrDeleted(r[i], rows[i], items)
  {
    var r := ReplaceResult(list, items);
    forall i | 0 <= i < |rows| ensures KeptOrDeleted(r[i], rows[i], items) {
      RowReplaced(rows, items, i);
    }
  }

  lemma {:induction false} FreshInserts<K, V>(list: seq<Entry<K, V>>, items: seq<Item<K, V>>)
    ensures var r, extra := ReplaceResult(list, items), NewItems(list, items);
            |r| == |list| + |extra| && forall i :: |list| <= i < |r| ==> InsertedAs(r[i], extra[i - |list|])
  {
    ResultShape(list, items);
  }

  ghost predicate KeptOrDeleted<K, V>(e: Entry<K, V>, row: Item<K, V>, items: seq<Item<K, V>>) {
    && Ident(e.item) == Ident(row)
    && OperationOf(e.original, e.current) == if Sent(items, Ident(row)) then Update else Delete
  }

  ghost predicate InsertedAs<K, V>(e: Entry<K, V>, item: Item<K, V>) {
    e.item == item && OperationOf(e.original, e.current) == Insert
  }

  lemma {:induction false} RowReplaced<K, V>(rows: seq<Item<K, V>>, items: seq<Item<K, V>>, i: nat)
    requires UniqueEntries(Load(rows)) && i < |rows|
    ensures KeptOrDeleted(Replaced(Load(rows), items, i), rows[i], items)
  {
  }
}
