/** Reading a child collection (domain/aggregate_item.go), and what each tracker call
    does to what a reader sees. */
module AggregateItems {
  import opened AggregateStatus
  import opened Options
  import opened Tracker

  method GetCurrentItems<K, V>(list: seq<Entry<K, V>>) returns (out: seq<Item<K, V>>)
    ensures out == CurrentItems(list)
  {
    out := [];
    for n := 0 to |list|
      invariant out == CurrentItems(list[..n])
    {
      assert list[..n + 1][..n] == list[..n];
      if list[n].current != Removed { out := out + [list[n].item]; }
    }
    assert list[..|list|] == list;
  }

  method FilterByOp<K, V>(list: seq<Entry<K, V>>, op: Op) returns (out: seq<Item<K, V>>)
    ensures out == ItemsByOp(list, op)
  {
    out := [];
    for n := 0 to |list|
      invariant out == ItemsByOp(list[..n], op)
    {
      assert list[..n + 1][..n] == list[..n];
      if OperationOf(list[n].original, list[n].current) == op { out := out + [list[n].item]; }
    }
    assert list[..|list|] == list;
  }

  /** The current children, order aside. */
  ghost function Seen<K, V>(list: seq<Entry<K, V>>): multiset<Item<K, V>> {
    multiset(CurrentItems(list))
  }

  /** What one entry contributes. */
  ghost function SeenAt<K, V>(e: Entry<K, V>): multiset<Item<K, V>> {
    if Active(e) then multiset{e.item} else multiset{}
  }

  lemma SeenSnoc<K, V>(list: seq<Entry<K, V>>, e: Entry<K, V>)
    ensures Seen(list + [e]) == Seen(list) + SeenAt(e)
  {
  }

  lemma {:induction false} SeenConcat<K, V>(a: seq<Entry<K, V>>, b: seq<Entry<K, V>>)
    ensures Seen(a + b) == Seen(a) + Seen(b)
  {
    if b == [] {
      assert a + b == a;
    } else {
      var n := |b| - 1;
      assert a + b == (a + b[..n]) + [b[n]] && b == b[..n] + [b[n]];
      SeenConcat(a, b[..n]);
      SeenSnoc(a + b[..n], b[n]);
      SeenSnoc(b[..n], b[n]);
    }
  }

  lemma SeenAround<K, V>(a: seq<Entry<K, V>>, e: Entry<K, V>, b: seq<Entry<K, V>>)
    ensures Seen(a + [e] + b) == Seen(a) + SeenAt(e) + Seen(b)
  {
    SeenConcat(a + [e], b);
    SeenSnoc(a, e);
  }

  lemma SwapOne<T>(a: multiset<T>, x: multiset<T>, b: multiset<T>, y: multiset<T>)
    ensures x <= a + x + b
    ensures a + x + b - x + y == a + y + b
  {
  }

  lemma SplitAround<T>(list: seq<T>, i: nat, e: T)
    requires i < |list|
    ensures list == list[..i] + [list[i]] + list[i + 1..]
    ensures list[i := e] == list[..i] + [e] + list[i + 1..]
  {
  }

  lemma SeenAfterOverwrite<K, V>(list: seq<Entry<K, V>>, i: nat, e: Entry<K, V>)
    requires i < |list|
    ensures SeenAt(list[i]) <= Seen(list)
    ensures Seen(list[i := e]) == Seen(list) - SeenAt(list[i]) + SeenAt(e)
  {
    var a, b := list[..i], list[i + 1..];
    SplitAround(list, i, e);
    SeenAround(a, list[i], b);
    SeenAround(a, e, b);
    SwapOne(Seen(a), SeenAt(list[i]), Seen(b), SeenAt(e));
  }

  /** An accepted add: one child more, with the sent values under the sent identity; or,
      over a CHANGED entry, that child in place of the one it overwrites. A refused add
      shows nothing. */
  lemma {:induction false} AddSeen<K, V>(list: seq<Entry<K, V>>, item: Item<K, V>) returns (shown: Item<K, V>)
    ensures AddRefused(list, item) ==> Seen(Add(list, item)) == Seen(list)
    ensures !AddRefused(list, item) ==>
              && shown == item.(id := shown.id)
              && var i := FirstMatch(list, Ident(item));
              && (i < |list| && list[i].item.id != "" && item.isStruct ==> shown.id == list[i].item.id)
              && Seen(Add(list, item)) ==
                 Seen(list) - (if i < |list| then SeenAt(list[i]) else multiset{}) + multiset{shown}
  {
    var i := FirstMatch(list, Ident(item));
    shown := item;
    if i == |list| {
      NewSeen(list, item);
    } else if !AddRefused(list, item) {
      shown := Restamp(list[i].item, item);
      OverwriteSeen(list, i, shown, Added);
    }
  }

  lemma {:induction false} NewSeen<K, V>(list: seq<Entry<K, V>>, item: Item<K, V>)
    ensures Seen(list + [Entry(item, Added, Added)]) == Seen(list) - multiset{} + multiset{item}
  {
    SeenSnoc(list, Entry(item, Added, Added));
  }

  lemma {:induction false} OverwriteSeen<K, V>(list: seq<Entry<K, V>>, i: nat, shown: Item<K, V>, status: Status)
    requires i < |list| && status != Removed
    ensures Seen(list[i := Entry(shown, list[i].original, status)]) == Seen(list) - SeenAt(list[i]) + multiset{shown}
  {
    SeenAfterOverwrite(list, i, Entry(shown, list[i].original, status));
  }

  /** An accepted change: the replacement as sent, in place of the first entry that
      matches the original, which it shows again if it was removed. */
  lemma ChangeSeen<K, V>(list: seq<Entry<K, V>>, original: Item<K, V>, replacement: Item<K, V>)
    ensures ChangeRefused(list, original, replacement) ==> Seen(Change(list, original, replacement)) == Seen(list)
    ensures !ChangeRefused(list, original, replacement) ==>
              Seen(Change(list, original, replacement)) ==
                Seen(list) - SeenAt(list[FirstMatch(list, Ident(original))]) + multiset{replacement}
  {
    var i := FirstMatch(list, Ident(original));
    if !ChangeRefused(list, original, replacement) {
      SeenAfterOverwrite(list, i, Entry(replacement, list[i].original, Changed));
    }
  }

  /** An accepted remove: one child of that identity less. It is refused exactly when no
      child of that identity is seen. */
  lemma RemoveSeen<K, V>(list: seq<Entry<K, V>>, item: Item<K, V>) returns (gone: Item<K, V>)
    ensures RemoveRefused(list, item) ==> Seen(Remove(list, item)) == Seen(list)
    ensures !RemoveRefused(list, item) ==>
              && Ident(gone) == Ident(item) && gone in Seen(list)
              && Seen(Remove(list, item)) == Seen(list) - multiset{gone}
    ensures RemoveRefused(list, item) <==>
            forall i :: 0 <= i < |list| && Active(list[i]) ==> Ident(list[i].item) != Ident(item)
  {
    var i := FirstActiveMatch(list, Ident(item));
    gone := item;
    if i < |list| {
      gone := list[i].item;
      SeenAfterOverwrite(list, i, list[i].(current := Removed));
    }
  }

  lemma {:induction false} ClearSeen<K, V>(list: seq<Entry<K, V>>)
    ensures Seen(Clear(list)) == multiset{}
  {
    if list != [] {
      var n := |list| - 1;
      ClearSeen(list[..n]);
      assert Clear(list) == Clear(list[..n]) + [list[n].(current := Removed)];
      SeenSnoc(Clear(list[..n]), list[n].(current := Removed));
    }
  }

  // ---- which entries are read ----

  /** The entries a read wants: the active ones, or those under one operation. */
  predicate Wanted<K, V>(op: Option<Op>, e: Entry<K, V>) {
    if op.None? then e.current != Removed else OperationOf(e.original, e.current) == op.value
  }

  /** `at` are the places of the wanted entries, in order. */
  ghost predicate Picks<K, V>(list: seq<Entry<K, V>>, op: Option<Op>, at: seq<nat>) {
    && (forall a, b :: 0 <= a < b < |at| ==> at[a] < at[b])
    && (forall a :: 0 <= a < |at| ==> at[a] < |list| && Wanted(op, list[at[a]]))
    && (forall i :: 0 <= i < |list| && Wanted(op, list[i]) ==> i in at)
  }

  ghost function ItemsAt<K, V>(list: seq<Entry<K, V>>, at: seq<nat>): (items: seq<Item<K, V>>)
    requires forall a :: 0 <= a < |at| ==> at[a] < |list|
    ensures |items| == |at|
  {
    seq(|at|, a requires 0 <= a < |at| => list[at[a]].item)
  }

  lemma PicksNext<K, V>(list: seq<Entry<K, V>>, op: Option<Op>, e: Entry<K, V>, at: seq<nat>)
    requires Picks(list, op, at)
    ensures !Wanted(op, e) ==> Picks(list + [e], op, at)
    ensures Wanted(op, e) ==> Picks(list + [e], op, at + [|list|])
  {
    var more, next := list + [e], at + [|list|];
    assert forall i :: 0 <= i < |list| ==> more[i] == list[i];
    assert forall a :: 0 <= a < |at| ==> next[a] == at[a];
    assert more[|list|] == e && next[|at|] == |list|;
    if Wanted(op, e) {
      forall i | 0 <= i < |more| && Wanted(op, more[i]) ensures i in next {
        if i < |list| { assert i in at; }
      }
    }
  }

  /** The current children are exactly the items of the entries that are not removed, and
      the children under an operation exactly those of the entries it is due for; both in
      the order of the entries. */
  lemma {:induction false} ReadsPick<K, V>(list: seq<Entry<K, V>>, op: Option<Op>) returns (at: seq<nat>)
    ensures Picks(list, op, at)
    ensures ItemsAt(list, at) == if op.None? then CurrentItems(list) else ItemsByOp(list, op.value)
  {
    at := [];
    if list != [] {
      var n := |list| - 1;
      var before, e := list[..n], list[n];
      var sofar := ReadsPick(before, op);
      assert before + [e] == list;
      PicksNext(before, op, e, sofar);
      at := if Wanted(op, e) then sofar + [n] else sofar;
      assert ItemsAt(list, sofar) == ItemsAt(before, sofar);
      assert ItemsAt(list, at) == ItemsAt(list, sofar) + if Wanted(op, e) then [e.item] else [];
    }
  }
}
