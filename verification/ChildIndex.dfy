/** The index a child's notifications are reported under: its position among the
    current children (domain/entity_base.go:893-911), and the index the inline check
    gives a child that is not in the collection yet (domain/aggregate_root.go:572-578). */
module ChildIndex {
  import opened AggregateStatus
  import opened Tracker
  import opened Decimals
  import opened Notifications

  /** The boundary pass: the index of the child at entry `j`, removed entries skipped. */
  function BoundaryIndex<K, V>(list: seq<Entry<K, V>>, j: nat): nat
    requires j <= |list|
  {
    if j == 0 then 0 else BoundaryIndex(list, j - 1) + if Active(list[j - 1]) then 1 else 0
  }

  /** The inline check: the number of current children. */
  method InlineIndex<K, V>(list: seq<Entry<K, V>>) returns (idx: nat)
    ensures idx == |CurrentItems(list)|
  {
    idx := 0;
    for n := 0 to |list|
      invariant idx == |CurrentItems(list[..n])|
    {
      assert list[..n + 1][..n] == list[..n];
      if list[n].current != Removed { idx := idx + 1; }
    }
    assert list[..|list|] == list;
  }

  lemma {:induction false} BoundaryIndexCounts<K, V>(list: seq<Entry<K, V>>, j: nat)
    requires j <= |list|
    ensures BoundaryIndex(list, j) == |CurrentItems(list[..j])|
  {
    if j > 0 {
      assert list[..j][..j - 1] == list[..j - 1];
      BoundaryIndexCounts(list, j - 1);
    }
  }

  lemma {:induction false} CurrentItemsExtend<K, V>(list: seq<Entry<K, V>>, j: nat)
    requires j <= |list|
    ensures CurrentItems(list[..j]) <= CurrentItems(list)
  {
    if j < |list| {
      var n := |list| - 1;
      assert list[..n][..j] == list[..j];
      CurrentItemsExtend(list[..n], j);
    } else {
      assert list[..j] == list;
    }
  }

  /** The index names the child: it is where a reader of the current children finds it. */
  lemma BoundaryIndexIsPosition<K, V>(list: seq<Entry<K, V>>, j: nat)
    requires j < |list| && Active(list[j])
    ensures BoundaryIndex(list, j) < |CurrentItems(list)|
    ensures CurrentItems(list)[BoundaryIndex(list, j)] == list[j].item
  {
    assert list[..j + 1][..j] == list[..j];
    BoundaryIndexCounts(list, j);
    CurrentItemsExtend(list, j + 1);
    assert CurrentItems(list[..j + 1])[BoundaryIndex(list, j)] == list[j].item;
  }

  lemma {:induction false} BoundaryIndexOnPrefix<K, V>(a: seq<Entry<K, V>>, b: seq<Entry<K, V>>, j: nat)
    requires j <= |a| && j <= |b| && forall k :: 0 <= k < j ==> a[k] == b[k]
    ensures BoundaryIndex(a, j) == BoundaryIndex(b, j)
  {
    if j > 0 { BoundaryIndexOnPrefix(a, b, j - 1); }
  }

  lemma {:induction false} BoundaryIndexGrows<K, V>(list: seq<Entry<K, V>>, i: nat, j: nat)
    requires i <= j <= |list|
    ensures BoundaryIndex(list, i) <= BoundaryIndex(list, j)
    ensures BoundaryIndex(list, i) == BoundaryIndex(list, j) <==> forall k :: i <= k < j ==> !Active(list[k])
    decreases j
  {
    if i < j { BoundaryIndexGrows(list, i, j - 1); }
  }

  /** An added child is reported under the same index before and after it is added
      exactly when no active child sits at or behind the place it takes; a child of a
      new identity always is. */
  lemma InlineIndexMatchesIff<K, V>(list: seq<Entry<K, V>>, item: Item<K, V>)
    requires !AddRefused(list, item)
    ensures var place := FirstMatch(list, Ident(item));
            && place < |Add(list, item)|
            && Ident(Add(list, item)[place].item) == Ident(item)
            && (|CurrentItems(list)| == BoundaryIndex(Add(list, item), place) <==>
                forall k :: place <= k < |list| ==> !Active(list[k]))
  {
    var place := FirstMatch(list, Ident(item));
    BoundaryIndexOnPrefix(list, Add(list, item), place);
    BoundaryIndexCounts(list, |list|);
    assert list[..|list|] == list;
    BoundaryIndexGrows(list, place, |list|);
  }

  /** A child with the scope its messages are reported under. */
  datatype Scope<K, V> = Scope(item: Item<K, V>, prefix: seq<PathSegment>)

  /** The boundary walk: the current children in order, numbered from zero. */
  method ChildScopes<K, V>(list: seq<Entry<K, V>>, collection: string) returns (scopes: seq<Scope<K, V>>)
    requires |list| <= MAX_INT
    ensures |scopes| == |CurrentItems(list)| <= |list|
    ensures forall k :: 0 <= k < |scopes| ==>
              scopes[k] == Scope(CurrentItems(list)[k], [NameSegment(collection), IndexSegment(k)])
  {
    scopes := [];
    var idx := 0;
    for n := 0 to |list|
      invariant idx == |scopes| == |CurrentItems(list[..n])| <= n
      invariant forall k :: 0 <= k < |scopes| ==>
                  scopes[k] == Scope(CurrentItems(list[..n])[k], [NameSegment(collection), IndexSegment(k)])
    {
      assert list[..n + 1][..n] == list[..n];
      if list[n].current == Removed { continue; }
      scopes := scopes + [Scope(list[n].item, [NameSegment(collection), IndexSegment(idx)])];
      idx := idx + 1;
    }
    assert list[..|list|] == list;
  }
}
