/** The aggregate root's child collections: the in-place primitives and the guarded
    ones on top of them (domain/aggregate_root.go). Each method is proved against a
    function of the root's state built from Tracker.dfy. */
module AggregateRoots {
  import opened AggregateStatus
  import opened Options
  import opened Tracker
  import opened TrackerIdentity
  import opened Snapshots

  datatype NoticeKind = EntityAlreadyAdded | EntityDoesNotExist | InvalidAggregateChild

  /** A notification of the tracker; `about` is the child type it points at. */
  datatype Notice = Notice(kind: NoticeKind, about: Option<string>)

  /** What a root's tracker holds. `ready` is false until the first write: the
      map is created on demand. */
  datatype Root<K, V> = Root(
    ready: bool,
    aggregates: map<string, seq<Entry<K, V>>>,
    messages: seq<Notice>)

  function ListOf<K, V>(aggregates: map<string, seq<Entry<K, V>>>, typeName: string): seq<Entry<K, V>> {
    if typeName in aggregates then aggregates[typeName] else []
  }

  function Notify<K, V>(r: Root<K, V>, kind: NoticeKind, about: Option<string>): Root<K, V> {
    r.(messages := r.messages + [Notice(kind, about)])
  }

  function Put<K, V>(r: Root<K, V>, typeName: string, list: seq<Entry<K, V>>): Root<K, V> {
    r.(ready := true, aggregates := r.aggregates[typeName := list])
  }

  // ---- the unguarded primitives ----

  function LoadItems<K, V>(r: Root<K, V>, items: seq<Option<Item<K, V>>>): Root<K, V> {
    if items == [] then r.(ready := true)
    else
      var before, last := LoadItems(r, items[..|items| - 1]), items[|items| - 1];
      if last.None? then Notify(before, EntityDoesNotExist, None)
      else
        var key := last.value.typeName;
        Put(before, key, ListOf(before.aggregates, key) + [Entry(last.value, Constructor, Constructor)])
  }

  function AddItem<K(==), V>(r: Root<K, V>, item: Option<Item<K, V>>): Root<K, V> {
    if item.None? then Notify(r, EntityDoesNotExist, None)
    else
      var key := item.value.typeName;
      var list := ListOf(r.aggregates, key);
      if AddRefused(list, item.value) then Notify(r.(ready := true), EntityAlreadyAdded, Some(key))
      else Put(r, key, Add(list, item.value))
  }

  function ChangeItem<K(==), V>(
      r: Root<K, V>, original: Option<Item<K, V>>, replacement: Option<Item<K, V>>): Root<K, V>
  {
    if original.None? || replacement.None? then Notify(r, EntityDoesNotExist, None)
    else
      var key := original.value.typeName;
      var list := ListOf(r.aggregates, key);
      if FirstMatch(list, Ident(original.value)) == |list| then
        Notify(r.(ready := true), EntityDoesNotExist, Some(key))
      else if ChangeRefused(list, original.value, replacement.value) then
        Notify(r.(ready := true), EntityAlreadyAdded, Some(key))
      else Put(r, key, Change(list, original.value, replacement.value))
  }

  function RemoveItem<K(==), V>(r: Root<K, V>, item: Option<Item<K, V>>): Root<K, V> {
    if item.None? then Notify(r, EntityDoesNotExist, None)
    else
      var key := item.value.typeName;
      var list := ListOf(r.aggregates, key);
      if RemoveRefused(list, item.value) then Notify(r.(ready := true), EntityDoesNotExist, Some(key))
      else Put(r, key, Remove(list, item.value))
  }

  function ClearType<K, V>(r: Root<K, V>, typeName: string): Root<K, V> {
    if !r.ready then r else Put(r, typeName, Clear(ListOf(r.aggregates, typeName)))
  }

  // ---- the primitives guarded by the root's declared child types ----

  predicate Allowed<K, V>(declared: set<string>, item: Option<Item<K, V>>) {
    item.Some? && item.value.typeName in declared
  }

  function RejectChild<K, V>(r: Root<K, V>, item: Option<Item<K, V>>): Root<K, V> {
    Notify(r, InvalidAggregateChild, if item.None? then None else Some(item.value.typeName))
  }

  function AddChild<K(==), V>(r: Root<K, V>, declared: set<string>, item: Option<Item<K, V>>): Root<K, V> {
    if !Allowed(declared, item) then RejectChild(r, item) else AddItem(r, item)
  }

  function ChangeChild<K(==), V>(
      r: Root<K, V>, declared: set<string>, original: Option<Item<K, V>>, replacement: Option<Item<K, V>>): Root<K, V>
  {
    if !Allowed(declared, original) then RejectChild(r, original)
    else if !Allowed(declared, replacement) then RejectChild(r, replacement)
    else ChangeItem(r, original, replacement)
  }

  function RemoveChild<K(==), V>(r: Root<K, V>, declared: set<string>, item: Option<Item<K, V>>): Root<K, V> {
    if !Allowed(declared, item) then RejectChild(r, item) else RemoveItem(r, item)
  }

  function AddChildren<K(==), V>(r: Root<K, V>, declared: set<string>, items: seq<Option<Item<K, V>>>): Root<K, V> {
    if items == [] then r
    else AddChild(AddChildren(r, declared, items[..|items| - 1]), declared, items[|items| - 1])
  }

  function ReplaceChildren<K(==), V>(
      r: Root<K, V>, declared: set<string>, typeName: string, items: seq<Option<Item<K, V>>>): Root<K, V>
  {
    AddChildren(ClearType(r, typeName), declared, items)
  }

  /** The first `i` entries removed. */
  ghost function ClearedTo<K, V>(list: seq<Entry<K, V>>, i: nat): seq<Entry<K, V>> {
    seq(|list|, j requires 0 <= j < |list| => if j < i then list[j].(current := Removed) else list[j])
  }

  lemma ClearedOne<K, V>(list: seq<Entry<K, V>>, i: nat)
    requires i < |list|
    ensures ClearedTo(list, i)[i := ClearedTo(list, i)[i].(current := Removed)] == ClearedTo(list, i + 1)
  {
  }

  lemma PutTwice<K, V>(r: Root<K, V>, key: string, a: seq<Entry<K, V>>, b: seq<Entry<K, V>>)
    ensures Put(Put(r, key, a), key, b) == Put(r, key, b)
  {
  }

  ghost predicate NoneBefore<K, V>(list: seq<Entry<K, V>>, i: nat, id: Identity<K>, activeOnly: bool) {
    i <= |list| && forall j :: 0 <= j < i ==> !(Ident(list[j].item) == id && (activeOnly ==> Active(list[j])))
  }

  lemma FoundAt<K, V>(list: seq<Entry<K, V>>, i: nat, id: Identity<K>, activeOnly: bool)
    requires NoneBefore(list, i, id, activeOnly)
    requires i < |list| ==> Ident(list[i].item) == id && (activeOnly ==> Active(list[i]))
    ensures i == if activeOnly then FirstActiveMatch(list, id) else FirstMatch(list, id)
  {
  }

  /** What a scan of the first `i` entries knows: the first of one identity, and whether an
      active one beside it holds the other. */
  ghost predicate Scanned<K, V>(
      list: seq<Entry<K, V>>, i: nat, target: int, collision: int, original: Identity<K>, replacement: Identity<K>)
  {
    && i <= |list| && -1 <= target < i && -1 <= collision < i
    && (if target < 0 then forall j :: 0 <= j < i ==> Ident(list[j].item) != original
        else target == FirstMatch(list, original))
    && (if collision < 0 then
          forall j :: 0 <= j < i && j != target ==> !(Active(list[j]) && Ident(list[j].item) == replacement)
        else collision != target && Active(list[collision]) && Ident(list[collision].item) == replacement)
  }

  lemma ScannedOn<K, V>(
      list: seq<Entry<K, V>>, i: nat, target: int, collision: int, original: Identity<K>, replacement: Identity<K>)
    requires Scanned(list, i, target, collision, original, replacement) && i < |list|
    ensures var found := target < 0 && Ident(list[i].item) == original;
            var clash := !found && collision < 0 && list[i].current != Removed && Ident(list[i].item) == replacement;
            Scanned(list, i + 1, if found then i else target, if clash then i else collision, original, replacement)
  {
    if target < 0 && Ident(list[i].item) == original { FirstMatchAt(list, original, i); }
  }

  lemma ScannedAll<K, V>(
      list: seq<Entry<K, V>>, target: int, collision: int, original: Identity<K>, replacement: Identity<K>)
    requires Scanned(list, |list|, target, collision, original, replacement)
    ensures var first := FirstMatch(list, original);
            if first == |list| then target < 0
            else target == first && (collision >= 0 <==> Collides(list, first, replacement))
  {
  }

  // ---- the object ----

  class AggregateRoot<K(==), V> {
    var ready: bool
    const lists: Lists<Entry<K, V>>
    var messages: seq<Notice>

    ghost predicate Valid()
      reads lists
    {
      lists.Valid()
    }

    ghost function State(): Root<K, V>
      requires Valid()
      reads this, lists, lists.owned
    {
      Root(ready, lists.View(), messages)
    }

    /** The list of one child type, as the buffers hold it. */
    ghost function List(key: string): seq<Entry<K, V>>
      requires Valid()
      reads lists, lists.owned
    {
      ListOf(lists.View(), key)
    }

    constructor ()
      ensures Valid() && State() == Root(false, map[], []) && fresh(lists) && fresh(lists.owned)
    {
      lists := new Lists();
      ready, messages := false, [];
    }

    method AggregateConstructor(items: seq<Option<Item<K, V>>>)
      requires Valid()
      modifies this, lists, lists.owned
      ensures Valid() && fresh(lists.owned - old(lists.owned)) && State() == LoadItems(old(State()), items)
    {
      ready := true;
      for n := 0 to |items|
        invariant Valid() && fresh(lists.owned - old(lists.owned))
        invariant ready && State() == LoadItems(old(State()), items[..n])
      {
        assert items[..n + 1][..n] == items[..n] && items[..n + 1][n] == items[n];
        match items[n]
        case None => Say(EntityDoesNotExist, None);
        case Some(item) => Append(item.typeName, Entry(item, Constructor, Constructor));
      }
      assert items[..|items|] == items;
    }

    /** One cell of one list, in place. */
    method Overwrite(key: string, i: nat, e: Entry<K, V>)
      requires Valid() && ready && i < |List(key)|
      modifies lists.owned
      ensures Valid() && State() == Put(old(State()), key, old(List(key))[i := e])
    {
      lists.DoOverwrite(key, i, e);
    }

    method Append(key: string, e: Entry<K, V>)
      requires Valid() && ready
      modifies lists, lists.owned
      ensures Valid() && fresh(lists.owned - old(lists.owned))
      ensures State() == Put(old(State()), key, old(List(key)) + [e])
    {
      lists.DoAppend(key, e);
    }

    method Say(kind: NoticeKind, about: Option<string>)
      requires Valid()
      modifies this
      ensures Valid() && State() == Notify(old(State()), kind, about)
    {
      messages := messages + [Notice(kind, about)];
    }

    method Size(key: string) returns (n: nat)
      requires Valid()
      ensures n == |List(key)|
    {
      n := lists.Size(key);
    }

    method At(key: string, i: nat) returns (e: Entry<K, V>)
      requires Valid() && i < |List(key)|
      ensures e == List(key)[i]
    {
      e := lists.At(key, i);
    }

    /** The first entry of an identity, active or at all, or the end of the list. */
    method Scan(key: string, id: Identity<K>, activeOnly: bool) returns (i: nat)
      requires Valid()
      ensures i == if activeOnly then FirstActiveMatch(List(key), id) else FirstMatch(List(key), id)
    {
      ghost var list := List(key);
      var n := Size(key);
      i := 0;
      while i < n
        invariant i <= n && NoneBefore(list, i, id, activeOnly)
      {
        var e := At(key, i);
        if Ident(e.item) == id && (!activeOnly || Active(e)) { break; }
        i := i + 1;
      }
      FoundAt(list, i, id, activeOnly);
    }

    method AddAggregateItem(maybe: Option<Item<K, V>>)
      requires Valid()
      modifies this, lists, lists.owned
      ensures Valid() && fresh(lists.owned - old(lists.owned)) && State() == AddItem(old(State()), maybe)
    {
      if maybe.None? {
        Say(EntityDoesNotExist, None);
        return;
      }
      ready := true;
      AddTo(maybe.value.typeName, maybe.value);
    }

    method AddTo(key: string, item: Item<K, V>)
      requires Valid() && ready
      modifies this, lists, lists.owned
      ensures Valid() && fresh(lists.owned - old(lists.owned))
      ensures State() == if AddRefused(old(List(key)), item) then Notify(old(State()), EntityAlreadyAdded, Some(key))
                         else Put(old(State()), key, Add(old(List(key)), item))
    {
      var i := Scan(key, Ident(item), false);
      var n := Size(key);
      if i == n {
        Append(key, Entry(item, Added, Added));
        return;
      }
      var e := At(key, i);
      match e.current
      case Added | Constructor => Say(EntityAlreadyAdded, Some(key));
      case Removed | Changed =>
        // Wake the entry with the re-sent values under the id already tracked.
        var next := item;
        if e.item.id != "" && item.isStruct { next := item.(id := e.item.id); }
        Overwrite(key, i, Entry(next, e.original, Added));
    }

    /** One scan settles both questions a change asks: is there a target, and does an active
        entry beside it stand in the way of the rename? */
    method FindTarget(key: string, original: Identity<K>, replacement: Identity<K>)
       returns (target: int, collision: int)
      requires Valid()
      ensures var list, first := List(key), FirstMatch(List(key), original);
              if first == |list| then target < 0
              else target == first && (collision >= 0 <==> Collides(list, first, replacement))
    {
      ghost var list := List(key);
      target, collision := -1, -1;
      var n := Size(key);
      for i := 0 to n
        invariant Scanned(list, i, target, collision, original, replacement)
      {
        var e := At(key, i);
        ScannedOn(list, i, target, collision, original, replacement);
        if target < 0 && Ident(e.item) == original {
          target := i;
        } else if collision < 0 && e.current != Removed && Ident(e.item) == replacement {
          collision := i;
        }
      }
      ScannedAll(list, target, collision, original, replacement);
    }

    method ChangeAggregateItem(maybeOriginal: Option<Item<K, V>>, maybeReplacement: Option<Item<K, V>>)
      requires Valid()
      modifies this, lists.owned
      ensures Valid() && State() == ChangeItem(old(State()), maybeOriginal, maybeReplacement)
    {
      if maybeOriginal.None? || maybeReplacement.None? {
        Say(EntityDoesNotExist, None);
        return;
      }
      ready := true;
      var original, replacement := maybeOriginal.value, maybeReplacement.value;
      var key := original.typeName;
      var target, collision := FindTarget(key, Ident(original), Ident(replacement));
      if target < 0 {
        Say(EntityDoesNotExist, Some(key));
      } else if collision >= 0 {
        Say(EntityAlreadyAdded, Some(key));
      } else {
        var e := At(key, target);
        Overwrite(key, target, Entry(replacement, e.original, Changed));
      }
    }

    method RemoveAggregateItem(maybe: Option<Item<K, V>>)
      requires Valid()
      modifies this, lists.owned
      ensures Valid() && State() == RemoveItem(old(State()), maybe)
    {
      if maybe.None? {
        Say(EntityDoesNotExist, None);
        return;
      }
      ready := true;
      RemoveFrom(maybe.value.typeName, maybe.value);
    }

    method RemoveFrom(key: string, item: Item<K, V>)
      requires Valid() && ready
      modifies this, lists.owned
      ensures Valid()
      ensures State() == if RemoveRefused(old(List(key)), item) then Notify(old(State()), EntityDoesNotExist, Some(key))
                         else Put(old(State()), key, Remove(old(List(key)), item))
    {
      var i := Scan(key, Ident(item), true);
      var n := Size(key);
      if i == n {
        Say(EntityDoesNotExist, Some(key));
      } else {
        ClearOne(key, i);
      }
    }

    method ClearAggregateItemsOfType(typeName: string)
      requires Valid()
      modifies this, lists, lists.owned
      ensures Valid() && fresh(lists.owned - old(lists.owned)) && State() == ClearType(old(State()), typeName)
    {
      if !ready { return; }
      lists.Hold(typeName);
      ClearList(typeName);
    }

    method ClearList(typeName: string)
      requires Valid() && ready && typeName in lists.View()
      modifies lists.owned
      ensures Valid() && State() == Put(old(State()), typeName, Clear(old(List(typeName))))
    {
      ghost var held, list := State(), List(typeName);
      assert ClearedTo(list, 0) == list && held.aggregates[typeName] == list;
      var n := Size(typeName);
      for i := 0 to n
        invariant Valid() && State() == Put(held, typeName, ClearedTo(list, i))
      {
        ClearOne(typeName, i);
        ClearedOne(list, i);
        PutTwice(held, typeName, ClearedTo(list, i), ClearedTo(list, i + 1));
      }
      assert ClearedTo(list, n) == Clear(list);
    }

    method ClearOne(key: string, i: nat)
      requires Valid() && ready && i < |List(key)|
      modifies lists.owned
      ensures Valid() && State() == Put(old(State()), key, old(List(key))[i := old(List(key))[i].(current := Removed)])
    {
      var e := At(key, i);
      Overwrite(key, i, e.(current := Removed));
    }

    method AddAggregateChild(declared: set<string>, item: Option<Item<K, V>>)
      requires Valid()
      modifies this, lists, lists.owned
      ensures Valid() && fresh(lists.owned - old(lists.owned)) && State() == AddChild(old(State()), declared, item)
    {
      if Allowed(declared, item) { AddAggregateItem(item); } else { Reject(item); }
    }

    method Reject(item: Option<Item<K, V>>)
      requires Valid()
      modifies this
      ensures Valid() && State() == RejectChild(old(State()), item)
    {
      messages := messages + [Notice(InvalidAggregateChild, if item.None? then None else Some(item.value.typeName))];
    }

    method ChangeAggregateChild(declared: set<string>, original: Option<Item<K, V>>, replacement: Option<Item<K, V>>)
      requires Valid()
      modifies this, lists.owned
      ensures Valid() && State() == ChangeChild(old(State()), declared, original, replacement)
    {
      if !Allowed(declared, original) {
        Reject(original);
      } else if !Allowed(declared, replacement) {
        Reject(replacement);
      } else {
        ChangeAggregateItem(original, replacement);
      }
    }

    method RemoveAggregateChild(declared: set<string>, item: Option<Item<K, V>>)
      requires Valid()
      modifies this, lists.owned
      ensures Valid() && State() == RemoveChild(old(State()), declared, item)
    {
      if Allowed(declared, item) { RemoveAggregateItem(item); } else { Reject(item); }
    }

    method ReplaceAggregateChildrenOf(declared: set<string>, typeName: string, items: seq<Option<Item<K, V>>>)
      requires Valid()
      modifies this, lists, lists.owned
      ensures Valid() && fresh(lists.owned - old(lists.owned))
      ensures State() == ReplaceChildren(old(State()), declared, typeName, items)
    {
      ClearAggregateItemsOfType(typeName);
      ghost var cleared := State();
      for n := 0 to |items|
        invariant Valid() && fresh(lists.owned - old(lists.owned))
        invariant State() == AddChildren(cleared, declared, items[..n])
      {
        assert items[..n + 1][..n] == items[..n];
        AddAggregateChild(declared, items[n]);
      }
      assert items[..|items|] == items;
    }
  }
}
