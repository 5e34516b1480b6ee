/** The change tracker of one child collection, as functions on its entry list
    (domain/aggregate_root.go). The class in AggregateRoot.dfy is proved against
    these functions; the laws about them are in the Tracker*.dfy files. */
module Tracker {
  import opened AggregateStatus

  /** A child value object. `key` is what the child's own business identity
      looks at, `fields` everything else it carries, `id` the row id ("" when it was
      never persisted) and `isStruct` whether the value is a plain struct (the only
      kind an id can be stamped on). */
  datatype Item<K, V> = Item(typeName: string, key: K, fields: V, id: string, isStruct: bool)

  datatype Identity<K> = Identity(typeName: string, key: K)

  datatype Entry<K, V> = Entry(item: Item<K, V>, original: Status, current: Status)

  /** Two children are the same exactly when their identities are equal; the row id
      and the other fields take no part. */
  function Ident<K, V>(item: Item<K, V>): Identity<K> {
    Identity(item.typeName, item.key)
  }

  predicate Active<K, V>(e: Entry<K, V>) {
    e.current != Removed
  }

  /** Index of the first entry with identity `id`, or the length of the list. */
  function FirstMatch<K(==), V>(list: seq<Entry<K, V>>, id: Identity<K>): (i: nat)
    ensures i <= |list|
    ensures i < |list| ==> Ident(list[i].item) == id
    ensures forall j :: 0 <= j < i ==> Ident(list[j].item) != id
  {
    if list == [] then 0
    else if Ident(list[0].item) == id then 0
    else 1 + FirstMatch(list[1..], id)
  }

  /** Index of the first active entry with identity `id`, or the length of the list. */
  function FirstActiveMatch<K(==), V>(list: seq<Entry<K, V>>, id: Identity<K>): (i: nat)
    ensures i <= |list|
    ensures i < |list| ==> Active(list[i]) && Ident(list[i].item) == id
    ensures forall j :: 0 <= j < i ==> !(Active(list[j]) && Ident(list[j].item) == id)
  {
    if list == [] then 0
    else if Active(list[0]) && Ident(list[0].item) == id then 0
    else 1 + FirstActiveMatch(list[1..], id)
  }

  /** An active entry other than `target` already holds `id`. */
  predicate Collides<K(==), V>(list: seq<Entry<K, V>>, target: nat, id: Identity<K>) {
    exists i :: 0 <= i < |list| && i != target && Active(list[i]) && Ident(list[i].item) == id
  }

  /** The re-sent item, carrying the tracked row id when there is one to carry and
      the item can carry it. */
  function Restamp<K, V>(tracked: Item<K, V>, sent: Item<K, V>): Item<K, V> {
    if tracked.id != "" && sent.isStruct then sent.(id := tracked.id) else sent
  }

  predicate AddRefused<K(==), V>(list: seq<Entry<K, V>>, item: Item<K, V>) {
    var i := FirstMatch(list, Ident(item));
    i < |list| && list[i].current in {Added, Constructor}
  }

  function Add<K(==), V>(list: seq<Entry<K, V>>, item: Item<K, V>): seq<Entry<K, V>> {
    var i := FirstMatch(list, Ident(item));
    if i == |list| then list + [Entry(item, Added, Added)]
    else if AddRefused(list, item) then list
    else list[i := Entry(Restamp(list[i].item, item), list[i].original, Added)]
  }

  predicate ChangeRefused<K(==), V>(list: seq<Entry<K, V>>, original: Item<K, V>, replacement: Item<K, V>) {
    var target := FirstMatch(list, Ident(original));
    target == |list| || Collides(list, target, Ident(replacement))
  }

  function Change<K(==), V>(list: seq<Entry<K, V>>, original: Item<K, V>, replacement: Item<K, V>): seq<Entry<K, V>> {
    var target := FirstMatch(list, Ident(original));
    if ChangeRefused(list, original, replacement) then list
    else list[target := Entry(replacement, list[target].original, Changed)]
  }

  predicate RemoveRefused<K(==), V>(list: seq<Entry<K, V>>, item: Item<K, V>) {
    FirstActiveMatch(list, Ident(item)) == |list|
  }

  function Remove<K(==), V>(list: seq<Entry<K, V>>, item: Item<K, V>): seq<Entry<K, V>> {
    var i := FirstActiveMatch(list, Ident(item));
    if i == |list| then list else list[i := list[i].(current := Removed)]
  }

  function Clear<K, V>(list: seq<Entry<K, V>>): seq<Entry<K, V>> {
    seq(|list|, i requires 0 <= i < |list| => list[i].(current := Removed))
  }

  function AddAll<K(==), V>(list: seq<Entry<K, V>>, items: seq<Item<K, V>>): seq<Entry<K, V>> {
    if items == [] then list
    else Add(AddAll(list, items[..|items| - 1]), items[|items| - 1])
  }

  function Replace<K(==), V>(list: seq<Entry<K, V>>, items: seq<Item<K, V>>): seq<Entry<K, V>> {
    AddAll(Clear(list), items)
  }

  /** What the load path builds: every row tracked as it came from the database. */
  function Load<K, V>(items: seq<Item<K, V>>): seq<Entry<K, V>> {
    seq(|items|, i requires 0 <= i < |items| => Entry(items[i], Constructor, Constructor))
  }

  /** One call on the collection, and runs of calls. */
  datatype Call<K, V> =
    | AddCall(item: Item<K, V>)
    | ChangeCall(original: Item<K, V>, replacement: Item<K, V>)
    | RemoveCall(item: Item<K, V>)
    | ClearCall
    | ReplaceCall(items: seq<Item<K, V>>)

  function Apply<K(==), V>(list: seq<Entry<K, V>>, call: Call<K, V>): seq<Entry<K, V>> {
    match call
    case AddCall(item) => Add(list, item)
    case ChangeCall(original, replacement) => Change(list, original, replacement)
    case RemoveCall(item) => Remove(list, item)
    case ClearCall => Clear(list)
    case ReplaceCall(items) => Replace(list, items)
  }

  function Run<K(==), V>(list: seq<Entry<K, V>>, calls: seq<Call<K, V>>): seq<Entry<K, V>>
    decreases calls
  {
    if calls == [] then list else Run(Apply(list, calls[0]), calls[1..])
  }

  /** The children a reader sees, in entry order. */
  function CurrentItems<K, V>(list: seq<Entry<K, V>>): seq<Item<K, V>> {
    if list == [] then []
    else
      CurrentItems(list[..|list| - 1]) +
      if Active(list[|list| - 1]) then [list[|list| - 1].item] else []
  }

  /** The children whose persistence operation is `op`, in entry order. */
  function ItemsByOp<K, V>(list: seq<Entry<K, V>>, op: Op): seq<Item<K, V>> {
    if list == [] then []
    else
      var e := list[|list| - 1];
      ItemsByOp(list[..|list| - 1], op) + if OperationOf(e.original, e.current) == op then [e.item] else []
  }
}
