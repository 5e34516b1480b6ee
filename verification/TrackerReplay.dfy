/** From tracked statuses back to the database: replaying the operations derived from
    any run onto the loaded rows gives exactly the current children. */
module TrackerReplay {
  import opened AggregateStatus
  import opened Tracker

  /** How a list relates to the rows it was loaded from, whatever happened since:
      loaded entries keep their position and origin, untouched ones their value, and
      everything behind them was added in memory. */
  ghost predicate Tracks<K, V>(rows: seq<Item<K, V>>, list: seq<Entry<K, V>>) {
    && |rows| <= |list|
    && (forall i :: 0 <= i < |rows| ==>
          list[i].original == Constructor && (list[i].current == Constructor ==> list[i].item == rows[i]))
    && (forall i :: |rows| <= i < |list| ==> list[i].original == Added && list[i].current != Constructor)
  }

  lemma {:induction false} AddAllTracks<K, V>(rows: seq<Item<K, V>>, list: seq<Entry<K, V>>, items: seq<Item<K, V>>)
    requires Tracks(rows, list)
    ensures Tracks(rows, AddAll(list, items))
  {
    if items != [] { AddAllTracks(rows, list, items[..|items| - 1]); }
  }

  lemma {:induction false} RunTracks<K, V>(rows: seq<Item<K, V>>, list: seq<Entry<K, V>>, calls: seq<Call<K, V>>)
    requires Tracks(rows, list)
    ensures Tracks(rows, Run(list, calls))
    decreases calls
  {
    if calls != [] {
      if calls[0].ReplaceCall? { AddAllTracks(rows, Clear(list), calls[0].items); }
      RunTracks(rows, Apply(list, calls[0]), calls[1..]);
    }
  }

  /** Origins and positions never change: a run only extends the list. */
  lemma {:induction false} AddAllKeepsOrigins<K, V>(list: seq<Entry<K, V>>, items: seq<Item<K, V>>)
    ensures |list| <= |AddAll(list, items)|
    ensures forall i :: 0 <= i < |list| ==> AddAll(list, items)[i].original == list[i].original
  {
    if items != [] { AddAllKeepsOrigins(list, items[..|items| - 1]); }
  }

  lemma {:induction false} RunKeepsOrigins<K, V>(list: seq<Entry<K, V>>, calls: seq<Call<K, V>>)
    ensures |list| <= |Run(list, calls)|
    ensures forall i :: 0 <= i < |list| ==> Run(list, calls)[i].original == list[i].original
    decreases calls
  {
    if calls != [] {
      if calls[0].ReplaceCall? { AddAllKeepsOrigins(Clear(list), calls[0].items); }
      RunKeepsOrigins(Apply(list, calls[0]), calls[1..]);
    }
  }

  /** Database rows by slot: the position of the entry that tracks them. */
  type Rows<K, V> = map<nat, Item<K, V>>

  function LoadedRows<K, V>(rows: seq<Item<K, V>>): Rows<K, V> {
    map i | 0 <= i < |rows| :: rows[i]
  }

  /** The persister's pass: one entry after the other, one operation each. */
  function Replay<K, V>(db: Rows<K, V>, list: seq<Entry<K, V>>): Rows<K, V> {
    if list == [] then db
    else
      var n := |list| - 1;
      var before := Replay(db, list[..n]);
      match OperationOf(list[n].original, list[n].current)
      case Insert => before[n := list[n].item]
      case Update => before[n := list[n].item]
      case Delete => before - {n}
      case Noop => before
  }

  function CurrentRows<K, V>(list: seq<Entry<K, V>>): Rows<K, V> {
    map i | 0 <= i < |list| && Active(list[i]) :: list[i].item
  }

  lemma {:induction false} ReplayPrefix<K, V>(rows: seq<Item<K, V>>, list: seq<Entry<K, V>>, n: nat)
    requires Tracks(rows, list) && n <= |list|
    ensures Replay(LoadedRows(rows), list[..n]) ==
            map i | 0 <= i < |list| && (if i < n then Active(list[i]) else i < |rows|) ::
              if i < n then list[i].item else rows[i]
  {
    if n > 0 {
      assert list[..n][..n - 1] == list[..n - 1];
      ReplayPrefix(rows, list, n - 1);
    }
  }

  /** For every run from a load: replaying its operations onto the loaded rows leaves
      exactly the current children. */
  lemma ReplayYieldsCurrent<K, V>(rows: seq<Item<K, V>>, calls: seq<Call<K, V>>)
    ensures var list := Run(Load(rows), calls);
            Replay(LoadedRows(rows), list) == CurrentRows(list)
  {
    var list := Run(Load(rows), calls);
    RunTracks(rows, Load(rows), calls);
    ReplayPrefix(rows, list, |list|);
    assert list[..|list|] == list;
  }

  lemma {:induction false} CountPrefix<K, V>(rows: seq<Item<K, V>>, list: seq<Entry<K, V>>, n: nat)
    requires Tracks(rows, list) && n <= |list|
    ensures |CurrentItems(list[..n])| ==
            (if n < |rows| then n else |rows|) + |ItemsByOp(list[..n], Insert)| - |ItemsByOp(list[..n], Delete)|
  {
    if n > 0 {
      assert list[..n][..n - 1] == list[..n - 1];
      CountPrefix(rows, list, n - 1);
    }
  }

  /** Conservation: children now = rows loaded + inserts - deletes. */
  lemma CurrentIsLoadedPlusInsertsMinusDeletes<K, V>(rows: seq<Item<K, V>>, calls: seq<Call<K, V>>)
    ensures var list := Run(Load(rows), calls);
            |CurrentItems(list)| == |rows| + |ItemsByOp(list, Insert)| - |ItemsByOp(list, Delete)|
  {
    var list := Run(Load(rows), calls);
    RunTracks(rows, Load(rows), calls);
    CountPrefix(rows, list, |list|);
    assert list[..|list|] == list;
  }

  /** A child of a new identity, added and then removed, reaches neither the readers
      nor the database. */
  lemma AddThenRemoveIsNoop<K, V>(list: seq<Entry<K, V>>, item: Item<K, V>, op: Op)
    requires FirstMatch(list, Ident(item)) == |list|
    ensures var r := Remove(Add(list, item), item);
            && CurrentItems(r) == CurrentItems(list)
            && (op != Noop ==> ItemsByOp(r, op) == ItemsByOp(list, op))
  {
  }
}
