/** From a load to the database on a whole root: what the loading path tracks
    (domain/aggregate_root.go:30-43), and the laws of one collection over every run of
    guarded calls on a root loaded that way. */
module RootReplay {
  import opened AggregateStatus
  import opened Options
  import opened Tracker
  import opened TrackerReplay
  import opened TrackerRows
  import opened AggregateRoots
  import opened AggregateLaws

  /** The present items of one type, in order. */
  function OfType<K, V>(items: seq<Option<Item<K, V>>>, typeName: string): seq<Item<K, V>> {
    if items == [] then []
    else
      var last := items[|items| - 1];
      OfType(items[..|items| - 1], typeName) +
      if last.Some? && last.value.typeName == typeName then [last.value] else []
  }

  function Missing<K, V>(items: seq<Option<Item<K, V>>>): nat {
    if items == [] then 0
    else Missing(items[..|items| - 1]) + if items[|items| - 1].None? then 1 else 0
  }

  lemma LoadSnoc<K, V>(items: seq<Item<K, V>>, last: Item<K, V>)
    ensures Load(items + [last]) == Load(items) + [Entry(last, Constructor, Constructor)]
  {
  }

  /** Loading files every present item, in order, as it came from the database, behind what
      its type already holds. */
  lemma {:induction false} LoadFiles<K, V>(r: Root<K, V>, items: seq<Option<Item<K, V>>>, typeName: string)
    ensures ListOf(LoadItems(r, items).aggregates, typeName) ==
            ListOf(r.aggregates, typeName) + Load(OfType(items, typeName))
  {
    if items == [] {
      assert Load(OfType(items, typeName)) == [];
    } else {
      var before, last := items[..|items| - 1], items[|items| - 1];
      LoadFiles(r, before, typeName);
      if last.Some? && last.value.typeName == typeName { LoadSnoc(OfType(before, typeName), last.value); }
    }
  }

  /** It says one thing per missing item and nothing else. */
  lemma {:induction false} LoadSpeaks<K, V>(r: Root<K, V>, items: seq<Option<Item<K, V>>>)
    ensures LoadItems(r, items).messages == r.messages + seq(Missing(items), i => Notice(EntityDoesNotExist, None))
  {
    if items == [] {
      assert r.messages + seq(0, i => Notice(EntityDoesNotExist, None)) == r.messages;
    } else {
      var n := Missing(items[..|items| - 1]);
      LoadSpeaks(r, items[..|items| - 1]);
      assert seq(n + 1, i => Notice(EntityDoesNotExist, None)) ==
             seq(n, i => Notice(EntityDoesNotExist, None)) + [Notice(EntityDoesNotExist, None)];
    }
  }

  function Fresh<K, V>(): Root<K, V> {
    Root(false, map[], [])
  }

  /** Where a fresh root is after a load and any guarded calls, as far as one type goes. */
  function Collection<K(==), V>(
      items: seq<Option<Item<K, V>>>, declared: set<string>, calls: seq<RootCall<K, V>>,
      typeName: string): seq<Entry<K, V>>
  {
    ListOf(RunRoot(LoadItems(Fresh(), items), declared, calls).aggregates, typeName)
  }

  lemma {:induction false} LoadIsSound<K, V>(r: Root<K, V>, items: seq<Option<Item<K, V>>>)
    ensures LoadItems(r, items).ready
  {
    if items != [] { LoadIsSound(r, items[..|items| - 1]); }
  }

  /** Each collection is where the calls addressed to it take the rows loaded for it. */
  lemma CollectionRuns<K, V>(
      items: seq<Option<Item<K, V>>>, declared: set<string>, calls: seq<RootCall<K, V>>, typeName: string)
    ensures Collection(items, declared, calls, typeName) ==
            Run(Load(OfType(items, typeName)), ProjectAll(declared, typeName, calls))
  {
    var r := LoadItems(Fresh<K, V>(), items);
    LoadIsSound(Fresh<K, V>(), items);
    LoadFiles(Fresh<K, V>(), items, typeName);
    RunRootProjects(r, declared, typeName, calls);
    assert ListOf(Fresh<K, V>().aggregates, typeName) + Load(OfType(items, typeName)) == Load(OfType(items, typeName));
  }

  /** A root that was only loaded has nothing to write. */
  lemma LoadedIsNoop<K, V>(items: seq<Option<Item<K, V>>>, declared: set<string>, typeName: string, i: nat)
    requires i < |Collection(items, declared, [], typeName)|
    ensures OpOf(Collection(items, declared, [], typeName)[i]) == Noop
  {
    CollectionRuns(items, declared, [], typeName);
  }

  /** For every load and every run of guarded calls, and every child type: the derived
      operations, replayed onto the rows loaded for it, leave exactly the current children. */
  lemma RootReplayYieldsCurrent<K, V>(
      items: seq<Option<Item<K, V>>>, declared: set<string>, calls: seq<RootCall<K, V>>, typeName: string)
    ensures var list := Collection(items, declared, calls, typeName);
            Replay(LoadedRows(OfType(items, typeName)), list) == CurrentRows(list)
  {
    CollectionRuns(items, declared, calls, typeName);
    ReplayYieldsCurrent(OfType(items, typeName), ProjectAll(declared, typeName, calls));
  }

  /** And, the calls keeping ids, the persister's pass by id stores exactly them. */
  lemma RootStoresCurrent<K, V>(
      items: seq<Option<Item<K, V>>>, archives: bool, declared: set<string>, calls: seq<RootCall<K, V>>,
      typeName: string)
    requires DistinctIds(OfType(items, typeName))
    requires RunKeepsIds(Load(OfType(items, typeName)), ProjectAll(declared, typeName, calls))
    ensures var rows, list := OfType(items, typeName), Collection(items, declared, calls, typeName);
            var end := WriteAll(Loaded(rows, archives), list);
            |rows| <= |list| && end.Some? && HoldsCurrent(rows, list, end.value)
  {
    CollectionRuns(items, declared, calls, typeName);
    RunStoresCurrent(OfType(items, typeName), archives, ProjectAll(declared, typeName, calls));
  }
}
