/** Whole runs on the root where its lists lie (domain/aggregate_root.go:428-533 over
    domain/clone.go:88-102): buffers are overwritten and appended to in place, and a snapshot
    taken before any run stays as taken. */
module RootRuns {
  import opened Tracker
  import opened Snapshots
  import opened AggregateRoots
  import opened AggregateLaws

  method CallRoot<K(==), V>(root: AggregateRoot<K, V>, declared: set<string>, call: RootCall<K, V>)
    requires root.Valid()
    modifies root, root.lists, root.lists.owned
    ensures root.Valid() && fresh(root.lists.owned - old(root.lists.owned))
    ensures root.State() == ApplyRoot(old(root.State()), declared, call)
  {
    match call
    case AddRoot(item) => root.AddAggregateChild(declared, item);
    case ChangeRoot(original, replacement) => root.ChangeAggregateChild(declared, original, replacement);
    case RemoveRoot(item) => root.RemoveAggregateChild(declared, item);
    case ClearRoot(typeName) => root.ClearAggregateItemsOfType(typeName);
    case ReplaceRoot(typeName, items) => root.ReplaceAggregateChildrenOf(declared, typeName, items);
  }

  method RunCalls<K(==), V>(root: AggregateRoot<K, V>, declared: set<string>, calls: seq<RootCall<K, V>>)
    requires root.Valid()
    modifies root, root.lists, root.lists.owned
    ensures root.Valid() && fresh(root.lists.owned - old(root.lists.owned))
    ensures root.State() == RunRoot(old(root.State()), declared, calls)
  {
    assert calls[0..] == calls;
    for n := 0 to |calls|
      invariant root.Valid() && fresh(root.lists.owned - old(root.lists.owned))
      invariant RunRoot(root.State(), declared, calls[n..]) == RunRoot(old(root.State()), declared, calls)
    {
      assert calls[n..][0] == calls[n] && calls[n..][1..] == calls[n + 1..];
      CallRoot(root, declared, calls[n]);
    }
  }

  /** Take the snapshot, then make any calls: the root is where the calls take it, and the
      snapshot holds its lists as they were when it was taken. */
  method SnapshotThenRun<K(==), V>(root: AggregateRoot<K, V>, declared: set<string>, calls: seq<RootCall<K, V>>)
    returns (snapshot: map<string, Slice<Entry<K, V>>>, ghost copies: set<array<Entry<K, V>>>)
    requires root.Valid()
    modifies root, root.lists, root.lists.owned
    ensures root.Valid() && root.State() == RunRoot(old(root.State()), declared, calls)
    ensures Within(snapshot, copies) && Contents(snapshot, copies) == old(root.State()).aggregates
  {
    snapshot, copies := root.lists.CopyAggregateMap();
    RunCalls(root, declared, calls);
  }
}
