/** "At most one active child per business identity" (domain/aggregate_vo.go:87-93):
    which calls keep it, exactly when an add breaks it, and what that means for
    whole runs. */
module TrackerIdentity {
  import opened AggregateStatus
  import opened Tracker

  ghost predicate UniqueActive<K, V>(list: seq<Entry<K, V>>) {
    forall i, j :: 0 <= i < j < |list| && Active(list[i]) && Active(list[j]) ==>
      Ident(list[i].item) != Ident(list[j].item)
  }

  /** One entry per identity, removed entries included. */
  ghost predicate UniqueEntries<K, V>(list: seq<Entry<K, V>>) {
    forall i, j :: 0 <= i < j < |list| ==> Ident(list[i].item) != Ident(list[j].item)
  }

  /** The add would wake a removed entry while a later one with the same identity is
      still active. */
  ghost predicate WakesDuplicate<K, V>(list: seq<Entry<K, V>>, item: Item<K, V>) {
    var i := FirstMatch(list, Ident(item));
    && i < |list|
    && !Active(list[i])
    && exists j :: i < j < |list| && Active(list[j]) && Ident(list[j].item) == Ident(item)
  }

  lemma AddKeepsUniqueActiveIff<K, V>(list: seq<Entry<K, V>>, item: Item<K, V>)
    requires UniqueActive(list)
    ensures UniqueActive(Add(list, item)) <==> !WakesDuplicate(list, item)
  {
    var i := FirstMatch(list, Ident(item));
    var r := Add(list, item);
    if WakesDuplicate(list, item) {
      var j :| i < j < |list| && Active(list[j]) && Ident(list[j].item) == Ident(item);
      assert Active(r[i]) && Active(r[j]) && Ident(r[i].item) == Ident(r[j].item);
    } else if i < |list| && !AddRefused(list, item) {
      forall a, b | 0 <= a < b < |r| && Active(r[a]) && Active(r[b])
        ensures Ident(r[a].item) != Ident(r[b].item)
      {
        assert a != i ==> r[a] == list[a];
        assert b != i ==> r[b] == list[b];
      }
    }
  }

  lemma ChangeKeepsUniqueActive<K, V>(list: seq<Entry<K, V>>, original: Item<K, V>, replacement: Item<K, V>)
    requires UniqueActive(list)
    ensures UniqueActive(Change(list, original, replacement))
  {
  }

  lemma RemoveKeepsUniqueActive<K, V>(list: seq<Entry<K, V>>, item: Item<K, V>)
    requires UniqueActive(list)
    ensures UniqueActive(Remove(list, item))
  {
  }

  /** Adding the items of a replacement one after the other never meets a
      removed entry with an active later match: first matches wake first. */
  ghost predicate FirstMatchesFirst<K, V>(list: seq<Entry<K, V>>) {
    forall j :: 0 <= j < |list| && Active(list[j]) ==> FirstMatch(list, Ident(list[j].item)) == j
  }

  lemma FirstMatchAt<K, V>(list: seq<Entry<K, V>>, id: Identity<K>, i: nat)
    requires i < |list| && Ident(list[i].item) == id
    requires forall j :: 0 <= j < i ==> Ident(list[j].item) != id
    ensures FirstMatch(list, id) == i
  {
  }

  lemma {:induction false} AddAllKeepsFirstMatchesFirst<K, V>(list: seq<Entry<K, V>>, items: seq<Item<K, V>>)
    requires FirstMatchesFirst(list)
    ensures FirstMatchesFirst(AddAll(list, items))
  {
    if items != [] {
      var before := AddAll(list, items[..|items| - 1]);
      AddAllKeepsFirstMatchesFirst(list, items[..|items| - 1]);
      AddKeepsFirstMatchesFirst(before, items[|items| - 1]);
    }
  }

  lemma {:induction false} AddKeepsFirstMatchesFirst<K, V>(list: seq<Entry<K, V>>, item: Item<K, V>)
    requires FirstMatchesFirst(list)
    ensures FirstMatchesFirst(Add(list, item))
  {
    var r := Add(list, item);
    assert forall k :: 0 <= k < |list| ==> Ident(r[k].item) == Ident(list[k].item);
    forall j | 0 <= j < |r| && Active(r[j]) ensures FirstMatch(r, Ident(r[j].item)) == j {
      FirstMatchAt(r, Ident(r[j].item), j);
    }
  }

  /** From any list at all, duplicates included, a replacement ends unique. */
  lemma ReplaceMakesUniqueActive<K, V>(list: seq<Entry<K, V>>, items: seq<Item<K, V>>)
    ensures UniqueActive(Replace(list, items))
  {
    AddAllKeepsFirstMatchesFirst(Clear(list), items);
    var r := Replace(list, items);
    forall a, b | 0 <= a < b < |r| && Active(r[a]) && Active(r[b])
      ensures Ident(r[a].item) != Ident(r[b].item)
    {
      assert FirstMatch(r, Ident(r[b].item)) == b;
    }
  }

  // ---- runs ----

  /** Every state of the run, first and last included, is unique. */
  ghost predicate AlwaysUnique<K, V>(list: seq<Entry<K, V>>, calls: seq<Call<K, V>>)
    decreases calls
  {
    UniqueActive(list) && (calls == [] || AlwaysUnique(Apply(list, calls[0]), calls[1..]))
  }

  /** No add of the run wakes a duplicate in the state it is made in. */
  ghost predicate NeverWakesDuplicate<K, V>(list: seq<Entry<K, V>>, calls: seq<Call<K, V>>)
    decreases calls
  {
    calls == [] ||
    (&& !(calls[0].AddCall? && WakesDuplicate(list, calls[0].item))
     && NeverWakesDuplicate(Apply(list, calls[0]), calls[1..]))
  }

  lemma ApplyKeepsUniqueActiveIff<K, V>(list: seq<Entry<K, V>>, call: Call<K, V>)
    requires UniqueActive(list)
    ensures UniqueActive(Apply(list, call)) <==> !(call.AddCall? && WakesDuplicate(list, call.item))
  {
    match call
    case AddCall(item) => AddKeepsUniqueActiveIff(list, item);
    case ChangeCall(original, replacement) => ChangeKeepsUniqueActive(list, original, replacement);
    case RemoveCall(item) => RemoveKeepsUniqueActive(list, item);
    case ClearCall =>
    case ReplaceCall(items) => ReplaceMakesUniqueActive(list, items);
  }

  /** Over every run from a unique state: the contract holds throughout exactly when
      no add of the run wakes a duplicate. */
  lemma {:induction false} RunAlwaysUniqueIff<K, V>(list: seq<Entry<K, V>>, calls: seq<Call<K, V>>)
    requires UniqueActive(list)
    ensures AlwaysUnique(list, calls) <==> NeverWakesDuplicate(list, calls)
    decreases calls
  {
    if calls != [] {
      ApplyKeepsUniqueActiveIff(list, calls[0]);
      if UniqueActive(Apply(list, calls[0])) {
        RunAlwaysUniqueIff(Apply(list, calls[0]), calls[1..]);
      }
    }
  }

  /** The change moves an entry onto an identity another entry, necessarily a removed
      one, still carries. */
  ghost predicate TakesRemovedIdentity<K, V>(list: seq<Entry<K, V>>, original: Item<K, V>, replacement: Item<K, V>) {
    && !ChangeRefused(list, original, replacement)
    && exists i :: && 0 <= i < |list| && i != FirstMatch(list, Ident(original))
                   && Ident(list[i].item) == Ident(replacement)
  }

  lemma AddKeepsUniqueEntries<K, V>(list: seq<Entry<K, V>>, item: Item<K, V>)
    requires UniqueEntries(list)
    ensures UniqueEntries(Add(list, item))
  {
  }

  lemma {:induction false} AddAllKeepsUniqueEntries<K, V>(list: seq<Entry<K, V>>, items: seq<Item<K, V>>)
    requires UniqueEntries(list)
    ensures UniqueEntries(AddAll(list, items))
  {
    if items != [] {
      AddAllKeepsUniqueEntries(list, items[..|items| - 1]);
      AddKeepsUniqueEntries(AddAll(list, items[..|items| - 1]), items[|items| - 1]);
    }
  }

  lemma ChangeKeepsUniqueEntriesIff<K, V>(list: seq<Entry<K, V>>, original: Item<K, V>, replacement: Item<K, V>)
    requires UniqueEntries(list)
    ensures UniqueEntries(Change(list, original, replacement)) <==> !TakesRemovedIdentity(list, original, replacement)
  {
    var target := FirstMatch(list, Ident(original));
    var r := Change(list, original, replacement);
    if !ChangeRefused(list, original, replacement) {
      assert forall k :: 0 <= k < |list| && k != target ==> r[k] == list[k];
      if TakesRemovedIdentity(list, original, replacement) {
        var i :| 0 <= i < |list| && i != target && Ident(list[i].item) == Ident(replacement);
        assert Ident(r[i].item) == Ident(r[target].item);
      }
    }
  }

  lemma ApplyKeepsUniqueEntriesIff<K, V>(list: seq<Entry<K, V>>, call: Call<K, V>)
    requires UniqueEntries(list)
    ensures UniqueEntries(Apply(list, call)) <==>
            !(call.ChangeCall? && TakesRemovedIdentity(list, call.original, call.replacement))
  {
    match call
    case AddCall(item) => AddKeepsUniqueEntries(list, item);
    case ChangeCall(original, replacement) => ChangeKeepsUniqueEntriesIff(list, original, replacement);
    case RemoveCall(item) =>
      var r := Remove(list, item);
      assert forall k :: 0 <= k < |list| ==> Ident(r[k].item) == Ident(list[k].item);
    case ClearCall =>
    case ReplaceCall(items) => AddAllKeepsUniqueEntries(Clear(list), items);
  }

  ghost predicate NeverTakesRemovedIdentity<K, V>(list: seq<Entry<K, V>>, calls: seq<Call<K, V>>)
    decreases calls
  {
    calls == [] ||
    (&& !(calls[0].ChangeCall? && TakesRemovedIdentity(list, calls[0].original, calls[0].replacement))
     && NeverTakesRemovedIdentity(Apply(list, calls[0]), calls[1..]))
  }

  /** Every state of the run has one entry per identity. */
  ghost predicate AlwaysUniqueEntries<K, V>(list: seq<Entry<K, V>>, calls: seq<Call<K, V>>)
    decreases calls
  {
    UniqueEntries(list) && (calls == [] || AlwaysUniqueEntries(Apply(list, calls[0]), calls[1..]))
  }

  /** Over every run from such a state: it stays so exactly when no change of the run takes
      an identity still carried by a removed entry. */
  lemma {:induction false} RunAlwaysUniqueEntriesIff<K, V>(list: seq<Entry<K, V>>, calls: seq<Call<K, V>>)
    requires UniqueEntries(list)
    ensures AlwaysUniqueEntries(list, calls) <==> NeverTakesRemovedIdentity(list, calls)
    decreases calls
  {
    if calls != [] {
      ApplyKeepsUniqueEntriesIff(list, calls[0]);
      if UniqueEntries(Apply(list, calls[0])) {
        RunAlwaysUniqueEntriesIff(Apply(list, calls[0]), calls[1..]);
      }
    }
  }

  /** A run that starts with one entry per identity, and whose changes never take an
      identity still carried by a removed entry, is unique throughout and ends with
      one entry per identity. */
  lemma {:induction false} RunKeepsUniqueEntries<K, V>(list: seq<Entry<K, V>>, calls: seq<Call<K, V>>)
    requires UniqueEntries(list)
    requires NeverTakesRemovedIdentity(list, calls)
    ensures AlwaysUnique(list, calls)
    ensures UniqueEntries(Run(list, calls))
    decreases calls
  {
    if calls != [] {
      ApplyKeepsUniqueEntriesIff(list, calls[0]);
      RunKeepsUniqueEntries(Apply(list, calls[0]), calls[1..]);
    }
  }

  /** Without that condition the contract breaks: two rows are loaded, the first is
      removed, the second is renamed onto it, and the first is added again. */
  lemma RenameOntoRemovedThenReAddBreaksContract()
    ensures
      var a := Item("Address", "a", 0, "row-a", true);
      var b := Item("Address", "b", 0, "row-b", true);
      var calls := [RemoveCall(a), ChangeCall(b, a), AddCall(a)];
      && UniqueEntries(Load([a, b]))
      && !UniqueActive(Run(Load([a, b]), calls))
  {
    var a := Item("Address", "a", 0, "row-a", true);
    var b := Item("Address", "b", 0, "row-b", true);
    var l0 := Load([a, b]);
    assert l0 == [Entry(a, Constructor, Constructor), Entry(b, Constructor, Constructor)];
    var l1 := Apply(l0, RemoveCall(a));
    assert l1 == [Entry(a, Constructor, Removed), Entry(b, Constructor, Constructor)];
    var l2 := Apply(l1, ChangeCall(b, a));
    FirstMatchAt(l1, Ident(b), 1);
    assert l2 == [Entry(a, Constructor, Removed), Entry(a, Constructor, Changed)];
    var l3 := Apply(l2, AddCall(a));
    assert l3 == [Entry(a, Constructor, Added), Entry(a, Constructor, Changed)];
    assert Active(l3[0]) && Active(l3[1]) && Ident(l3[0].item) == Ident(l3[1].item);
    var calls := [RemoveCall(a), ChangeCall(b, a), AddCall(a)];
    calc {
      Run(l0, calls);
      { assert calls[1..] == [ChangeCall(b, a), AddCall(a)]; }
      Run(l1, [ChangeCall(b, a), AddCall(a)]);
      { assert [ChangeCall(b, a), AddCall(a)][1..] == [AddCall(a)]; }
      Run(l2, [AddCall(a)]);
      { assert [AddCall(a)][1..] == []; }
      l3;
    }
  }

  ghost predicate HasActive<K, V>(list: seq<Entry<K, V>>, item: Item<K, V>) {
    exists i :: 0 <= i < |list| && Ident(list[i].item) == Ident(item) && Active(list[i])
  }

  /** On any list: an add beside an active entry of its identity is refused unless the first
      entry of the identity was left CHANGED, or is a removed one in front of it; otherwise
      that first entry is overwritten without a word. With none active, nothing is refused. */
  lemma AddRefusedIff<K, V>(list: seq<Entry<K, V>>, item: Item<K, V>)
    ensures var i := FirstMatch(list, Ident(item));
            && (AddRefused(list, item) <==>
                HasActive(list, item) && list[i].current != Changed && !WakesDuplicate(list, item))
            && (HasActive(list, item) && !AddRefused(list, item) ==>
                  Add(list, item) == list[i := Entry(Restamp(list[i].item, item), list[i].original, Added)])
  {
    var i := FirstMatch(list, Ident(item));
    if HasActive(list, item) {
      var j :| 0 <= j < |list| && Ident(list[j].item) == Ident(item) && Active(list[j]);
      assert i <= j;
    }
  }

  /** What a change wrote can be added over: the identity it took is free for the next add,
      until that add takes it. */
  lemma ChangeThenAdd<K, V>(list: seq<Entry<K, V>>, original: Item<K, V>, replacement: Item<K, V>, item: Item<K, V>)
    requires !ChangeRefused(list, original, replacement) && Ident(item) == Ident(replacement)
    ensures var changed := Change(list, original, replacement);
            !AddRefused(changed, item) && AddRefused(Add(changed, item), item)
  {
    var target := FirstMatch(list, Ident(original));
    var changed := Change(list, original, replacement);
    var i := FirstMatch(changed, Ident(item));
    assert Ident(changed[target].item) == Ident(item);
    if i != target { assert changed[i] == list[i]; }
    var added := Add(changed, item);
    assert Ident(added[i].item) == Ident(item);
    assert forall j :: 0 <= j < i ==> added[j] == changed[j];
    assert FirstMatch(added, Ident(item)) == i;
  }
}
