/** Laws of the guarded primitives on a whole aggregate root: every call touches the
    collection of one type, a refusal always leaves a message, and any run projects to
    a run on each collection, so the laws of the single collection carry over. */
module AggregateLaws {
  import opened Options
  import opened Tracker
  import opened TrackerIdentity
  import opened AggregateRoots

  datatype RootCall<K, V> =
    | AddRoot(item: Option<Item<K, V>>)
    | ChangeRoot(original: Option<Item<K, V>>, replacement: Option<Item<K, V>>)
    | RemoveRoot(item: Option<Item<K, V>>)
    | ClearRoot(typeName: string)
    | ReplaceRoot(typeName: string, items: seq<Option<Item<K, V>>>)

  function ApplyRoot<K(==), V>(r: Root<K, V>, declared: set<string>, call: RootCall<K, V>): Root<K, V> {
    match call
    case AddRoot(item) => AddChild(r, declared, item)
    case ChangeRoot(original, replacement) => ChangeChild(r, declared, original, replacement)
    case RemoveRoot(item) => RemoveChild(r, declared, item)
    case ClearRoot(typeName) => ClearType(r, typeName)
    case ReplaceRoot(typeName, items) => ReplaceChildren(r, declared, typeName, items)
  }

  function RunRoot<K(==), V>(r: Root<K, V>, declared: set<string>, calls: seq<RootCall<K, V>>): Root<K, V>
    decreases calls
  {
    if calls == [] then r else RunRoot(ApplyRoot(r, declared, calls[0]), declared, calls[1..])
  }

  /** The adds a list of sent items makes on the collection of `typeName`. */
  function AddsTo<K, V>(declared: set<string>, typeName: string, items: seq<Option<Item<K, V>>>): seq<Call<K, V>> {
    if items == [] then []
    else
      var last := items[|items| - 1];
      AddsTo(declared, typeName, items[..|items| - 1]) +
      if Allowed(declared, last) && last.value.typeName == typeName then [AddCall(last.value)] else []
  }

  /** What one root call does to the collection of `typeName`. */
  function Project<K, V>(declared: set<string>, typeName: string, call: RootCall<K, V>): seq<Call<K, V>> {
    match call
    case AddRoot(item) =>
      if Allowed(declared, item) && item.value.typeName == typeName then [AddCall(item.value)] else []
    case ChangeRoot(original, replacement) =>
      if Allowed(declared, original) && Allowed(declared, replacement) && original.value.typeName == typeName then
        [ChangeCall(original.value, replacement.value)] else []
    case RemoveRoot(item) =>
      if Allowed(declared, item) && item.value.typeName == typeName then [RemoveCall(item.value)] else []
    case ClearRoot(cleared) => if cleared == typeName then [ClearCall] else []
    case ReplaceRoot(cleared, items) =>
      (if cleared == typeName then [ClearCall] else []) + AddsTo(declared, typeName, items)
  }

  function ProjectAll<K, V>(declared: set<string>, typeName: string, calls: seq<RootCall<K, V>>): seq<Call<K, V>> {
    if calls == [] then [] else Project(declared, typeName, calls[0]) + ProjectAll(declared, typeName, calls[1..])
  }

  /** The map is only ever written after it was created. */
  ghost predicate Sound<K, V>(r: Root<K, V>) {
    !r.ready ==> r.aggregates == map[]
  }

  lemma {:induction false} RunConcat<K, V>(list: seq<Entry<K, V>>, a: seq<Call<K, V>>, b: seq<Call<K, V>>)
    ensures Run(list, a + b) == Run(Run(list, a), b)
    decreases a
  {
    if a == [] {
      assert a + b == b;
    } else {
      assert (a + b)[0] == a[0] && (a + b)[1..] == a[1..] + b;
      RunConcat(Apply(list, a[0]), a[1..], b);
    }
  }

  lemma RunOne<K, V>(list: seq<Entry<K, V>>, call: Call<K, V>)
    ensures Run(list, [call]) == Apply(list, call)
  {
  }

  lemma {:induction false} AddChildrenProjects<K, V>(
      r: Root<K, V>, declared: set<string>, typeName: string, items: seq<Option<Item<K, V>>>)
    requires Sound(r)
    ensures Sound(AddChildren(r, declared, items))
    ensures ListOf(AddChildren(r, declared, items).aggregates, typeName) ==
            Run(ListOf(r.aggregates, typeName), AddsTo(declared, typeName, items))
  {
    if items != [] {
      var before, last := items[..|items| - 1], items[|items| - 1];
      AddChildrenProjects(r, declared, typeName, before);
      var adds := AddsTo(declared, typeName, before);
      var list := ListOf(r.aggregates, typeName);
      if Allowed(declared, last) && last.value.typeName == typeName {
        RunConcat(list, adds, [AddCall(last.value)]);
        RunOne(Run(list, adds), AddCall(last.value));
      } else {
        assert AddsTo(declared, typeName, items) == adds;
      }
    }
  }

  lemma ReplaceRootProjects<K, V>(
      r: Root<K, V>, declared: set<string>, typeName: string, cleared: string, items: seq<Option<Item<K, V>>>)
    requires Sound(r)
    ensures Sound(ReplaceChildren(r, declared, cleared, items))
    ensures ListOf(ReplaceChildren(r, declared, cleared, items).aggregates, typeName) ==
            Run(ListOf(r.aggregates, typeName), Project(declared, typeName, ReplaceRoot(cleared, items)))
  {
    var list := ListOf(r.aggregates, typeName);
    var c := ClearType(r, cleared);
    var head := if cleared == typeName then [ClearCall] else [];
    assert ListOf(c.aggregates, typeName) == Run(list, head) by {
      if cleared == typeName { RunOne(list, ClearCall); }
    }
    AddChildrenProjects(c, declared, typeName, items);
    RunConcat(list, head, AddsTo(declared, typeName, items));
  }

  lemma ApplyRootProjects<K, V>(r: Root<K, V>, declared: set<string>, typeName: string, call: RootCall<K, V>)
    requires Sound(r)
    ensures Sound(ApplyRoot(r, declared, call))
    ensures ListOf(ApplyRoot(r, declared, call).aggregates, typeName) ==
            Run(ListOf(r.aggregates, typeName), Project(declared, typeName, call))
  {
    var list, p := ListOf(r.aggregates, typeName), Project(declared, typeName, call);
    if call.ReplaceRoot? {
      ReplaceRootProjects(r, declared, typeName, call.typeName, call.items);
    } else if p == [] {
    } else {
      RunOne(list, p[0]);
      assert p == [p[0]];
    }
  }

  /** For every run of guarded calls on a root, and every child type: the collection
      ends where the calls addressed to it, alone, would have taken it. */
  lemma {:induction false} RunRootProjects<K, V>(
      r: Root<K, V>, declared: set<string>, typeName: string, calls: seq<RootCall<K, V>>)
    requires Sound(r)
    ensures ListOf(RunRoot(r, declared, calls).aggregates, typeName) ==
            Run(ListOf(r.aggregates, typeName), ProjectAll(declared, typeName, calls))
    decreases calls
  {
    if calls != [] {
      ApplyRootProjects(r, declared, typeName, calls[0]);
      RunRootProjects(ApplyRoot(r, declared, calls[0]), declared, typeName, calls[1..]);
      var first, others := Project(declared, typeName, calls[0]), ProjectAll(declared, typeName, calls[1..]);
      RunConcat(ListOf(r.aggregates, typeName), first, others);
    }
  }

  /** Replacing the collection of a declared type by items of that type is the
      replacement of that one collection. */
  lemma {:induction false} AddsOfOneType<K, V>(
      list: seq<Entry<K, V>>, declared: set<string>, typeName: string, items: seq<Item<K, V>>)
    requires typeName in declared
    requires forall i :: 0 <= i < |items| ==> items[i].typeName == typeName
    ensures Run(list, AddsTo(declared, typeName, Present(items))) == AddAll(list, items)
  {
    if items != [] {
      var before, last := items[..|items| - 1], items[|items| - 1];
      assert Present(items)[..|items| - 1] == Present(before);
      AddsOfOneType(list, declared, typeName, before);
      RunConcat(list, AddsTo(declared, typeName, Present(before)), [AddCall(last)]);
      RunOne(AddAll(list, before), AddCall(last));
    }
  }

  function Present<K, V>(items: seq<Item<K, V>>): seq<Option<Item<K, V>>> {
    seq(|items|, i requires 0 <= i < |items| => Some(items[i]))
  }

  lemma ReplaceOfDeclaredType<K, V>(r: Root<K, V>, declared: set<string>, typeName: string, items: seq<Item<K, V>>)
    requires Sound(r)
    requires typeName in declared
    requires forall i :: 0 <= i < |items| ==> items[i].typeName == typeName
    ensures ListOf(ReplaceChildren(r, declared, typeName, Present(items)).aggregates, typeName) ==
            Replace(ListOf(r.aggregates, typeName), items)
  {
    var list := ListOf(r.aggregates, typeName);
    ApplyRootProjects(r, declared, typeName, ReplaceRoot(typeName, Present(items)));
    RunConcat(list, [ClearCall], AddsTo(declared, typeName, Present(items)));
    RunOne(list, ClearCall);
    AddsOfOneType(Clear(list), declared, typeName, items);
  }

  /** The call, made in this state, is turned down: undeclared, missing or duplicate. */
  predicate Refused<K(==), V>(r: Root<K, V>, declared: set<string>, call: RootCall<K, V>)
    requires !call.ReplaceRoot?
  {
    match call
    case AddRoot(item) => !Allowed(declared, item) || AddRefused(ListOf(r.aggregates, item.value.typeName), item.value)
    case ChangeRoot(original, replacement) =>
      || !Allowed(declared, original)
      || !Allowed(declared, replacement)
      || ChangeRefused(ListOf(r.aggregates, original.value.typeName), original.value, replacement.value)
    case RemoveRoot(item) =>
      !Allowed(declared, item) || RemoveRefused(ListOf(r.aggregates, item.value.typeName), item.value)
    case ClearRoot(_) => false
  }

  /** A refused call writes one message and no collection; an accepted one writes no
      message. */
  lemma RefusalSpeaks<K, V>(r: Root<K, V>, declared: set<string>, call: RootCall<K, V>)
    requires !call.ReplaceRoot?
    ensures var s := ApplyRoot(r, declared, call);
            && r.messages <= s.messages
            && |s.messages| == |r.messages| + (if Refused(r, declared, call) then 1 else 0)
            && (Refused(r, declared, call) ==> s.aggregates == r.aggregates)
  {
  }

  /** One of the adds, made behind those before it, is turned down. */
  predicate AddsRefuse<K(==), V>(r: Root<K, V>, declared: set<string>, items: seq<Option<Item<K, V>>>) {
    items != [] &&
    var before, last := items[..|items| - 1], items[|items| - 1];
    AddsRefuse(r, declared, before) || Refused(AddChildren(r, declared, before), declared, AddRoot(last))
  }

  /** The call turns down a child: its only one, or one of those a replacement sends. */
  predicate Refuses<K(==), V>(r: Root<K, V>, declared: set<string>, call: RootCall<K, V>) {
    if call.ReplaceRoot? then AddsRefuse(ClearType(r, call.typeName), declared, call.items)
    else Refused(r, declared, call)
  }

  /** No message is dropped, and one is added exactly when an add is turned down. */
  lemma {:induction false} AddChildrenSpeak<K, V>(r: Root<K, V>, declared: set<string>, items: seq<Option<Item<K, V>>>)
    ensures var s := AddChildren(r, declared, items);
            r.messages <= s.messages && (r.messages != s.messages <==> AddsRefuse(r, declared, items))
  {
    if items != [] {
      var n := |items| - 1;
      AddChildrenSpeak(r, declared, items[..n]);
      RefusalSpeaks(AddChildren(r, declared, items[..n]), declared, AddRoot(items[n]));
    }
  }

  /** A call speaks exactly when it turns a child down, and drops nothing said before. */
  lemma CallSpeaksIff<K, V>(r: Root<K, V>, declared: set<string>, call: RootCall<K, V>)
    ensures var s := ApplyRoot(r, declared, call);
            r.messages <= s.messages && (r.messages != s.messages <==> Refuses(r, declared, call))
  {
    match call
    case ReplaceRoot(typeName, items) => AddChildrenSpeak(ClearType(r, typeName), declared, items);
    case _ => RefusalSpeaks(r, declared, call);
  }

  lemma {:induction false} RunRootKeepsMessages<K, V>(r: Root<K, V>, declared: set<string>, calls: seq<RootCall<K, V>>)
    ensures r.messages <= RunRoot(r, declared, calls).messages
    decreases calls
  {
    if calls != [] {
      CallSpeaksIff(r, declared, calls[0]);
      RunRootKeepsMessages(ApplyRoot(r, declared, calls[0]), declared, calls[1..]);
    }
  }

  /** On a root where every collection has one entry per identity, and whose changes
      never take an identity still carried by a removed entry, no run of guarded calls
      makes two active children of one collection share an identity. */
  lemma RunRootKeepsUnique<K, V>(r: Root<K, V>, declared: set<string>, typeName: string, calls: seq<RootCall<K, V>>)
    requires Sound(r)
    requires UniqueEntries(ListOf(r.aggregates, typeName))
    requires NeverTakesRemovedIdentity(ListOf(r.aggregates, typeName), ProjectAll(declared, typeName, calls))
    ensures UniqueActive(ListOf(RunRoot(r, declared, calls).aggregates, typeName))
  {
    RunRootProjects(r, declared, typeName, calls);
    RunKeepsUniqueEntries(ListOf(r.aggregates, typeName), ProjectAll(declared, typeName, calls));
  }

  // ---- what a refusal says ----

  /** Some entry of the collection, active or not, has the item's identity. */
  ghost predicate Known<K, V>(r: Root<K, V>, item: Item<K, V>) {
    var list := ListOf(r.aggregates, item.typeName);
    exists i :: 0 <= i < |list| && Ident(list[i].item) == Ident(item)
  }

  lemma KnownIff<K, V>(r: Root<K, V>, item: Item<K, V>)
    ensures var list := ListOf(r.aggregates, item.typeName);
            Known(r, item) <==> FirstMatch(list, Ident(item)) < |list|
  {
    var list := ListOf(r.aggregates, item.typeName);
    var i := FirstMatch(list, Ident(item));
    if i < |list| { assert Ident(list[i].item) == Ident(item); }
  }

  /** The child a call is turned down over before any collection is looked at. */
  ghost function NotAllowed<K, V>(declared: set<string>, call: RootCall<K, V>): seq<Option<Item<K, V>>>
    requires !call.ReplaceRoot?
  {
    var sent := match call
                case AddRoot(item) => [item]
                case ChangeRoot(original, replacement) => [original, replacement]
                case RemoveRoot(item) => [item]
                case ClearRoot(_) => [];
    if |sent| > 0 && !Allowed(declared, sent[0]) then [sent[0]]
    else if |sent| > 1 && !Allowed(declared, sent[1]) then [sent[1]]
    else []
  }

  /** Why a call is turned down. Over a child that is missing or of no declared type: not a
      child of this root, naming the type there is. Otherwise it names the type of the
      collection: a duplicate for an add, and for a change whose original is known; nothing
      there for a remove, and for a change whose original no entry has. */
  ghost function Reason<K, V>(r: Root<K, V>, declared: set<string>, call: RootCall<K, V>): Notice
    requires !call.ReplaceRoot? && Refused(r, declared, call)
  {
    var bad := NotAllowed(declared, call);
    if bad != [] then Notice(InvalidAggregateChild, if bad[0].None? then None else Some(bad[0].value.typeName))
    else
      match call
      case AddRoot(item) => Notice(EntityAlreadyAdded, Some(item.value.typeName))
      case ChangeRoot(original, _) =>
        var kind := if Known(r, original.value) then EntityAlreadyAdded else EntityDoesNotExist;
        Notice(kind, Some(original.value.typeName))
      case RemoveRoot(item) => Notice(EntityDoesNotExist, Some(item.value.typeName))
  }

  /** A refusal says why, and nothing else. */
  lemma RefusalTells<K, V>(r: Root<K, V>, declared: set<string>, call: RootCall<K, V>)
    requires !call.ReplaceRoot? && Refused(r, declared, call)
    ensures ApplyRoot(r, declared, call).messages == r.messages + [Reason(r, declared, call)]
  {
    match call
    case ChangeRoot(original, replacement) =>
      if Allowed(declared, original) && Allowed(declared, replacement) { KnownIff(r, original.value); }
    case _ =>
  }

  /** The calls that are not guarded by declared types turn nil down too, over nothing. */
  lemma NilTells<K, V>(r: Root<K, V>, some: Option<Item<K, V>>)
    ensures var told := r.(messages := r.messages + [Notice(EntityDoesNotExist, None)]);
            && AddItem(r, None) == told && RemoveItem(r, None) == told
            && ChangeItem(r, None, some) == told && ChangeItem(r, some, None) == told
  {
  }

  /** Clearing creates nothing: a root nothing was written to stays as it was made. */
  lemma {:induction false} ClearsLeaveFresh<K, V>(r: Root<K, V>, declared: set<string>, calls: seq<RootCall<K, V>>)
    requires !r.ready && forall i :: 0 <= i < |calls| ==> calls[i].ClearRoot?
    ensures RunRoot(r, declared, calls) == r
    decreases calls
  {
    if calls != [] {
      assert forall i :: 0 <= i < |calls| - 1 ==> calls[1..][i] == calls[i + 1];
      ClearsLeaveFresh(r, declared, calls[1..]);
    }
  }
}
