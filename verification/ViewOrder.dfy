/** Embed-dependency order of views (infra/db/query/view.go:933-985) and of the rebuild
    plans sorted by it (bootstrap/schema_evolution.go:270-288). */
module ViewOrder {

  /** A view and the names of the local views it materializes. */
  datatype View = View(name: string, sources: seq<string>)

  ghost predicate DistinctNames(views: seq<View>) {
    forall i, j :: 0 <= i < j < |views| ==> views[i].name != views[j].name
  }

  function Names(views: seq<View>): set<string> {
    set i | 0 <= i < |views| :: views[i].name
  }

  function NamesOf(views: seq<View>): (names: seq<string>)
    ensures |names| == |views|
  {
    seq(|views|, i requires 0 <= i < |views| => views[i].name)
  }

  ghost predicate Keyed(byName: map<string, View>) {
    forall n :: n in byName ==> byName[n].name == n
  }

  lemma NamesSnoc(out: seq<View>, v: View)
    ensures Names(out + [v]) == Names(out) + {v.name}
  {
    var more := out + [v];
    forall n | n in Names(out) + {v.name} ensures n in Names(more) {
      if n in Names(out) {
        var i :| 0 <= i < |out| && out[i].name == n;
        assert more[i].name == n;
      } else {
        assert more[|out|].name == n;
      }
    }
  }

  // ---- the walk ----

  /** Depth first through the named views, in this order: one on the stack or already out is
      passed over, any other goes out behind what it materializes. */
  function Walk(byName: map<string, View>, names: seq<string>, grey: set<string>, out: seq<View>): seq<View>
    decreases byName.Keys - grey, |names|
  {
    if names == [] then out
    else
      var before, n := Walk(byName, names[..|names| - 1], grey, out), names[|names| - 1];
      if n !in byName || n in grey || n in Names(before) then before
      else
        assert n in byName.Keys - grey && n !in byName.Keys - (grey + {n});
        Walk(byName, byName[n].sources, grey + {n}, before) + [byName[n]]
  }

  lemma WalkOn(byName: map<string, View>, names: seq<string>, k: nat, m: nat, grey: set<string>, out: seq<View>)
    requires m == k + 1 <= |names|
    ensures Walk(byName, names[..m], grey, out) == Walk(byName, [names[k]], grey, Walk(byName, names[..k], grey, out))
  {
    var more, one := names[..m], [names[k]];
    assert more[..|more| - 1] == names[..k] && one[..|one| - 1] == [];
  }

  lemma WalkOne(byName: map<string, View>, n: string, grey: set<string>, out: seq<View>)
    ensures Walk(byName, [n], grey, out) ==
            if n !in byName || n in grey || n in Names(out) then out
            else Walk(byName, byName[n].sources, grey + {n}, out) + [byName[n]]
  {
    var one := [n];
    assert one[..|one| - 1] == [];
  }

  /** The visit with its two colours: grey views are on the stack, black ones are out. */
  method Visit(byName: map<string, View>, v: View, grey: set<string>, black: set<string>, out: seq<View>)
    returns (black': set<string>, out': seq<View>)
    requires v.name in byName && byName[v.name] == v && Keyed(byName) && black == Names(out)
    ensures out' == Walk(byName, [v.name], grey, out) && black' == Names(out')
    decreases byName.Keys - grey
  {
    black', out' := black, out;
    WalkOne(byName, v.name, grey, out);
    if v.name in black || v.name in grey { return; }
    var stack := grey + {v.name};
    assert v.name in byName.Keys - grey && v.name !in byName.Keys - stack;
    for i := 0 to |v.sources|
      invariant out' == Walk(byName, v.sources[..i], stack, out) && black' == Names(out')
    {
      var s := v.sources[i];
      WalkOn(byName, v.sources, i, i + 1, stack, out);
      WalkOne(byName, s, stack, out');
      if s in byName { black', out' := Visit(byName, byName[s], stack, black', out'); }
    }
    assert v.sources[..|v.sources|] == v.sources;
    NamesSnoc(out', v);
    black', out' := black' + {v.name}, out' + [v];
  }

  method IndexViews(views: seq<View>) returns (byName: map<string, View>)
    requires DistinctNames(views)
    ensures byName.Keys == Names(views) && Keyed(byName)
    ensures forall j :: 0 <= j < |views| ==> views[j].name in byName && byName[views[j].name] == views[j]
  {
    byName := map[];
    for i := 0 to |views|
      invariant byName.Keys == Names(views[..i]) && Keyed(byName)
      invariant forall j :: 0 <= j < i ==> views[j].name in byName && byName[views[j].name] == views[j]
    {
      NamesSnoc(views[..i], views[i]);
      assert views[..i + 1] == views[..i] + [views[i]];
      byName := byName[views[i].name := views[i]];
    }
    assert views[..|views|] == views;
  }

  method VisitAll(views: seq<View>, byName: map<string, View>) returns (out: seq<View>)
    requires Keyed(byName)
    requires forall j :: 0 <= j < |views| ==> views[j].name in byName && byName[views[j].name] == views[j]
    ensures out == Walk(byName, NamesOf(views), {}, [])
  {
    var black := {};
    out := [];
    ghost var names := NamesOf(views);
    for i := 0 to |views|
      invariant out == Walk(byName, names[..i], {}, []) && black == Names(out)
    {
      WalkOn(byName, names, i, i + 1, {}, []);
      black, out := Visit(byName, views[i], {}, black, out);
    }
    assert names[..|names|] == names;
  }

  ghost function ByName(views: seq<View>): map<string, View> {
    map n | n in Names(views) :: Named(views, n)
  }

  ghost function Named(views: seq<View>, n: string): View
    requires n in Names(views)
  {
    var i :| 0 <= i < |views| && views[i].name == n;
    views[i]
  }

  lemma MappedAt(views: seq<View>, i: nat)
    requires DistinctNames(views) && i < |views|
    ensures views[i].name in ByName(views) && ByName(views)[views[i].name] == views[i]
  {
    assert views[i].name in Names(views);
  }

  ghost function Sorted(views: seq<View>): seq<View> {
    Walk(ByName(views), NamesOf(views), {}, [])
  }

  // ---- what the walk leaves ----

  /** Distinct views of the map. */
  ghost predicate Emitted(byName: map<string, View>, out: seq<View>) {
    DistinctNames(out) && forall i :: 0 <= i < |out| ==> out[i].name in byName && byName[out[i].name] == out[i]
  }

  lemma EmitOne(byName: map<string, View>, out: seq<View>, n: string)
    requires Keyed(byName) && Emitted(byName, out) && n in byName && n !in Names(out)
    ensures Emitted(byName, out + [byName[n]]) && Names(out + [byName[n]]) == Names(out) + {n}
  {
    NamesSnoc(out, byName[n]);
    var more := out + [byName[n]];
    forall i, j | 0 <= i < j < |more| ensures more[i].name != more[j].name {
      assert more[i].name in Names(out);
    }
  }

  /** It only adds, each view once, and none that is on the stack. */
  lemma {:induction false} WalkEmits(byName: map<string, View>, names: seq<string>, grey: set<string>, out: seq<View>)
    requires Keyed(byName) && Emitted(byName, out)
    ensures var w := Walk(byName, names, grey, out);
            && Emitted(byName, w) && out <= w && Names(out) <= Names(w)
            && forall n :: n in Names(w) ==> n in Names(out) || n !in grey
    decreases byName.Keys - grey, |names|
  {
    if names != [] {
      var before, n := Walk(byName, names[..|names| - 1], grey, out), names[|names| - 1];
      WalkEmits(byName, names[..|names| - 1], grey, out);
      if !(n !in byName || n in grey || n in Names(before)) {
        assert n in byName.Keys - grey && n !in byName.Keys - (grey + {n});
        WalkEmits(byName, byName[n].sources, grey + {n}, before);
        EmitOne(byName, Walk(byName, byName[n].sources, grey + {n}, before), n);
      }
    }
  }

  /** No view in the set materializes a mapped one that is neither in it nor on the stack. */
  ghost predicate Closed(byName: map<string, View>, names: set<string>, grey: set<string>) {
    forall n, s :: n in names && n in byName && s in byName[n].sources && s in byName ==> s in names + grey
  }

  /** The set holds the named views that are not on the stack. */
  ghost predicate Holds(byName: map<string, View>, names: seq<string>, grey: set<string>, c: set<string>) {
    forall i :: 0 <= i < |names| && names[i] in byName && names[i] !in grey ==> names[i] in c
  }

  lemma CloseOne(byName: map<string, View>, out: set<string>, grey: set<string>, n: string)
    requires n in byName && Closed(byName, out, grey + {n}) && Holds(byName, byName[n].sources, grey + {n}, out)
    ensures Closed(byName, out + {n}, grey)
  {
    forall m, s | m in out + {n} && m in byName && s in byName[m].sources && s in byName ensures s in out + {n} + grey {
      if m == n {
        var i :| 0 <= i < |byName[n].sources| && byName[n].sources[i] == s;
      }
    }
  }

  lemma HoldsSnoc(byName: map<string, View>, names: seq<string>, grey: set<string>, c: set<string>, c': set<string>)
    requires names != [] && Holds(byName, names[..|names| - 1], grey, c) && c <= c'
    requires var n := names[|names| - 1]; n in byName && n !in grey ==> n in c'
    ensures Holds(byName, names, grey, c')
  {
    var front := names[..|names| - 1];
    assert forall i :: 0 <= i < |front| ==> front[i] == names[i];
  }

  /** Nothing named, and nothing materialized by what is out, is left out. */
  lemma {:induction false} WalkCloses(byName: map<string, View>, names: seq<string>, grey: set<string>, out: seq<View>)
    requires Keyed(byName) && Emitted(byName, out) && Closed(byName, Names(out), grey)
    ensures var w := Names(Walk(byName, names, grey, out));
            Closed(byName, w, grey) && Holds(byName, names, grey, w)
    decreases byName.Keys - grey, |names|, 1
  {
    if names != [] {
      var front, n := names[..|names| - 1], names[|names| - 1];
      var before := Walk(byName, front, grey, out);
      WalkCloses(byName, front, grey, out);
      WalkEmits(byName, front, grey, out);
      if !(n !in byName || n in grey || n in Names(before)) { VisitCloses(byName, n, grey, before); }
      HoldsSnoc(byName, names, grey, Names(before), Names(Walk(byName, names, grey, out)));
    }
  }

  lemma {:induction false} VisitCloses(byName: map<string, View>, n: string, grey: set<string>, before: seq<View>)
    requires Keyed(byName) && Emitted(byName, before) && Closed(byName, Names(before), grey)
    requires n in byName && n !in grey && n !in Names(before)
    ensures var w := Names(Walk(byName, byName[n].sources, grey + {n}, before) + [byName[n]]);
            Closed(byName, w, grey) && Names(before) <= w && n in w
    decreases byName.Keys - grey, 0
  {
    var stack, sources := grey + {n}, byName[n].sources;
    assert n in byName.Keys - grey && n !in byName.Keys - stack;
    var w := Walk(byName, sources, stack, before);
    WalkCloses(byName, sources, stack, before);
    WalkEmits(byName, sources, stack, before);
    CloseOne(byName, Names(w), grey, n);
    EmitOne(byName, w, n);
  }

  /** And nothing goes out but what every such set around the names holds. */
  lemma {:induction false} WalkStays(
      byName: map<string, View>, names: seq<string>, grey: set<string>, out: seq<View>, c: set<string>)
    requires Keyed(byName) && Emitted(byName, out) && Closed(byName, c, grey) && Holds(byName, names, grey, c)
    ensures Names(Walk(byName, names, grey, out)) <= Names(out) + c
    decreases byName.Keys - grey, |names|
  {
    if names != [] {
      var front, n := names[..|names| - 1], names[|names| - 1];
      var before := Walk(byName, front, grey, out);
      assert forall i :: 0 <= i < |front| ==> front[i] == names[i];
      WalkStays(byName, front, grey, out, c);
      WalkEmits(byName, front, grey, out);
      if !(n !in byName || n in grey || n in Names(before)) {
        var stack, sources := grey + {n}, byName[n].sources;
        assert n in byName.Keys - grey && n !in byName.Keys - stack;
        WalkStays(byName, sources, stack, before, c - {n});
        WalkEmits(byName, sources, stack, before);
        EmitOne(byName, Walk(byName, sources, stack, before), n);
      }
    }
  }

  /** From one of the names a chain of materialized views, none of them on the stack, leads
      to `x`: every closed set around the names holds it. */
  ghost predicate Reach(byName: map<string, View>, names: seq<string>, grey: set<string>, x: string) {
    forall c: set<string> :: Closed(byName, c, grey) && Holds(byName, names, grey, c) ==> x in c
  }

  lemma WalkReaches(byName: map<string, View>, names: seq<string>, grey: set<string>, out: seq<View>, x: string)
    requires Keyed(byName) && Emitted(byName, out) && Closed(byName, Names(out), grey)
    ensures x in Names(Walk(byName, names, grey, out)) <==> x in Names(out) || Reach(byName, names, grey, x)
  {
    WalkCloses(byName, names, grey, out);
    WalkEmits(byName, names, grey, out);
    if x in Names(Walk(byName, names, grey, out)) && x !in Names(out) {
      forall c: set<string> | Closed(byName, c, grey) && Holds(byName, names, grey, c) ensures x in c {
        WalkStays(byName, names, grey, out, c);
      }
    }
  }

  // ---- which of two views comes first ----

  /** Read off the views without walking: the one an earlier of the names reaches. If one
      name reaches both first, it is the other if the name is one of them, and otherwise the
      same question among the sources of that view, with it on the stack. */
  ghost predicate Precedes(byName: map<string, View>, names: seq<string>, grey: set<string>, u: string, v: string)
    decreases byName.Keys - grey, |names|
  {
    names != [] &&
    var front, n := names[..|names| - 1], names[|names| - 1];
    if Reach(byName, front, grey, u) || Reach(byName, front, grey, v) then
      Reach(byName, front, grey, u) && (Reach(byName, front, grey, v) ==> Precedes(byName, front, grey, u, v))
    else
      && n in byName && n !in grey && n != u
      && (n == v ||
          (assert n in byName.Keys - grey && n !in byName.Keys - (grey + {n});
           Precedes(byName, byName[n].sources, grey + {n}, u, v)))
  }

  lemma BeforeEndIff(out: seq<View>, m: nat, i: nat)
    requires DistinctNames(out) && m <= |out| && i < |out|
    ensures i < m <==> out[i].name in Names(out[..m])
  {
    if i < m { assert out[..m][i] == out[i]; }
  }

  lemma FrontIsOut(byName: map<string, View>, names: seq<string>, grey: set<string>, out: seq<View>)
    requires Keyed(byName) && Emitted(byName, out) && names != []
    ensures var before := Walk(byName, names[..|names| - 1], grey, out);
            Emitted(byName, before) && before <= Walk(byName, names, grey, out)
  {
    var before, n := Walk(byName, names[..|names| - 1], grey, out), names[|names| - 1];
    WalkEmits(byName, names[..|names| - 1], grey, out);
    if !(n !in byName || n in grey || n in Names(before)) { WalkEmits(byName, byName[n].sources, grey + {n}, before); }
  }

  ghost predicate At(out: seq<View>, i: nat, n: string) {
    i < |out| && out[i].name == n
  }

  lemma AtIsNamed(out: seq<View>, i: nat, n: string)
    requires At(out, i, n)
    ensures n in Names(out)
  {
  }

  lemma InFront(before: seq<View>, w: seq<View>, i: nat, n: string)
    requires DistinctNames(w) && before <= w && At(w, i, n)
    ensures i < |before| <==> n in Names(before)
    ensures i < |before| ==> At(before, i, n)
  {
    assert w[..|before|] == before;
    BeforeEndIff(w, |before|, i);
  }

  /** The order the walk puts two views in is the one read off. */
  lemma {:induction false} WalkOrder(
      byName: map<string, View>, names: seq<string>, grey: set<string>, out: seq<View>,
      u: string, v: string, i: nat, j: nat)
    requires Keyed(byName) && Emitted(byName, out) && Closed(byName, Names(out), grey)
    requires u !in Names(out) && v !in Names(out)
    requires At(Walk(byName, names, grey, out), i, u) && At(Walk(byName, names, grey, out), j, v) && u != v
    ensures i < j <==> Precedes(byName, names, grey, u, v)
    decreases byName.Keys - grey, |names|, 1
  {
    if names == [] {
      AtIsNamed(out, i, u);
    } else {
      var front, n := names[..|names| - 1], names[|names| - 1];
      var before := Walk(byName, front, grey, out);
      WalkEmits(byName, names, grey, out);
      FrontIsOut(byName, names, grey, out);
      WalkCloses(byName, front, grey, out);
      WalkReaches(byName, front, grey, out, u);
      WalkReaches(byName, front, grey, out, v);
      InFront(before, Walk(byName, names, grey, out), i, u);
      InFront(before, Walk(byName, names, grey, out), j, v);
      if i < |before| && j < |before| {
        WalkOrder(byName, front, grey, out, u, v, i, j);
      } else if !(i < |before| || j < |before|) {
        VisitOrder(byName, n, grey, before, u, v, i, j);
      }
    }
  }

  /** The view visited goes out behind everything it adds. */
  lemma {:induction false} VisitOrder(
      byName: map<string, View>, n: string, grey: set<string>, before: seq<View>, u: string, v: string, i: nat, j: nat)
    requires Keyed(byName) && Emitted(byName, before) && Closed(byName, Names(before), grey)
    requires n in byName && n !in grey && n !in Names(before) && u !in Names(before) && v !in Names(before) && u != v
    requires var w := Walk(byName, byName[n].sources, grey + {n}, before) + [byName[n]]; At(w, i, u) && At(w, j, v)
    ensures i < j <==> n != u && (n == v || Precedes(byName, byName[n].sources, grey + {n}, u, v))
    decreases byName.Keys - grey, 0
  {
    var stack, sources := grey + {n}, byName[n].sources;
    assert n in byName.Keys - grey && n !in byName.Keys - stack;
    var inner := Walk(byName, sources, stack, before);
    WalkEmits(byName, sources, stack, before);
    EmitOne(byName, inner, n);
    if n != u && n != v {
      assert At(inner, i, u) && At(inner, j, v);
      WalkOrder(byName, sources, stack, before, u, v, i, j);
    }
  }

  lemma ReachMore(byName: map<string, View>, names: seq<string>, k: nat, grey: set<string>, x: string)
    requires k <= |names| && Reach(byName, names[..k], grey, x)
    ensures Reach(byName, names, grey, x)
  {
    forall c: set<string> | Closed(byName, c, grey) && Holds(byName, names, grey, c) ensures x in c {
      assert forall i :: 0 <= i < k ==> names[..k][i] == names[i];
      assert Holds(byName, names[..k], grey, c);
    }
  }

  /** What some first names reach comes before what they do not. */
  lemma {:induction false} EarlierReachedPrecedes(
      byName: map<string, View>, names: seq<string>, k: nat, grey: set<string>, u: string, v: string)
    requires k < |names| && Reach(byName, names[..k], grey, u) && !Reach(byName, names[..k], grey, v)
    ensures Precedes(byName, names, grey, u, v) && !Precedes(byName, names, grey, v, u)
  {
    var front := names[..|names| - 1];
    assert front[..k] == names[..k];
    ReachMore(byName, front, k, grey, u);
    if k < |front| {
      EarlierReachedPrecedes(byName, front, k, grey, u, v);
    } else {
      assert front[..k] == front;
    }
  }

  /** What one name reaches first, both of them, is settled by that name and its sources. */
  lemma {:induction false} SettledAmongSources(
      byName: map<string, View>, names: seq<string>, k: nat, m: nat, grey: set<string>, u: string, v: string)
    requires k < m == k + 1 <= |names|
    requires !Reach(byName, names[..k], grey, u) && !Reach(byName, names[..k], grey, v)
    requires Reach(byName, names[..m], grey, u) && Reach(byName, names[..m], grey, v)
    ensures Precedes(byName, names, grey, u, v) <==>
            && names[k] in byName && names[k] !in grey && names[k] != u
            && (names[k] == v || Precedes(byName, byName[names[k]].sources, grey + {names[k]}, u, v))
  {
    var front := names[..|names| - 1];
    assert front[..k] == names[..k];
    if m < |names| {
      assert front[..m] == names[..m];
      ReachMore(byName, front, m, grey, u);
      ReachMore(byName, front, m, grey, v);
      SettledAmongSources(byName, front, k, m, grey, u, v);
    } else {
      assert front == names[..k];
    }
  }

  // ---- the whole list ----

  /** Read off the list: the sort puts the view named `u` in front of the one named `v`. */
  ghost predicate GoesFirst(views: seq<View>, u: string, v: string) {
    Precedes(ByName(views), NamesOf(views), {}, u, v)
  }

  /** The list in another order: each of two views stands where the list says. */
  ghost predicate Ordered(views: seq<View>, out: seq<View>) {
    && DistinctNames(out) && Names(out) == Names(views)
    && (forall i :: 0 <= i < |out| ==> out[i] in views)
    && forall i, j :: 0 <= i < |out| && 0 <= j < |out| && i != j ==>
       (i < j <==> GoesFirst(views, out[i].name, out[j].name))
  }

  lemma MapOf(views: seq<View>)
    requires DistinctNames(views)
    ensures Keyed(ByName(views)) && ByName(views).Keys == Names(views)
    ensures forall n :: n in ByName(views) ==> ByName(views)[n] in views
  {
  }

  lemma SortedIsOrdered(views: seq<View>)
    requires DistinctNames(views)
    ensures Ordered(views, Sorted(views))
  {
    var byName, names, out := ByName(views), NamesOf(views), Sorted(views);
    MapOf(views);
    WalkEmits(byName, names, {}, []);
    WalkCloses(byName, names, {}, []);
    forall n | n in Names(views) ensures n in Names(out) {
      var i :| 0 <= i < |views| && views[i].name == n;
      assert names[i] == n;
    }
    forall i, j | 0 <= i < |out| && 0 <= j < |out| && i != j
      ensures i < j <==> GoesFirst(views, out[i].name, out[j].name)
    {
      assert out[i].name != out[j].name;
      WalkOrder(byName, names, {}, [], out[i].name, out[j].name, i, j);
    }
  }

  /** The views the first k of the list reach, themselves included. */
  ghost predicate ReachedBy(views: seq<View>, k: nat, n: string)
    requires k <= |views|
  {
    Reach(ByName(views), NamesOf(views)[..k], {}, n)
  }

  /** What the first k views reach stands in front of everything they do not. */
  lemma ReachedStandsFirst(views: seq<View>, out: seq<View>, k: nat, i: nat, j: nat)
    requires Ordered(views, out) && k < |views| && i < |out| && j < |out|
    requires ReachedBy(views, k, out[i].name) && !ReachedBy(views, k, out[j].name)
    ensures i < j
  {
    EarlierReachedPrecedes(ByName(views), NamesOf(views), k, {}, out[i].name, out[j].name);
  }

  /** A view that none before it reaches stands behind everything it reaches, cycles or not. */
  lemma RootStandsLast(views: seq<View>, out: seq<View>, k: nat, m: nat, i: nat, j: nat)
    requires DistinctNames(views) && Ordered(views, out) && k < m == k + 1 <= |views| && i < |out| && j < |out|
    requires ReachedBy(views, m, out[i].name) && ReachedBy(views, m, out[j].name)
    requires out[j] == views[k] && !ReachedBy(views, k, views[k].name)
    ensures i <= j
  {
    if i != j {
      var names, u, v := NamesOf(views), out[i].name, out[j].name;
      assert u != v;
      if ReachedBy(views, k, u) {
        EarlierReachedPrecedes(ByName(views), names, k, {}, u, v);
      } else {
        MappedAt(views, k);
        SettledAmongSources(ByName(views), names, k, m, {}, u, v);
      }
    }
  }

  ghost predicate Unrelated(views: seq<View>, u: string, v: string) {
    !Reach(ByName(views), [u], {}, v) && !Reach(ByName(views), [v], {}, u)
  }

  /** Views with nothing between them stand in the order of their declaration. */
  ghost predicate Stable(views: seq<View>, out: seq<View>) {
    forall a, b, i, j ::
      (&& 0 <= a < b < |views| && Unrelated(views, views[a].name, views[b].name)
       && At(out, i, views[a].name) && At(out, j, views[b].name)) ==> i < j
  }

  /** They do if and only if, of each two, the earlier one goes first by what the list says. */
  lemma StableIff(views: seq<View>, out: seq<View>)
    requires DistinctNames(views) && Ordered(views, out)
    ensures Stable(views, out) <==>
            forall a, b :: 0 <= a < b < |views| && Unrelated(views, views[a].name, views[b].name) ==>
              GoesFirst(views, views[a].name, views[b].name)
  {
    if Stable(views, out) {
      forall a, b | 0 <= a < b < |views| && Unrelated(views, views[a].name, views[b].name)
        ensures GoesFirst(views, views[a].name, views[b].name)
      {
        var i := PlaceOf(views, out, a);
        var j := PlaceOf(views, out, b);
      }
    }
  }

  lemma PlaceOf(views: seq<View>, out: seq<View>, a: nat) returns (i: nat)
    requires a < |views| && Names(out) == Names(views)
    ensures At(out, i, views[a].name)
  {
    assert views[a].name in Names(views);
    i :| 0 <= i < |out| && out[i].name == views[a].name;
  }

  // ---- sources first ----

  /** Every source that is itself in the list comes before the view embedding it. */
  ghost predicate DependencyOrdered(views: seq<View>) {
    forall i, s :: 0 <= i < |views| && s in views[i].sources && s in Names(views) ==> s in Names(views[..i])
  }

  /** The embed graph has no cycle among these views: sources rank strictly lower. */
  ghost predicate Ranked(views: map<string, View>, rank: string -> nat) {
    forall n, s :: n in views && s in views[n].sources && s in views ==> rank(s) < rank(n)
  }

  ghost predicate Acyclic(views: seq<View>) {
    exists rank: string -> nat :: Ranked(ByName(views), rank)
  }

  /** Each emitted view has its mapped sources emitted before it. */
  ghost predicate SourcesFirst(byName: map<string, View>, out: seq<View>) {
    forall i, s :: 0 <= i < |out| && s in out[i].sources && s in byName ==> s in Names(out[..i])
  }

  lemma SourcesFirstSnoc(byName: map<string, View>, out: seq<View>, v: View)
    requires SourcesFirst(byName, out) && forall s :: s in v.sources && s in byName ==> s in Names(out)
    ensures SourcesFirst(byName, out + [v])
  {
    var more := out + [v];
    forall i, s | 0 <= i < |more| && s in more[i].sources && s in byName ensures s in Names(more[..i]) {
      if i < |out| { assert more[..i] == out[..i]; } else { assert more[..i] == out; }
    }
  }

  /** Every mapped name ranks below everything on the stack. */
  ghost predicate Below(byName: map<string, View>, names: seq<string>, grey: set<string>, rank: string -> nat) {
    forall i, g :: 0 <= i < |names| && names[i] in byName && g in grey ==> rank(names[i]) < rank(g)
  }

  lemma {:induction false} WalkSourcesFirst(
      byName: map<string, View>, names: seq<string>, grey: set<string>, out: seq<View>, rank: string -> nat)
    requires Keyed(byName) && Emitted(byName, out) && Closed(byName, Names(out), grey) && SourcesFirst(byName, out)
    requires Ranked(byName, rank) && Below(byName, names, grey, rank)
    ensures SourcesFirst(byName, Walk(byName, names, grey, out))
    decreases byName.Keys - grey, |names|
  {
    if names != [] {
      var front, n := names[..|names| - 1], names[|names| - 1];
      var before := Walk(byName, front, grey, out);
      assert forall i :: 0 <= i < |front| ==> front[i] == names[i];
      WalkSourcesFirst(byName, front, grey, out, rank);
      WalkEmits(byName, front, grey, out);
      WalkCloses(byName, front, grey, out);
      if !(n !in byName || n in grey || n in Names(before)) {
        var stack, sources := grey + {n}, byName[n].sources;
        assert n in byName.Keys - grey && n !in byName.Keys - stack;
        BelowSources(byName, n, grey, rank);
        WalkSourcesFirst(byName, sources, stack, before, rank);
        WalkCloses(byName, sources, stack, before);
        SourcesAreOut(byName, n, stack, Walk(byName, sources, stack, before), rank);
      }
    }
  }

  lemma SourcesAreOut(byName: map<string, View>, n: string, stack: set<string>, out: seq<View>, rank: string -> nat)
    requires n in byName && Below(byName, byName[n].sources, stack, rank)
    requires Holds(byName, byName[n].sources, stack, Names(out)) && SourcesFirst(byName, out)
    ensures SourcesFirst(byName, out + [byName[n]])
  {
    var sources := byName[n].sources;
    forall s | s in sources && s in byName ensures s in Names(out) {
      var i :| 0 <= i < |sources| && sources[i] == s;
      assert s in stack ==> rank(s) < rank(s);
    }
    SourcesFirstSnoc(byName, out, byName[n]);
  }

  lemma BelowSources(byName: map<string, View>, n: string, grey: set<string>, rank: string -> nat)
    requires n in byName && Ranked(byName, rank) && forall g :: g in grey ==> rank(n) < rank(g)
    ensures Below(byName, byName[n].sources, grey + {n}, rank)
  {
  }

  function IndexOf(views: seq<View>, n: string): (i: nat)
    requires n in Names(views)
    ensures i < |views| && views[i].name == n
    ensures forall j :: 0 <= j < i ==> views[j].name != n
  {
    if views[0].name == n then 0
    else
      assert n in Names(views[1..]) by {
        var j :| 0 <= j < |views| && views[j].name == n;
        assert views[1..][j - 1].name == n;
      }
      1 + IndexOf(views[1..], n)
  }

  /** Only an acyclic list can be put in order: positions are ranks. */
  lemma OrderedIsAcyclic(views: seq<View>, out: seq<View>)
    requires DistinctNames(views) && DistinctNames(out) && Names(out) == Names(views)
    requires forall i :: 0 <= i < |out| ==> out[i] in views
    requires DependencyOrdered(out)
    ensures Acyclic(views)
  {
    var rank: string -> nat := n => if n in Names(out) then IndexOf(out, n) else 0;
    var byName := ByName(views);
    forall n, s | n in byName && s in byName[n].sources && s in byName ensures rank(s) < rank(n) {
      var i := IndexOf(out, n);
      assert out[i] == byName[n];
      assert s in Names(out[..i]);
      var j :| 0 <= j < i && out[j].name == s;
      assert IndexOf(out, s) <= j;
    }
    assert Ranked(byName, rank);
  }

  lemma SourcesFirstIff(views: seq<View>)
    requires DistinctNames(views)
    ensures DependencyOrdered(Sorted(views)) <==> Acyclic(views)
  {
    SortedIsOrdered(views);
    if DependencyOrdered(Sorted(views)) { OrderedIsAcyclic(views, Sorted(views)); }
    if Acyclic(views) {
      var rank: string -> nat :| Ranked(ByName(views), rank);
      MapOf(views);
      WalkSourcesFirst(ByName(views), NamesOf(views), {}, [], rank);
    }
  }

  // ---- untouched lists ----

  /** Every materialized view is declared before its embedder, or is the embedder itself. */
  ghost predicate DeclaredFirst(views: seq<View>) {
    forall i, s :: 0 <= i < |views| && s in views[i].sources && s in Names(views) ==> s in Names(views[..i + 1])
  }

  lemma {:induction false} WalkPassesOver(
      byName: map<string, View>, names: seq<string>, grey: set<string>, out: seq<View>)
    requires forall i :: 0 <= i < |names| ==> names[i] !in byName || names[i] in grey || names[i] in Names(out)
    ensures Walk(byName, names, grey, out) == out
  {
    if names != [] { WalkPassesOver(byName, names[..|names| - 1], grey, out); }
  }

  lemma {:induction false} InPlace(views: seq<View>, k: nat)
    requires DistinctNames(views) && k <= |views| && (DeclaredFirst(views) || Sorted(views) == views)
    ensures Walk(ByName(views), NamesOf(views)[..k], {}, []) == views[..k]
  {
    if k > 0 {
      var j := k - 1;
      InPlace(views, j);
      WalkOn(ByName(views), NamesOf(views), j, k, {}, []);
      MappedAt(views, j);
      NextInPlace(views, j, k);
    }
  }

  lemma NextInPlace(views: seq<View>, j: nat, k: nat)
    requires DistinctNames(views) && j < k == j + 1 <= |views| && (DeclaredFirst(views) || Sorted(views) == views)
    requires Walk(ByName(views), NamesOf(views)[..k], {}, []) == Walk(ByName(views), [views[j].name], {}, views[..j])
    ensures Walk(ByName(views), NamesOf(views)[..k], {}, []) == views[..k]
  {
    var byName, names := ByName(views), NamesOf(views);
    MapOf(views);
    VisitedNext(views, byName, j, k);
    if DeclaredFirst(views) {
      SourcesPassedOver(views, byName, j, k);
    } else {
      WalkIsPrefix(byName, names, k, {}, []);
      LastTells(views, Walk(byName, names[..k], {}, []), j);
    }
  }

  lemma VisitedNext(views: seq<View>, byName: map<string, View>, j: nat, k: nat)
    requires DistinctNames(views) && byName == ByName(views) && j < k == j + 1 <= |views|
    ensures Walk(byName, [views[j].name], {}, views[..j]) ==
            Walk(byName, views[j].sources, {} + {views[j].name}, views[..j]) + [views[j]]
    ensures views[..k] == views[..j] + [views[j]]
  {
    MappedAt(views, j);
    WalkOne(byName, views[j].name, {}, views[..j]);
  }

  lemma SourcesPassedOver(views: seq<View>, byName: map<string, View>, j: nat, k: nat)
    requires byName.Keys == Names(views) && DeclaredFirst(views) && j < k == j + 1 <= |views|
    ensures Walk(byName, views[j].sources, {} + {views[j].name}, views[..j]) == views[..j]
  {
    NamesSnoc(views[..j], views[j]);
    assert views[..k] == views[..j] + [views[j]];
    WalkPassesOver(byName, views[j].sources, {} + {views[j].name}, views[..j]);
  }

  lemma LastTells(views: seq<View>, w: seq<View>, j: nat)
    requires DistinctNames(views) && j < |views| && w <= views && w != [] && w[|w| - 1] == views[j]
    ensures w == views[..j + 1]
  {
  }

  /** Where a walk stops, a longer one goes on. */
  lemma {:induction false} WalkIsPrefix(
      byName: map<string, View>, names: seq<string>, k: nat, grey: set<string>, out: seq<View>)
    requires Keyed(byName) && Emitted(byName, out) && k <= |names|
    ensures Walk(byName, names[..k], grey, out) <= Walk(byName, names, grey, out)
  {
    if k == |names| {
      assert names[..k] == names;
    } else {
      var front := names[..|names| - 1];
      assert front[..k] == names[..k];
      WalkIsPrefix(byName, front, k, grey, out);
      FrontIsOut(byName, names, grey, out);
    }
  }

  /** The list comes back untouched exactly when it is declared that way. */
  lemma UnchangedIff(views: seq<View>)
    requires DistinctNames(views)
    ensures Sorted(views) == views <==> DeclaredFirst(views)
  {
    var names := NamesOf(views);
    if DeclaredFirst(views) {
      InPlace(views, |views|);
      assert names[..|views|] == names && views[..|views|] == views;
    }
    if Sorted(views) == views {
      forall i, s | 0 <= i < |views| && s in views[i].sources && s in Names(views) ensures s in Names(views[..i + 1]) {
        SourceInFront(views, i, i + 1, s);
      }
    }
  }

  lemma SourceInFront(views: seq<View>, i: nat, k: nat, s: string)
    requires DistinctNames(views) && Sorted(views) == views && i < k == i + 1 <= |views|
    requires s in views[i].sources && s in Names(views)
    ensures s in Names(views[..k])
  {
    var byName := ByName(views);
    InPlace(views, k);
    MapOf(views);
    MappedAt(views, i);
    WalkCloses(byName, NamesOf(views)[..k], {}, []);
    assert views[..k][i] == views[i];
    assert views[i].name in Names(views[..k]) && s in byName[views[i].name].sources;
  }

  // ---- the two promises that fail ----

  lemma WalkSwaps(byName: map<string, View>, a: View, b: View, c: View)
    requires a == View("a", ["c"]) && b == View("b", []) && c == View("c", [])
    requires "a" in byName && byName["a"] == a && "b" in byName && byName["b"] == b && "c" in byName && byName["c"] == c
    ensures Walk(byName, ["a", "b", "c"], {}, []) == [c, a, b]
  {
    var names := ["a", "b", "c"];
    assert names[..0] == [] && names[..3] == names && {} + {"a"} == {"a"};
    WalkOne(byName, "c", {"a"}, []);
    assert Walk(byName, a.sources, {"a"}, []) == [c];
    WalkOne(byName, "a", {}, []);
    WalkOn(byName, names, 0, 1, {}, []);
    assert Walk(byName, names[..1], {}, []) == [c, a];
    WalkOne(byName, "b", {}, [c, a]);
    WalkOn(byName, names, 1, 2, {}, []);
    assert Walk(byName, names[..2], {}, []) == [c, a, b];
    assert [c, a, b][0].name == "c";
    WalkOne(byName, "c", {}, [c, a, b]);
    WalkOn(byName, names, 2, 3, {}, []);
  }

  /** A view without sources reaches itself alone. */
  lemma LeafReaches(byName: map<string, View>, n: string, x: string)
    requires n in byName && byName[n].sources == [] && x != n
    ensures !Reach(byName, [n], {}, x)
  {
    assert Closed(byName, {n}, {}) && Holds(byName, [n], {}, {n});
  }

  /** Views with nothing between them do not keep their order: c, declared behind b, is put
      in front of it because a, declared before both, materializes c. */
  lemma UnrelatedViewsSwap()
    ensures var a, b, c := View("a", ["c"]), View("b", []), View("c", []);
            Sorted([a, b, c]) == [c, a, b] && Unrelated([a, b, c], "b", "c")
  {
    var a, b, c := View("a", ["c"]), View("b", []), View("c", []);
    var views := [a, b, c];
    assert NamesOf(views) == ["a", "b", "c"];
    MappedAt(views, 0);
    MappedAt(views, 1);
    MappedAt(views, 2);
    WalkSwaps(ByName(views), a, b, c);
    LeafReaches(ByName(views), "b", "c");
    LeafReaches(ByName(views), "c", "b");
  }

  lemma WalkTurnsRound(byName: map<string, View>, a: View, b: View)
    requires a == View("a", ["b"]) && b == View("b", ["a"])
    requires "a" in byName && byName["a"] == a && "b" in byName && byName["b"] == b
    ensures Walk(byName, ["a", "b"], {}, []) == [b, a]
  {
    var names := ["a", "b"];
    assert names[..0] == [] && names[..2] == names && {} + {"a"} == {"a"} && {"a"} + {"b"} == {"a", "b"};
    WalkOne(byName, "a", {"a", "b"}, []);
    WalkOne(byName, "b", {"a"}, []);
    WalkOne(byName, "a", {}, []);
    WalkOn(byName, names, 0, 1, {}, []);
    assert Walk(byName, names[..1], {}, []) == [b, a] && [b, a][0].name == "b";
    WalkOne(byName, "b", {}, [b, a]);
    WalkOn(byName, names, 1, 2, {}, []);
  }

  /** A cycle does not come back in the order declared: its first view goes last. */
  lemma CycleTurnsRound()
    ensures var a, b := View("a", ["b"]), View("b", ["a"]);
            Sorted([a, b]) == [b, a]
  {
    var a, b := View("a", ["b"]), View("b", ["a"]);
    var views := [a, b];
    assert NamesOf(views) == ["a", "b"];
    MappedAt(views, 0);
    MappedAt(views, 1);
    WalkTurnsRound(ByName(views), a, b);
  }

  /** Any list of distinctly named views comes back as a permutation of itself, each two views
      in the order the list says, cycles or not; without cycles, every embedded view before
      its embedder; and untouched exactly when every embedded view is declared before its
      embedder. */
  method OrderViews(views: seq<View>) returns (out: seq<View>)
    requires DistinctNames(views)
    ensures out == Sorted(views) && Ordered(views, out)
    ensures DependencyOrdered(out) <==> Acyclic(views)
    ensures out == views <==> DeclaredFirst(views)
  {
    var byName := IndexViews(views);
    assert byName == ByName(views);
    out := VisitAll(views, byName);
    SortedIsOrdered(views);
    SourcesFirstIff(views);
    UnchangedIff(views);
  }

  // ---- plans ----

  /** A rebuild plan: the view it rebuilds and what drift detection decided about it. */
  datatype Plan = Plan(view: View, decision: string)

  function ViewsOf(plans: seq<Plan>): (views: seq<View>)
    ensures |views| == |plans|
  {
    seq(|plans|, i requires 0 <= i < |plans| => plans[i].view)
  }

  method IndexPlans(plans: seq<Plan>) returns (planOf: map<string, Plan>)
    requires DistinctNames(ViewsOf(plans))
    ensures forall j :: 0 <= j < |plans| ==> plans[j].view.name in planOf && planOf[plans[j].view.name] == plans[j]
  {
    planOf := map[];
    for i := 0 to |plans|
      invariant forall j :: 0 <= j < i ==> plans[j].view.name in planOf && planOf[plans[j].view.name] == plans[j]
    {
      forall j | 0 <= j < i ensures plans[j].view.name != plans[i].view.name {
        assert ViewsOf(plans)[j].name != ViewsOf(plans)[i].name;
      }
      planOf := planOf[plans[i].view.name := plans[i]];
    }
  }

  /** The plan of each view, in the order of the views. */
  method PlansOf(plans: seq<Plan>, planOf: map<string, Plan>, sorted: seq<View>) returns (ordered: seq<Plan>)
    requires forall j :: 0 <= j < |plans| ==> plans[j].view.name in planOf && planOf[plans[j].view.name] == plans[j]
    requires forall i :: 0 <= i < |sorted| ==> sorted[i] in ViewsOf(plans)
    ensures ViewsOf(ordered) == sorted
    ensures forall i :: 0 <= i < |ordered| ==> ordered[i] in plans
  {
    ordered := [];
    for i := 0 to |sorted|
      invariant |ordered| == i
      invariant forall j :: 0 <= j < i ==> ordered[j] in plans && ordered[j].view == sorted[j]
    {
      ghost var k :| 0 <= k < |plans| && ViewsOf(plans)[k] == sorted[i];
      assert plans[k].view == sorted[i];
      ordered := ordered + [planOf[sorted[i].name]];
    }
    assert ViewsOf(ordered) == sorted;
  }

  /** The plans reordered by their views: the same plans, none lost, none twice. */
  method OrderPlans(plans: seq<Plan>) returns (ordered: seq<Plan>)
    requires DistinctNames(ViewsOf(plans))
    ensures DistinctNames(ViewsOf(ordered)) && Names(ViewsOf(ordered)) == Names(ViewsOf(plans))
    ensures forall i :: 0 <= i < |ordered| ==> ordered[i] in plans
    ensures Acyclic(ViewsOf(plans)) ==> DependencyOrdered(ViewsOf(ordered))
    ensures if |plans| < 2 then ordered == plans else Ordered(ViewsOf(plans), ViewsOf(ordered))
  {
    if |plans| < 2 {
      if Acyclic(ViewsOf(plans)) { FewAreOrdered(ViewsOf(plans)); }
      return plans;
    }
    var planOf := IndexPlans(plans);
    var sorted := OrderViews(ViewsOf(plans));
    ordered := PlansOf(plans, planOf, sorted);
  }

  lemma FewAreOrdered(views: seq<View>)
    requires |views| < 2 && Acyclic(views)
    ensures DependencyOrdered(views)
  {
    var byName := ByName(views);
    var rank: string -> nat :| Ranked(byName, rank);
    forall i, s | 0 <= i < |views| && s in views[i].sources ensures s !in Names(views) {
      var n := views[i].name;
      assert n in Names(views) && byName[n] == views[i];
      assert s in byName ==> rank(s) < rank(n);
    }
  }
}
