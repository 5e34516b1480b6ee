/** The atlas against an independent account of fields: a field is addressed by a route
    from the struct to it, and the lookup names exactly the route a reference took. */
module FieldLaws {
  import opened Options
  import opened Notifications
  import opened FieldAtlas

  /** A route through a list of fields: this field, into this field's struct, or on to
      the fields behind it. */
  datatype Route = Here | Into(inner: Route) | Next(rest: Route)

  /** The route stays among exported and embedded fields and ends at a named one. */
  ghost predicate Leads(fields: seq<Field>, r: Route)
    decreases r
  {
    && fields != []
    && match r
       case Here => fields[0].exported && !fields[0].anonymous
       case Into(inner) =>
         (fields[0].exported || fields[0].anonymous) && fields[0].typ.Struct? && Leads(fields[0].typ.fields, inner)
       case Next(rest) => Leads(fields[1..], rest)
  }

  ghost function Target(fields: seq<Field>, r: Route): Field
    requires Leads(fields, r)
    decreases r
  {
    match r
    case Here => fields[0]
    case Into(inner) => Target(fields[0].typ.fields, inner)
    case Next(rest) => Target(fields[1..], rest)
  }

  ghost function OffsetOf(fields: seq<Field>, r: Route): nat
    requires Leads(fields, r)
    decreases r
  {
    match r
    case Here => fields[0].offset
    case Into(inner) => fields[0].offset + OffsetOf(fields[0].typ.fields, inner)
    case Next(rest) => OffsetOf(fields[1..], rest)
  }

  /** The names on the way; embedded structs contribute none. */
  ghost function NamesOf(fields: seq<Field>, r: Route): seq<PathSegment>
    requires Leads(fields, r)
    decreases r
  {
    match r
    case Here => [PathSegment(fields[0].name, fields[0].wire, None)]
    case Into(inner) =>
      var below := NamesOf(fields[0].typ.fields, inner);
      if fields[0].anonymous then below else [PathSegment(fields[0].name, fields[0].wire, None)] + below
    case Next(rest) => NamesOf(fields[1..], rest)
  }

  ghost function EntryOf(fields: seq<Field>, r: Route, base: nat, prefix: seq<PathSegment>): Entry
    requires Leads(fields, r)
  {
    Entry(Key(base + OffsetOf(fields, r), Target(fields, r).typ), Node(prefix + NamesOf(fields, r), Target(fields, r)))
  }

  /** Where the walk puts the route. */
  ghost function Position(fields: seq<Field>, r: Route): nat
    requires Leads(fields, r)
    decreases r
  {
    match r
    case Here => 0
    case Into(inner) => (if fields[0].anonymous then 0 else 1) + Position(fields[0].typ.fields, inner)
    case Next(rest) => |WalkField(fields[0], 0, [])| + Position(fields[1..], rest)
  }

  lemma {:induction false} WalkLength(fields: seq<Field>, base: nat, prefix: seq<PathSegment>)
    ensures |Walk(fields, base, prefix)| == |Walk(fields, 0, [])|
    decreases fields
  {
    if fields != [] {
      WalkFieldLength(fields[0], base, prefix);
      WalkLength(fields[1..], base, prefix);
    }
  }

  lemma {:induction false} WalkFieldLength(f: Field, base: nat, prefix: seq<PathSegment>)
    ensures |WalkField(f, base, prefix)| == |WalkField(f, 0, [])|
    decreases f
  {
    if f.typ.Struct? {
      WalkLength(f.typ.fields, base + f.offset, prefix + SegsOf(f));
      WalkLength(f.typ.fields, f.offset, [] + SegsOf(f));
    }
  }

  /** What the walk of a field's struct holds, the walk of the field holds behind its own entry. */
  lemma {:induction false} WalkFieldHasInner(fields: seq<Field>, inner: Route, base: nat, prefix: seq<PathSegment>)
    requires Leads(fields, Into(inner))
    requires var f := fields[0];
             var below, i := Walk(f.typ.fields, base + f.offset, prefix + SegsOf(f)), Position(f.typ.fields, inner);
             i < |below| && below[i] == EntryOf(f.typ.fields, inner, base + f.offset, prefix + SegsOf(f))
    ensures var own, i := WalkField(fields[0], base, prefix), Position(fields, Into(inner));
            i < |own| && own[i] == EntryOf(fields, Into(inner), base, prefix)
  {
    var f, off := fields[0], base + fields[0].offset;
    var segs := prefix + SegsOf(f);
    var own := if f.anonymous then [] else [Entry(Key(off, f.typ), Node(segs, f))];
    var below, i := Walk(f.typ.fields, off, segs), Position(f.typ.fields, inner);
    assert WalkField(f, base, prefix) == own + below;
    assert (own + below)[|own| + i] == below[i];
    NamesOn(fields, inner, prefix);
  }

  lemma NamesOn(fields: seq<Field>, inner: Route, prefix: seq<PathSegment>)
    requires Leads(fields, Into(inner))
    ensures (prefix + SegsOf(fields[0])) + NamesOf(fields[0].typ.fields, inner) ==
            prefix + NamesOf(fields, Into(inner))
  {
  }

  /** Every route is registered, at its position, under its own offset, type and names. */
  lemma {:induction false} WalkHasRoute(fields: seq<Field>, r: Route, base: nat, prefix: seq<PathSegment>)
    requires Leads(fields, r)
    ensures Position(fields, r) < |Walk(fields, base, prefix)|
    ensures Walk(fields, base, prefix)[Position(fields, r)] == EntryOf(fields, r, base, prefix)
    decreases r
  {
    var f := fields[0];
    match r
    case Here =>
      assert WalkField(f, base, prefix)[0] == EntryOf(fields, r, base, prefix);
    case Into(inner) =>
      WalkHasRoute(f.typ.fields, inner, base + f.offset, prefix + SegsOf(f));
      WalkFieldHasInner(fields, inner, base, prefix);
    case Next(rest) =>
      WalkFieldLength(f, base, prefix);
      WalkHasRoute(fields[1..], rest, base, prefix);
  }

  /** Distinct routes have distinct positions. */
  lemma {:induction false} PositionInjective(fields: seq<Field>, r: Route, q: Route)
    requires Leads(fields, r) && Leads(fields, q) && Position(fields, r) == Position(fields, q)
    ensures r == q
    decreases r
  {
    var f := fields[0];
    PositionBound(fields, r);
    PositionBound(fields, q);
    match (r, q)
    case (Into(a), Into(b)) => PositionInjective(f.typ.fields, a, b);
    case (Next(a), Next(b)) => PositionInjective(fields[1..], a, b);
    case _ =>
  }

  /** A route through the first field lies in that field's part of the walk. */
  lemma PositionBound(fields: seq<Field>, r: Route)
    requires Leads(fields, r)
    ensures !r.Next? ==> Position(fields, r) < |WalkField(fields[0], 0, [])|
    ensures r.Into? && !fields[0].anonymous ==> Position(fields, r) > 0
  {
    if r.Into? {
      WalkHasRoute(fields[0].typ.fields, r.inner, fields[0].offset, [] + SegsOf(fields[0]));
    }
  }

  /** Everything registered is a route. */
  lemma {:induction false} RouteAt(fields: seq<Field>, n: nat) returns (r: Route)
    requires n < |Walk(fields, 0, [])|
    ensures Leads(fields, r) && Position(fields, r) == n
    decreases fields
  {
    var f := fields[0];
    var own := WalkField(f, 0, []);
    if n >= |own| {
      var rest := RouteAt(fields[1..], n - |own|);
      r := Next(rest);
    } else if n == 0 && !f.anonymous {
      r := Here;
    } else {
      var k := n - if f.anonymous then 0 else 1;
      WalkLength(f.typ.fields, f.offset, [] + SegsOf(f));
      var inner := RouteAt(f.typ.fields, k);
      r := Into(inner);
    }
  }

  // ---- layouts without zero-size fields ----

  function Size(t: Type): nat {
    t.size
  }

  ghost function Depth(t: Type): nat
    decreases t
  {
    if t.Block? then 0 else 1 + DepthOfAll(t.fields)
  }

  ghost function DepthOfAll(fields: seq<Field>): nat
    decreases fields
  {
    if fields == [] then 0
    else
      var a, b := Depth(fields[0].typ), DepthOfAll(fields[1..]);
      if a > b then a else b
  }

  /** Fields occupy pairwise disjoint, non-empty ranges inside their struct. */
  ghost predicate WellLaidOut(t: Type)
    decreases t
  {
    t.Struct? ==> AllLaidOut(t.fields, t.size)
  }

  ghost predicate AllLaidOut(fields: seq<Field>, size: nat)
    decreases fields
  {
    fields == [] ||
    (&& Size(fields[0].typ) > 0
     && fields[0].offset + Size(fields[0].typ) <= size
     && WellLaidOut(fields[0].typ)
     && (forall j :: 1 <= j < |fields| ==> Disjoint(fields[0], fields[j]))
     && AllLaidOut(fields[1..], size))
  }

  predicate Disjoint(f: Field, g: Field) {
    f.offset + Size(f.typ) <= g.offset || g.offset + Size(g.typ) <= f.offset
  }

  /** Where a route ends: a non-empty range inside the struct, of a type nested strictly
      less deep than the struct itself. */
  lemma {:induction false} RouteWithin(fields: seq<Field>, size: nat, r: Route)
    requires AllLaidOut(fields, size) && Leads(fields, r)
    ensures Size(Target(fields, r).typ) > 0
    ensures OffsetOf(fields, r) + Size(Target(fields, r).typ) <= size
    ensures Depth(Target(fields, r).typ) <= DepthOfAll(fields)
    decreases r
  {
    match r
    case Here =>
    case Into(inner) => RouteWithin(fields[0].typ.fields, fields[0].typ.size, inner);
    case Next(rest) => RouteWithin(fields[1..], size, rest);
  }

  /** A route behind the first field stays clear of the first field's range. */
  lemma {:induction false} RouteAvoids(f: Field, fields: seq<Field>, size: nat, r: Route)
    requires AllLaidOut(fields, size) && Leads(fields, r)
    requires forall j :: 0 <= j < |fields| ==> Disjoint(f, fields[j])
    ensures var off, end := OffsetOf(fields, r), OffsetOf(fields, r) + Size(Target(fields, r).typ);
            f.offset + Size(f.typ) <= off || end <= f.offset
    decreases r
  {
    assert Disjoint(f, fields[0]);
    match r
    case Here =>
    case Into(inner) => RouteWithin(fields[0].typ.fields, fields[0].typ.size, inner);
    case Next(rest) => RouteAvoids(f, fields[1..], size, rest);
  }

  /** A route through the first field stays inside its range. */
  lemma RouteInFirst(fields: seq<Field>, size: nat, r: Route)
    requires AllLaidOut(fields, size) && Leads(fields, r) && !r.Next?
    ensures var off := OffsetOf(fields, r);
            fields[0].offset <= off && off + Size(Target(fields, r).typ) <= fields[0].offset + Size(fields[0].typ)
    ensures r.Into? ==> Depth(Target(fields, r).typ) < Depth(fields[0].typ)
  {
    if r.Into? { RouteWithin(fields[0].typ.fields, fields[0].typ.size, r.inner); }
  }

  /** No two routes share offset and type. */
  lemma {:induction false} KeysDistinct(fields: seq<Field>, size: nat, r: Route, q: Route)
    requires AllLaidOut(fields, size) && Leads(fields, r) && Leads(fields, q)
    requires OffsetOf(fields, r) == OffsetOf(fields, q) && Target(fields, r).typ == Target(fields, q).typ
    ensures r == q
    decreases r
  {
    var f := fields[0];
    RouteWithin(fields, size, r);
    if !r.Next? { RouteInFirst(fields, size, r); } else { RouteAvoids(f, fields[1..], size, r.rest); }
    if !q.Next? { RouteInFirst(fields, size, q); } else { RouteAvoids(f, fields[1..], size, q.rest); }
    match (r, q)
    case (Into(a), Into(b)) => KeysDistinct(f.typ.fields, f.typ.size, a, b);
    case (Next(a), Next(b)) => KeysDistinct(fields[1..], size, a, b);
    case _ =>
  }

  // ---- the theorems ----

  /** Two routes a reference cannot tell apart. */
  ghost predicate SameSpot(fields: seq<Field>, r: Route, q: Route)
    requires Leads(fields, r)
  {
    Leads(fields, q) && OffsetOf(fields, q) == OffsetOf(fields, r) && Target(fields, q).typ == Target(fields, r).typ
  }

  ghost function ReferenceTo(t: Type, address: nat, r: Route): Reference
    requires t.Struct? && Leads(t.fields, r)
  {
    Pointer(address + OffsetOf(t.fields, r), Target(t.fields, r).typ)
  }

  /** What is registered where, with the route it comes from. */
  lemma EntryAt(fields: seq<Field>, n: nat) returns (r: Route)
    requires n < |Walk(fields, 0, [])|
    ensures Leads(fields, r) && Position(fields, r) == n
    ensures Walk(fields, 0, [])[n] == EntryOf(fields, r, 0, [])
  {
    r := RouteAt(fields, n);
    WalkHasRoute(fields, r, 0, []);
  }

  lemma UnsharedIsOnly(fields: seq<Field>, r: Route)
    requires Leads(fields, r) && forall q :: SameSpot(fields, r, q) ==> q == r
    ensures OnlyAt(Walk(fields, 0, []), EntryOf(fields, r, 0, []).key, Position(fields, r))
  {
    var es, key := Walk(fields, 0, []), EntryOf(fields, r, 0, []).key;
    forall j | 0 <= j < |es| && es[j].key == key ensures j == Position(fields, r) {
      var q := EntryAt(fields, j);
      assert SameSpot(fields, r, q);
    }
  }

  lemma OnlyIsUnshared(fields: seq<Field>, r: Route, q: Route)
    requires Leads(fields, r) && SameSpot(fields, r, q)
    requires OnlyAt(Walk(fields, 0, []), EntryOf(fields, r, 0, []).key, Position(fields, r))
    ensures q == r
  {
    WalkHasRoute(fields, q, 0, []);
    PositionInjective(fields, q, r);
  }

  /** On any layout: a reference to a field in range resolves to that field exactly when
      no other field shares its offset and type. */
  lemma ResolvesIffUnshared(t: Type, address: nat, r: Route)
    requires t.Struct? && Leads(t.fields, r) && OffsetOf(t.fields, r) < t.size
    ensures Resolve(Some(Binding(address, t)), ReferenceTo(t, address, r)) ==
            Resolved(Node(NamesOf(t.fields, r), Target(t.fields, r))) <==>
            forall q :: SameSpot(t.fields, r, q) ==> q == r
  {
    var es, e := Walk(t.fields, 0, []), EntryOf(t.fields, r, 0, []);
    WalkHasRoute(t.fields, r, 0, []);
    assert [] + NamesOf(t.fields, r) == NamesOf(t.fields, r);
    if forall q :: SameSpot(t.fields, r, q) ==> q == r {
      UnsharedIsOnly(t.fields, r);
      LocatesOnly(es, e.key, e.node, Position(t.fields, r));
    }
    if Locate(AtlasOf(t), e.key) == Resolved(e.node) {
      var i := LocatedAt(es, e.key, e.node);
      forall q | SameSpot(t.fields, r, q) ensures q == r { OnlyIsUnshared(t.fields, r, q); }
    }
  }

  /** Every exported named field reachable by value resolves to its own names. */
  lemma FieldResolvesToItself(t: Type, address: nat, r: Route)
    requires t.Struct? && WellLaidOut(t) && Leads(t.fields, r)
    ensures Resolve(Some(Binding(address, t)), ReferenceTo(t, address, r)) ==
            Resolved(Node(NamesOf(t.fields, r), Target(t.fields, r)))
  {
    RouteWithin(t.fields, t.size, r);
    forall q | SameSpot(t.fields, r, q) ensures q == r {
      KeysDistinct(t.fields, t.size, r, q);
    }
    ResolvesIffUnshared(t, address, r);
  }

  /** On any layout, zero-size fields included: a successful lookup names a field that
      lies at the reference with the reference's type, and the only one that does. */
  lemma ResolvedIsTheOnlyField(t: Type, address: nat, ref: Reference, node: Node) returns (r: Route)
    requires t.Struct? && Resolve(Some(Binding(address, t)), ref) == Resolved(node)
    ensures Leads(t.fields, r)
    ensures ref == ReferenceTo(t, address, r)
    ensures node == Node(NamesOf(t.fields, r), Target(t.fields, r))
    ensures forall q :: SameSpot(t.fields, r, q) ==> q == r
  {
    var es := Walk(t.fields, 0, []);
    var key := Key(ref.address - address, ref.typ);
    var i := LocatedAt(es, key, node);
    r := EntryAt(t.fields, i);
    assert [] + NamesOf(t.fields, r) == NamesOf(t.fields, r);
    forall q | SameSpot(t.fields, r, q) ensures q == r { OnlyIsUnshared(t.fields, r, q); }
  }

  lemma NeverAmbiguous(t: Type, address: nat, ref: Reference)
    requires t.Struct? && WellLaidOut(t) && ref.Pointer?
    ensures Resolve(Some(Binding(address, t)), ref) != Ambiguous
  {
    if Resolve(Some(Binding(address, t)), ref) == Ambiguous {
      var es, key := Walk(t.fields, 0, []), Key(ref.address - address, ref.typ);
      var i, j := AmbiguousPair(es, key);
      var r := EntryAt(t.fields, i);
      var q := EntryAt(t.fields, j);
      KeysDistinct(t.fields, t.size, r, q);
      assert false;
    }
  }

  /** On a well-laid-out struct, a reference in range that is no such field is refused. */
  lemma OtherReferencesAreRefused(t: Type, address: nat, ref: Reference)
    requires t.Struct? && WellLaidOut(t) && ref.Pointer?
    ensures Resolve(Some(Binding(address, t)), ref).Resolved? <==>
            exists r :: Leads(t.fields, r) && ref == ReferenceTo(t, address, r)
    ensures Resolve(Some(Binding(address, t)), ref) != Ambiguous
  {
    var l := Resolve(Some(Binding(address, t)), ref);
    NeverAmbiguous(t, address, ref);
    if l.Resolved? {
      var r := ResolvedIsTheOnlyField(t, address, ref, l.node);
      assert Leads(t.fields, r) && ref == ReferenceTo(t, address, r);
    }
    if r :| Leads(t.fields, r) && ref == ReferenceTo(t, address, r) {
      FieldResolvesToItself(t, address, r);
    }
  }

  /** Why a reference is refused: no binding; not a pointer; or one outside the bound block,
      its end included. Every other one is looked up. */
  lemma RefusedIff(bound: Option<Binding>, ref: Reference)
    requires bound.Some? ==> bound.value.typ.Struct?
    ensures Resolve(bound, ref) == NotBound <==> bound.None?
    ensures Resolve(bound, ref) == NotAPointer <==> bound.Some? && ref.Other?
    ensures Resolve(bound, ref) == Outside <==>
            bound.Some? && ref.Pointer? && !(0 <= ref.address - bound.value.address < bound.value.typ.size)
  {
  }
}
