/** Field references back to fields (domain/field_ref.go): an index of every exported
    field reachable without crossing a pointer, by offset and type, and the lookup that
    either names the field a reference addresses or panics. */
module FieldAtlas {
  import opened Options
  import opened Notifications

  /** Memory layout of a Go type: a struct with its fields at their offsets, or anything
      else (pointers included) as an opaque block. */
  datatype Type = Block(name: string, size: nat) | Struct(name: string, fields: seq<Field>, size: nat)

  datatype Field = Field(name: string, wire: string, exported: bool, anonymous: bool, offset: nat, typ: Type)

  datatype Key = Key(offset: nat, typ: Type)

  datatype Node = Node(segs: seq<PathSegment>, leaf: Field)

  datatype Entry = Entry(key: Key, node: Node)

  function SegsOf(f: Field): seq<PathSegment> {
    if f.anonymous then [] else [PathSegment(f.name, f.wire, None)]
  }

  predicate Walked(f: Field) {
    f.exported || f.anonymous
  }

  /** What the walk registers, in order. */
  function Walk(fields: seq<Field>, base: nat, prefix: seq<PathSegment>): seq<Entry>
    decreases fields
  {
    if fields == [] then []
    else WalkField(fields[0], base, prefix) + Walk(fields[1..], base, prefix)
  }

  function WalkField(f: Field, base: nat, prefix: seq<PathSegment>): seq<Entry>
    decreases f
  {
    if !Walked(f) then []
    else
      var off, segs := base + f.offset, prefix + SegsOf(f);
      (if f.anonymous then [] else [Entry(Key(off, f.typ), Node(segs, f))]) +
      (if f.typ.Struct? then Walk(f.typ.fields, off, segs) else [])
  }

  // ---- the maps the walk fills ----

  datatype Atlas = Atlas(nodes: map<Key, Node>, ambiguous: set<Key>)

  function Register(a: Atlas, e: Entry): Atlas {
    if e.key in a.nodes then a.(ambiguous := a.ambiguous + {e.key}) else a.(nodes := a.nodes[e.key := e.node])
  }

  function RegisterAll(a: Atlas, es: seq<Entry>): Atlas {
    if es == [] then a else Register(RegisterAll(a, es[..|es| - 1]), es[|es| - 1])
  }

  lemma {:induction false} RegisterAllConcat(a: Atlas, es: seq<Entry>, fs: seq<Entry>)
    ensures RegisterAll(a, es + fs) == RegisterAll(RegisterAll(a, es), fs)
  {
    if fs == [] {
      assert es + fs == es;
    } else {
      assert (es + fs)[..|es + fs| - 1] == es + fs[..|fs| - 1];
      RegisterAllConcat(a, es, fs[..|fs| - 1]);
    }
  }

  class Builder {
    var nodes: map<Key, Node>
    var ambiguous: set<Key>

    ghost function Value(): Atlas
      reads this
    {
      Atlas(nodes, ambiguous)
    }

    constructor ()
      ensures Value() == Atlas(map[], {})
    {
      nodes, ambiguous := map[], {};
    }

    method DoRegister(key: Key, node: Node)
      modifies this
      ensures Value() == Register(old(Value()), Entry(key, node))
    {
      if key in nodes {
        ambiguous := ambiguous + {key};
        return;
      }
      nodes := nodes[key := node];
    }

    method DoWalk(fields: seq<Field>, base: nat, prefix: seq<PathSegment>)
      modifies this
      ensures Value() == RegisterAll(old(Value()), Walk(fields, base, prefix))
      decreases fields
    {
      for i := 0 to |fields|
        invariant RegisterAll(Value(), Walk(fields[i..], base, prefix)) ==
                  RegisterAll(old(Value()), Walk(fields, base, prefix))
      {
        assert fields[i..][0] == fields[i] && fields[i..][1..] == fields[i + 1..];
        RegisterAllConcat(Value(), WalkField(fields[i], base, prefix), Walk(fields[i + 1..], base, prefix));
        DoWalkField(fields[i], base, prefix);
      }
    }

    /** The body of the walk's loop. */
    method DoWalkField(f: Field, base: nat, prefix: seq<PathSegment>)
      modifies this
      ensures Value() == RegisterAll(old(Value()), WalkField(f, base, prefix))
      decreases f
    {
      if !f.exported && !f.anonymous { return; }
      var off := base + f.offset;
      var segs := prefix;
      if !f.anonymous {
        segs := prefix + [PathSegment(f.name, f.wire, None)];
        DoRegister(Key(off, f.typ), Node(segs, f));
      }
      assert segs == prefix + SegsOf(f);
      ghost var own := if f.anonymous then [] else [Entry(Key(off, f.typ), Node(segs, f))];
      assert Value() == RegisterAll(old(Value()), own);
      if f.typ.Struct? {
        RegisterAllConcat(old(Value()), own, Walk(f.typ.fields, off, segs));
        DoWalk(f.typ.fields, off, segs);
      }
    }
  }

  // ---- lookup ----

  datatype Lookup = Resolved(node: Node) | NotBound | NotAPointer | Outside | Ambiguous | NoField

  function Locate(a: Atlas, key: Key): Lookup {
    if key in a.ambiguous then Ambiguous else if key in a.nodes then Resolved(a.nodes[key]) else NoField
  }

  datatype Binding = Binding(address: nat, typ: Type)

  /** A value handed to AddNotification: a pointer to something of type `typ`, or not a
      usable pointer at all. */
  datatype Reference = Pointer(address: nat, typ: Type) | Other

  function AtlasOf(t: Type): Atlas
    requires t.Struct?
  {
    RegisterAll(Atlas(map[], {}), Walk(t.fields, 0, []))
  }

  function Resolve(bound: Option<Binding>, ref: Reference): Lookup
    requires bound.Some? ==> bound.value.typ.Struct?
  {
    if bound.None? then NotBound
    else if ref.Other? then NotAPointer
    else
      var base, t := bound.value.address, bound.value.typ;
      if ref.address < base || ref.address >= base + t.size then Outside
      else Locate(AtlasOf(t), Key(ref.address - base, ref.typ))
  }

  /** What the two maps say about a key: absent, registered once, or more than once. */
  lemma {:induction false} RegisterAllMeans(es: seq<Entry>, key: Key)
    ensures var a := RegisterAll(Atlas(map[], {}), es);
            && (key in a.nodes <==> exists i :: 0 <= i < |es| && es[i].key == key)
            && (key in a.nodes ==> exists i :: 0 <= i < |es| && es[i].key == key && es[i].node == a.nodes[key])
            && (key in a.ambiguous <==> exists i, j :: 0 <= i < j < |es| && es[i].key == key && es[j].key == key)
  {
    if es != [] {
      var n := |es| - 1;
      var before := es[..n];
      RegisterAllMeans(before, key);
      assert forall i :: 0 <= i < n ==> before[i] == es[i];
      var a, b := RegisterAll(Atlas(map[], {}), before), RegisterAll(Atlas(map[], {}), es);
      if key in a.nodes {
        var i :| 0 <= i < n && before[i].key == key && before[i].node == a.nodes[key];
        assert es[i].key == key && es[i].node == b.nodes[key];
      }
      if key in a.ambiguous {
        var i, j :| 0 <= i < j < n && before[i].key == key && before[j].key == key;
        assert es[i].key == key && es[j].key == key;
      }
    }
  }

  ghost predicate OnlyAt(es: seq<Entry>, key: Key, i: nat) {
    forall j :: 0 <= j < |es| && es[j].key == key ==> j == i
  }

  /** What a successful lookup found: the one entry of its key. */
  lemma LocatedAt(es: seq<Entry>, key: Key, node: Node) returns (i: nat)
    requires Locate(RegisterAll(Atlas(map[], {}), es), key) == Resolved(node)
    ensures i < |es| && es[i] == Entry(key, node) && OnlyAt(es, key, i)
  {
    RegisterAllMeans(es, key);
    i :| 0 <= i < |es| && es[i].key == key && es[i].node == node;
  }

  lemma LocatesOnly(es: seq<Entry>, key: Key, node: Node, i: nat)
    requires i < |es| && es[i] == Entry(key, node) && OnlyAt(es, key, i)
    ensures Locate(RegisterAll(Atlas(map[], {}), es), key) == Resolved(node)
  {
    RegisterAllMeans(es, key);
    assert es[i].key == key;
  }

  /** A lookup finds a node exactly when one entry, and no other, has the key. */
  lemma LocateIff(es: seq<Entry>, key: Key, node: Node)
    ensures Locate(RegisterAll(Atlas(map[], {}), es), key) == Resolved(node) <==>
            exists i: nat :: i < |es| && es[i] == Entry(key, node) && OnlyAt(es, key, i)
  {
    if Locate(RegisterAll(Atlas(map[], {}), es), key) == Resolved(node) { var i := LocatedAt(es, key, node); }
    if i: nat :| i < |es| && es[i] == Entry(key, node) && OnlyAt(es, key, i) { LocatesOnly(es, key, node, i); }
  }

  /** An ambiguous key was registered twice. */
  lemma AmbiguousPair(es: seq<Entry>, key: Key) returns (i: nat, j: nat)
    requires Locate(RegisterAll(Atlas(map[], {}), es), key) == Ambiguous
    ensures i < j < |es| && es[i].key == key && es[j].key == key
  {
    RegisterAllMeans(es, key);
    i, j :| 0 <= i < j < |es| && es[i].key == key && es[j].key == key;
  }
}
