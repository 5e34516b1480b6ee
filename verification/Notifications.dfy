/** Notification contexts, scoped views of them, and the rendering of structured field
    paths (domain/notification.go). */
module Notifications {
  import opened Decimals
  import opened Options
  import opened Strings
  import opened WireNames

  datatype PathSegment = PathSegment(name: string, wire: string, index: Option<Int64>)

  function NameSegment(name: string): PathSegment { PathSegment(name, "", None) }

  function IndexSegment(i: Int64): PathSegment { PathSegment("", "", Some(i)) }

  /** `literal` is the override that wins over the rendered path; `kind` stands for
      everything else a message carries. */
  datatype Message = Message(path: seq<PathSegment>, literal: string, kind: string)

  // ---- rendering ----

  function Token(seg: PathSegment): string
    requires seg.index.None?
  {
    if seg.wire != "" then seg.wire else LowerCamel(seg.name)
  }

  predicate Silent(seg: PathSegment) {
    seg.index.None? && seg.name == "" && seg.wire == ""
  }

  /** The text so far, and whether anything was written. */
  function Render(path: seq<PathSegment>): (string, bool) {
    if path == [] then ("", false)
    else
      var (text, wroteAny) := Render(path[..|path| - 1]);
      var seg := path[|path| - 1];
      if seg.index.Some? then (text + "[" + Rendered(seg.index.value) + "]", true)
      else if Silent(seg) then (text, wroteAny)
      else (if wroteAny then text + "." + Token(seg) else text + Token(seg), true)
  }

  method RenderPath(path: seq<PathSegment>) returns (b: string)
    ensures b == Render(path).0
  {
    b := "";
    var wroteAny := false;
    for n := 0 to |path|
      invariant (b, wroteAny) == Render(path[..n])
    {
      assert path[..n + 1][..n] == path[..n];
      var seg := path[n];
      if seg.index.Some? {
        var digits := Itoa(seg.index.value);
        b := b + "[" + digits + "]";
        wroteAny := true;
        continue;
      }
      if seg.name == "" && seg.wire == "" { continue; }
      if wroteAny { b := b + "."; }
      if seg.wire != "" {
        b := b + seg.wire;
      } else {
        var t := ToLowerCamel(seg.name);
        b := b + t;
      }
      wroteAny := true;
    }
    assert path[..|path|] == path;
  }

  function ResolveFieldName(m: Message): string {
    if m.literal != "" then m.literal else Render(m.path).0
  }

  function NamePath(names: seq<string>): (path: seq<PathSegment>)
    ensures |path| == |names|
  {
    seq(|names|, i requires 0 <= i < |names| => NameSegment(names[i]))
  }

  lemma {:induction false} JoinSnoc(parts: seq<string>, last: string, sep: char)
    requires parts != []
    ensures Join(parts + [last], sep) == Join(parts, sep) + [sep] + last
  {
    if |parts| == 1 {
      assert (parts + [last])[1..] == [last];
    } else {
      assert (parts + [last])[1..] == parts[1..] + [last];
      JoinSnoc(parts[1..], last, sep);
    }
  }

  /** Name segments only, each with something to say. */
  ghost predicate Named(path: seq<PathSegment>) {
    forall i :: 0 <= i < |path| ==> path[i].index.None? && (path[i].name != "" || path[i].wire != "")
  }

  ghost function Tokens(path: seq<PathSegment>): (r: seq<string>)
    requires Named(path)
    ensures |r| == |path|
  {
    seq(|path|, i requires 0 <= i < |path| =>
      if path[i].wire != "" then path[i].wire else LowerCamel(path[i].name))
  }

  /** A path of names, with wire names or without, renders dotted. */
  lemma {:induction false} RenderTokens(path: seq<PathSegment>)
    requires Named(path)
    ensures Render(path) == (Join(Tokens(path), '.'), path != [])
  {
    if path != [] {
      var n := |path| - 1;
      var before := path[..n];
      RenderTokens(before);
      assert Tokens(path) == Tokens(before) + [Token(path[n])];
      if before != [] {
        JoinSnoc(Tokens(before), Token(path[n]), '.');
      } else {
        assert "" + Token(path[n]) == Token(path[n]);
        assert Join(Tokens(before), '.') == "";
      }
    }
  }

  lemma RenderNames(names: seq<string>)
    requires forall i :: 0 <= i < |names| ==> names[i] != ""
    ensures Render(NamePath(names)) == (Join(LowerAll(names), '.'), names != [])
  {
    RenderTokens(NamePath(names));
    assert Tokens(NamePath(names)) == LowerAll(names);
  }

  /** Some segment of the path has something to say. */
  ghost predicate Says(path: seq<PathSegment>) {
    exists i :: 0 <= i < |path| && (path[i].index.Some? || path[i].name != "" || path[i].wire != "")
  }

  lemma {:induction false} WroteIff(path: seq<PathSegment>)
    ensures Render(path).1 <==> Says(path)
  {
    if path != [] {
      var n := |path| - 1;
      WroteIff(path[..n]);
      assert forall i :: 0 <= i < n ==> path[..n][i] == path[i];
    }
  }

  /** One segment more: an index in brackets, at once; a name behind a dot, unless nothing
      comes before it. */
  lemma RenderNext(path: seq<PathSegment>, seg: PathSegment)
    requires seg.index.Some? || seg.name != "" || seg.wire != ""
    ensures var text := Render(path).0;
            Render(path + [seg]).0 ==
              if seg.index.Some? then text + "[" + Rendered(seg.index.value) + "]"
              else if Says(path) then text + "." + Token(seg)
              else Token(seg)
  {
    var more := path + [seg];
    assert more[..|more| - 1] == path && more[|more| - 1] == seg;
    WroteIff(path);
    if !Says(path) { NothingWritten(path); }
  }

  lemma {:induction false} NothingWritten(path: seq<PathSegment>)
    requires !Says(path)
    ensures Render(path).0 == ""
  {
    if path != [] {
      var n := |path| - 1;
      assert forall i :: 0 <= i < n ==> path[..n][i] == path[i];
      NothingWritten(path[..n]);
    }
  }

  /** A segment with nothing to say leaves no trace, wherever it stands. */
  lemma {:induction false} RenderSkipsSilent(a: seq<PathSegment>, seg: PathSegment, b: seq<PathSegment>)
    requires seg == NameSegment("")
    ensures Render(a + [seg] + b) == Render(a + b)
  {
    if b == [] {
      assert a + [seg] + b == a + [seg] && a + b == a;
    } else {
      var n := |b| - 1;
      assert a + [seg] + b == (a + [seg] + b[..n]) + [b[n]] && a + b == (a + b[..n]) + [b[n]];
      RenderSkipsSilent(a, seg, b[..n]);
    }
  }

  /** A structured path of names renders as the dotted path of those names does. */
  lemma RenderMatchesWirePath(names: seq<string>)
    requires names != [] && AllFree(names, '.')
    requires forall i :: 0 <= i < |names| ==> names[i] != ""
    ensures Render(NamePath(names)).0 == WirePath(Join(names, '.'))
  {
    RenderNames(names);
    WirePathOfJoin(names);
  }

  /** A child's field: collection, index, field, as in "addresses[0].zipCode". */
  lemma RenderScopedField(collection: string, i: Int64, field: string)
    requires collection != "" && field != ""
    ensures Render([NameSegment(collection), IndexSegment(i), NameSegment(field)]).0 ==
            LowerCamel(collection) + "[" + Rendered(i) + "]" + "." + LowerCamel(field)
  {
    var a, b, c := NameSegment(collection), IndexSegment(i), NameSegment(field);
    assert [a, b, c][..2] == [a, b] && [a, b][..1] == [a] && [a][..0] == [];
    assert Render([a]) == (LowerCamel(collection), true) by {
      assert "" + LowerCamel(collection) == LowerCamel(collection);
    }
  }

  // ---- contexts ----

  /** The prefix of a scope, put in front of a message that names a field. */
  function Prefixed(prefix: seq<PathSegment>, m: Message): Message {
    if prefix != [] && m.path != [] then m.(path := prefix + m.path) else m
  }

  /** A scope shows in front of the fields it scopes, and nowhere else: not on a literal
      name, and not on a message that names no field. */
  lemma ScopeNamesFields(prefix: seq<PathSegment>, m: Message)
    ensures ResolveFieldName(Prefixed(prefix, m)) ==
            if m.literal != "" then m.literal else if m.path == [] then "" else Render(prefix + m.path).0
  {
    assert [] + m.path == m.path;
  }

  lemma PrefixedTwice(outer: seq<PathSegment>, inner: seq<PathSegment>, m: Message)
    ensures Prefixed(outer, Prefixed(inner, m)) == Prefixed(outer + inner, m)
  {
  }

  /** The leaf name segment of a path, or its length: index segments are skipped from
      the right. */
  function Leaf(path: seq<PathSegment>): (n: nat)
    ensures n <= |path|
    ensures n < |path| ==> path[n].index.None? && forall k :: n < k < |path| ==> path[k].index.Some?
    ensures n == |path| ==> forall k :: 0 <= k < |path| ==> path[k].index.Some?
  {
    if path == [] then 0
    else if path[|path| - 1].index.None? then |path| - 1
    else
      var n := Leaf(path[..|path| - 1]);
      if n == |path| - 1 then |path| else n
  }

  function Aliased(m: Message, goName: string, wireName: string): Message {
    var n := Leaf(m.path);
    if n < |m.path| && m.path[n].name == goName then m.(path := m.path[n := m.path[n].(wire := wireName)]) else m
  }

  function AliasedAll(messages: seq<Message>, goName: string, wireName: string): (r: seq<Message>)
    ensures |r| == |messages|
  {
    seq(|messages|, i requires 0 <= i < |messages| => Aliased(messages[i], goName, wireName))
  }

  /** An alias renames the leaf and keeps whatever prefix leads to it; a literal override
      is never renamed. */
  lemma AliasKeepsPrefix(prefix: seq<PathSegment>, goName: string, wireName: string, oldWire: string, m: Message)
    requires wireName != ""
    requires m.path == prefix + [PathSegment(goName, oldWire, None)]
    ensures var (text, wrote) := Render(prefix);
            ResolveFieldName(Aliased(m, goName, wireName)) ==
            if m.literal != "" then m.literal else if wrote then text + "." + wireName else text + wireName
  {
  }

  /** The last name segment of a path: only index segments behind it. */
  ghost predicate IsLeaf(path: seq<PathSegment>, n: nat) {
    n < |path| && path[n].index.None? && forall k :: n < k < |path| ==> path[k].index.Some?
  }

  /** An alias changes a message exactly when the leaf of its path has the aliased name and
      another wire name; and then nothing but that wire name. */
  lemma AliasChangesIff(m: Message, goName: string, wireName: string)
    ensures var a := Aliased(m, goName, wireName);
            a != m <==> exists n: nat :: IsLeaf(m.path, n) && m.path[n].name == goName && m.path[n].wire != wireName
    ensures var a := Aliased(m, goName, wireName);
            forall n: nat :: IsLeaf(m.path, n) && m.path[n].name == goName ==>
              a == m.(path := m.path[n := m.path[n].(wire := wireName)])
  {
    var n := Leaf(m.path);
    if n < |m.path| {
      assert IsLeaf(m.path, n);
      assert m.path[n].wire != wireName ==> m.path[n := m.path[n].(wire := wireName)][n] != m.path[n];
      assert m.path[n].wire == wireName ==> m.path[n := m.path[n].(wire := wireName)] == m.path;
    }
  }

  class NotificationContext {
    var name: string
    var messages: seq<Message>
    const parent: NotificationContext?
    const prefix: seq<PathSegment>

    /** A view hangs directly off the root of its chain and has a prefix; a root
        has neither parent nor prefix. */
    ghost predicate Valid() {
      && (parent == null ==> prefix == [])
      && (parent != null ==> prefix != [] && parent.parent == null && parent.prefix == [])
    }

    constructor New(name: string)
      ensures Valid() && parent == null && prefix == [] && messages == []
    {
      this.name, messages, parent, prefix := name, [], null, [];
    }

    constructor View(root: NotificationContext, prefix: seq<PathSegment>)
      requires root.Valid() && root.parent == null && prefix != []
      ensures Valid() && parent == root && this.prefix == prefix
    {
      name, messages, parent, this.prefix := root.name, [], root, prefix;
    }

    function Root(): (r: NotificationContext)
      requires Valid()
      ensures r.Valid() && r.parent == null
    {
      if parent == null then this else parent
    }

    /** Whatever the view, the message is stored once, at the root, under the view's
        prefix. */
    method AddNotificationMessage(msg: Message)
      requires Valid()
      modifies Root()
      ensures Root().messages == old(Root().messages) + [Prefixed(prefix, msg)]
      ensures Root().name == old(Root().name)
      decreases parent != null
    {
      var m := msg;
      if |prefix| > 0 && |msg.path| > 0 { m := msg.(path := prefix + msg.path); }
      if parent != null {
        parent.AddNotificationMessage(m);
        return;
      }
      messages := messages + [m];
    }

    method Scoped(segments: seq<PathSegment>) returns (c: NotificationContext)
      requires Valid()
      ensures c.Valid() && c.Root() == Root() && c.prefix == prefix + segments
      ensures segments == [] ==> c == this
    {
      if segments == [] { return this; }
      c := new NotificationContext.View(Root(), prefix + segments);
    }

    predicate HasErrors()
      requires Valid()
      reads Root()
    {
      |Root().messages| > 0
    }

    method Clear()
      requires Valid()
      modifies Root()
      ensures Root().messages == [] && !HasErrors()
    {
      Root().messages := [];
    }

    method ApplyGoFieldAlias(goName: string, wireName: string)
      requires Valid()
      modifies Root()
      ensures Root().messages == AliasedAll(old(Root().messages), goName, wireName)
    {
      var root := Root();
      ghost var before := root.messages;
      for i := 0 to |root.messages|
        invariant |root.messages| == |before|
        invariant forall j :: 0 <= j < |before| ==>
                    root.messages[j] == if j < i then Aliased(before[j], goName, wireName) else before[j]
      {
        var segs := root.messages[i].path;
        var j := |segs| - 1;
        while j >= 0
          invariant -1 <= j < |segs|
          invariant segs == before[i].path
          invariant forall k :: j < k < |segs| ==> segs[k].index.Some?
        {
          if segs[j].index.Some? {
            j := j - 1;
            continue;
          }
          assert Leaf(segs) == j;
          if segs[j].name == goName {
            segs := segs[j := segs[j].(wire := wireName)];
          }
          break;
        }
        root.messages := root.messages[i := root.messages[i].(path := segs)];
      }
      assert root.messages == AliasedAll(before, goName, wireName);
    }
  }

  function Flatten(segments: seq<seq<PathSegment>>): seq<PathSegment> {
    if segments == [] then [] else Flatten(segments[..|segments| - 1]) + segments[|segments| - 1]
  }

  /** Any nesting of scopes is one scope over the concatenated segments. */
  method NestScopes(c: NotificationContext, segments: seq<seq<PathSegment>>)
    returns (nested: NotificationContext, flat: NotificationContext)
    requires c.Valid()
    ensures nested.Valid() && flat.Valid()
    ensures nested.Root() == flat.Root() == c.Root()
    ensures nested.prefix == flat.prefix == c.prefix + Flatten(segments)
  {
    flat := c.Scoped(Flatten(segments));
    nested := c;
    for n := 0 to |segments|
      invariant nested.Valid() && nested.Root() == c.Root()
      invariant nested.prefix == c.prefix + Flatten(segments[..n])
    {
      assert segments[..n + 1][..n] == segments[..n];
      nested := nested.Scoped(segments[n]);
    }
    assert segments[..|segments|] == segments;
  }
}
