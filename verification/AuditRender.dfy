/** Label rendering of audit events, typed and on the parsed JSON document
    (application/audit/render.go), and the encoding between the two
    (application/audit/event.go:37-121). */
module AuditRender {
  import opened Options

  datatype Json =
    | Null
    | Bool(b: bool)
    | Number(digits: string)
    | Str(s: string)
    | Arr(items: seq<Json>)
    | Obj(fields: map<string, Json>)

  const LABEL_KEY: string := "fieldLabelKey"
  const LABEL: string := "fieldLabel"
  const CHANGES: string := "changes"
  const CHILDREN: string := "children"

  /** The members of a change, child or event the renderers never look at: they carry
      JSON names of their own. */
  type ChangeRest = m: map<string, Json> | LABEL_KEY !in m && LABEL !in m witness map[]
  type ChildRest = m: map<string, Json> | CHANGES !in m witness map[]
  type EventRest = m: map<string, Json> | CHANGES !in m && CHILDREN !in m witness map[]

  datatype FieldChange = FieldChange(rest: ChangeRest, labelKey: string, text: string)
  datatype ChildEvent = ChildEvent(rest: ChildRest, changes: seq<FieldChange>)
  datatype AuditEvent = AuditEvent(rest: EventRest, changes: seq<FieldChange>, children: map<string, seq<ChildEvent>>)

  type Translator = string -> string

  // ---- the typed renderer ----

  function RenderChange(c: FieldChange, t: Translator): FieldChange {
    if c.labelKey == "" then c else c.(text := t(c.labelKey), labelKey := "")
  }

  function RenderChanges(cs: seq<FieldChange>, t: Translator): (r: seq<FieldChange>)
    ensures |r| == |cs|
  {
    seq(|cs|, i requires 0 <= i < |cs| => RenderChange(cs[i], t))
  }

  method RenderChangesInPlace(changes: array<FieldChange>, t: Translator)
    modifies changes
    ensures changes[..] == RenderChanges(old(changes[..]), t)
  {
    for i := 0 to changes.Length
      invariant forall j :: 0 <= j < changes.Length ==>
                  changes[j] == if j < i then RenderChange(old(changes[..])[j], t) else old(changes[..])[j]
    {
      var key := changes[i].labelKey;
      if key == "" { continue; }
      changes[i] := changes[i].(text := t(key));
      changes[i] := changes[i].(labelKey := "");
    }
  }

  function RenderChild(c: ChildEvent, t: Translator): ChildEvent {
    c.(changes := RenderChanges(c.changes, t))
  }

  function RenderChildList(cs: seq<ChildEvent>, t: Translator): (r: seq<ChildEvent>)
    ensures |r| == |cs|
  {
    seq(|cs|, i requires 0 <= i < |cs| => RenderChild(cs[i], t))
  }

  function RenderChildMap(children: map<string, seq<ChildEvent>>, t: Translator): map<string, seq<ChildEvent>> {
    map n | n in children :: RenderChildList(children[n], t)
  }

  function RenderEvent(e: AuditEvent, t: Translator): AuditEvent {
    e.(changes := RenderChanges(e.changes, t), children := RenderChildMap(e.children, t))
  }

  // ---- the JSON renderer ----

  function RenderChangeJson(j: Json, t: Translator): Json {
    if j.Obj? && LABEL_KEY in j.fields && j.fields[LABEL_KEY].Str? && j.fields[LABEL_KEY].s != "" then
      Obj(j.fields[LABEL := Str(t(j.fields[LABEL_KEY].s))] - {LABEL_KEY})
    else j
  }

  function RenderChangesJson(j: Json, t: Translator): Json {
    if j.Arr? then Arr(seq(|j.items|, i requires 0 <= i < |j.items| => RenderChangeJson(j.items[i], t))) else j
  }

  /** A member of an object rendered as a list of changes, if it is there. */
  function RenderMember(fields: map<string, Json>, t: Translator): map<string, Json> {
    if CHANGES in fields then fields[CHANGES := RenderChangesJson(fields[CHANGES], t)] else fields
  }

  function RenderChildJson(j: Json, t: Translator): Json {
    if j.Obj? then Obj(RenderMember(j.fields, t)) else j
  }

  function RenderChildListJson(j: Json, t: Translator): Json {
    if j.Arr? then Arr(seq(|j.items|, i requires 0 <= i < |j.items| => RenderChildJson(j.items[i], t))) else j
  }

  function RenderChildMapJson(children: map<string, Json>, t: Translator): map<string, Json> {
    map n | n in children :: RenderChildListJson(children[n], t)
  }

  function RenderDoc(doc: map<string, Json>, t: Translator): map<string, Json> {
    var d := RenderMember(doc, t);
    if CHILDREN in d && d[CHILDREN].Obj? then
      d[CHILDREN := Obj(RenderChildMapJson(d[CHILDREN].fields, t))]
    else d
  }

  // ---- the encoding, empty members left out ----

  function Member(name: string, present: bool, j: Json): map<string, Json> {
    if present then map[name := j] else map[]
  }

  function EncodeChange(c: FieldChange): Json {
    Obj(c.rest + Member(LABEL_KEY, c.labelKey != "", Str(c.labelKey)) + Member(LABEL, c.text != "", Str(c.text)))
  }

  function EncodeChanges(cs: seq<FieldChange>): Json {
    Arr(seq(|cs|, i requires 0 <= i < |cs| => EncodeChange(cs[i])))
  }

  function EncodeChild(c: ChildEvent): Json {
    Obj(c.rest + Member(CHANGES, c.changes != [], EncodeChanges(c.changes)))
  }

  function EncodeChildList(cs: seq<ChildEvent>): Json {
    Arr(seq(|cs|, i requires 0 <= i < |cs| => EncodeChild(cs[i])))
  }

  function EncodeChildMap(children: map<string, seq<ChildEvent>>): map<string, Json> {
    map n | n in children :: EncodeChildList(children[n])
  }

  function EncodeEvent(e: AuditEvent): map<string, Json> {
    e.rest + Member(CHANGES, e.changes != [], EncodeChanges(e.changes)) +
    Member(CHILDREN, e.children != map[], Obj(EncodeChildMap(e.children)))
  }

  // ---- rendering and encoding commute ----

  ghost predicate Speaks(c: FieldChange, t: Translator) {
    c.labelKey != "" ==> t(c.labelKey) != ""
  }

  ghost predicate AllSpeak(cs: seq<FieldChange>, t: Translator) {
    forall i :: 0 <= i < |cs| ==> Speaks(cs[i], t)
  }

  /** Every label of the event is translated to something. */
  ghost predicate EventSpeaks(e: AuditEvent, t: Translator) {
    AllSpeak(e.changes, t) && MapSpeaks(e.children, t)
  }

  lemma ChangeCommutesIff(c: FieldChange, t: Translator)
    ensures EncodeChange(RenderChange(c, t)) == RenderChangeJson(EncodeChange(c), t) <==> Speaks(c, t)
  {
    var j := EncodeChange(c);
    if c.labelKey != "" {
      assert j.fields[LABEL_KEY] == Str(c.labelKey);
      var typed, tree := EncodeChange(RenderChange(c, t)), RenderChangeJson(j, t);
      assert tree.fields[LABEL] == Str(t(c.labelKey));
      if t(c.labelKey) == "" {
        assert LABEL !in typed.fields && LABEL in tree.fields;
      } else {
        assert typed.fields == tree.fields;
      }
    } else {
      assert LABEL_KEY !in j.fields;
    }
  }

  lemma ChangesCommuteIff(cs: seq<FieldChange>, t: Translator)
    ensures EncodeChanges(RenderChanges(cs, t)) == RenderChangesJson(EncodeChanges(cs), t) <==> AllSpeak(cs, t)
  {
    var a, b := EncodeChanges(RenderChanges(cs, t)), RenderChangesJson(EncodeChanges(cs), t);
    forall i | 0 <= i < |cs| ensures a.items[i] == b.items[i] <==> Speaks(cs[i], t) {
      ChangeCommutesIff(cs[i], t);
    }
    if AllSpeak(cs, t) { assert a.items == b.items; }
  }

  lemma MemberCommutesIff(rest: map<string, Json>, cs: seq<FieldChange>, t: Translator)
    requires CHANGES !in rest
    ensures var a := rest + Member(CHANGES, cs != [], EncodeChanges(RenderChanges(cs, t)));
            var b := RenderMember(rest + Member(CHANGES, cs != [], EncodeChanges(cs)), t);
            a == b <==> AllSpeak(cs, t)
  {
    ChangesCommuteIff(cs, t);
    var a := rest + Member(CHANGES, cs != [], EncodeChanges(RenderChanges(cs, t)));
    var b := RenderMember(rest + Member(CHANGES, cs != [], EncodeChanges(cs)), t);
    if cs != [] {
      assert a[CHANGES] == EncodeChanges(RenderChanges(cs, t)) && b[CHANGES] == RenderChangesJson(EncodeChanges(cs), t);
      assert a[CHANGES] == b[CHANGES] ==> a == b;
    } else {
      assert a == rest == b;
    }
  }

  ghost predicate ChildrenSpeak(cs: seq<ChildEvent>, t: Translator) {
    forall i :: 0 <= i < |cs| ==> AllSpeak(cs[i].changes, t)
  }

  lemma ChildListCommutesIff(cs: seq<ChildEvent>, t: Translator)
    ensures EncodeChildList(RenderChildList(cs, t)) == RenderChildListJson(EncodeChildList(cs), t) <==>
            ChildrenSpeak(cs, t)
  {
    var a, b := EncodeChildList(RenderChildList(cs, t)), RenderChildListJson(EncodeChildList(cs), t);
    forall i | 0 <= i < |cs| ensures a.items[i] == b.items[i] <==> AllSpeak(cs[i].changes, t) {
      MemberCommutesIff(cs[i].rest, cs[i].changes, t);
    }
    if ChildrenSpeak(cs, t) { assert a.items == b.items; }
  }

  ghost predicate MapSpeaks(children: map<string, seq<ChildEvent>>, t: Translator) {
    forall n :: n in children ==> ChildrenSpeak(children[n], t)
  }

  lemma ChildMapCommutesIff(children: map<string, seq<ChildEvent>>, t: Translator)
    ensures EncodeChildMap(RenderChildMap(children, t)) == RenderChildMapJson(EncodeChildMap(children), t) <==>
            MapSpeaks(children, t)
  {
    var a, b := EncodeChildMap(RenderChildMap(children, t)), RenderChildMapJson(EncodeChildMap(children), t);
    assert a.Keys == children.Keys == b.Keys;
    forall n | n in children ensures a[n] == b[n] <==> ChildrenSpeak(children[n], t) {
      ChildListCommutesIff(children[n], t);
    }
    if MapSpeaks(children, t) {
      assert a == b;
    } else {
      var n :| n in children && !ChildrenSpeak(children[n], t);
      assert a[n] != b[n];
    }
  }

  function At(doc: map<string, Json>, k: string): Option<Json> {
    if k in doc then Some(doc[k]) else None
  }

  lemma EqualIffSameEverywhere(a: map<string, Json>, b: map<string, Json>)
    ensures a == b <==> forall k :: At(a, k) == At(b, k)
  {
    if forall k :: At(a, k) == At(b, k) {
      forall k ensures k in a <==> k in b { assert At(a, k) == At(b, k); }
      forall k | k in a ensures a[k] == b[k] { assert At(a, k) == At(b, k); }
      assert a.Keys == b.Keys;
    }
  }

  /** What the encoding puts under each name. */
  lemma EncodedAt(e: AuditEvent, k: string)
    ensures At(EncodeEvent(e), k) ==
            if k == CHANGES then if e.changes != [] then Some(EncodeChanges(e.changes)) else None
            else if k == CHILDREN then if e.children != map[] then Some(Obj(EncodeChildMap(e.children))) else None
            else At(e.rest, k)
  {
  }

  /** What the document renderer does under each name. */
  lemma RenderedAt(doc: map<string, Json>, t: Translator, k: string)
    ensures At(RenderDoc(doc, t), k) ==
            if k !in doc then None
            else if k == CHANGES then Some(RenderChangesJson(doc[k], t))
            else if k == CHILDREN && doc[k].Obj? then Some(Obj(RenderChildMapJson(doc[k].fields, t)))
            else Some(doc[k])
  {
  }

  lemma ChangesMemberCommutesIff(e: AuditEvent, t: Translator)
    ensures At(EncodeEvent(RenderEvent(e, t)), CHANGES) == At(RenderDoc(EncodeEvent(e), t), CHANGES) <==>
            AllSpeak(e.changes, t)
  {
    EncodedAt(e, CHANGES);
    EncodedAt(RenderEvent(e, t), CHANGES);
    RenderedAt(EncodeEvent(e), t, CHANGES);
    ChangesCommuteIff(e.changes, t);
  }

  lemma ChildrenMemberCommutesIff(e: AuditEvent, t: Translator)
    ensures At(EncodeEvent(RenderEvent(e, t)), CHILDREN) == At(RenderDoc(EncodeEvent(e), t), CHILDREN) <==>
            MapSpeaks(e.children, t)
  {
    EncodedAt(e, CHILDREN);
    EncodedAt(RenderEvent(e, t), CHILDREN);
    RenderedAt(EncodeEvent(e), t, CHILDREN);
    ChildMapCommutesIff(e.children, t);
    assert RenderChildMap(e.children, t).Keys == e.children.Keys;
  }

  lemma OtherMembersCommute(e: AuditEvent, t: Translator, k: string)
    requires k != CHANGES && k != CHILDREN
    ensures At(EncodeEvent(RenderEvent(e, t)), k) == At(RenderDoc(EncodeEvent(e), t), k)
  {
    EncodedAt(e, k);
    EncodedAt(RenderEvent(e, t), k);
    RenderedAt(EncodeEvent(e), t, k);
  }

  /** For every event and translator: rendering then encoding equals encoding then
      rendering exactly when every label of the event is translated to something. */
  lemma EventCommutesIff(e: AuditEvent, t: Translator)
    ensures EncodeEvent(RenderEvent(e, t)) == RenderDoc(EncodeEvent(e), t) <==> EventSpeaks(e, t)
  {
    var a, b := EncodeEvent(RenderEvent(e, t)), RenderDoc(EncodeEvent(e), t);
    EqualIffSameEverywhere(a, b);
    ChangesMemberCommutesIff(e, t);
    ChildrenMemberCommutesIff(e, t);
    forall k | k != CHANGES && k != CHILDREN ensures At(a, k) == At(b, k) { OtherMembersCommute(e, t, k); }
  }

  // ---- rendering again changes nothing ----

  lemma RenderEventTwice(e: AuditEvent, t: Translator)
    ensures RenderEvent(RenderEvent(e, t), t) == RenderEvent(e, t)
  {
    var r := RenderEvent(e, t);
    forall n | n in e.children ensures RenderChildList(r.children[n], t) == r.children[n] {
      forall i | 0 <= i < |e.children[n]| ensures RenderChild(r.children[n][i], t) == r.children[n][i] {
        assert RenderChanges(r.children[n][i].changes, t) == r.children[n][i].changes;
      }
    }
    assert RenderChanges(r.changes, t) == r.changes;
    assert RenderEvent(r, t).children == r.children;
  }

  lemma RenderChangesJsonTwice(j: Json, t: Translator)
    ensures RenderChangesJson(RenderChangesJson(j, t), t) == RenderChangesJson(j, t)
  {
  }

  lemma RenderMemberTwice(fields: map<string, Json>, t: Translator)
    ensures RenderMember(RenderMember(fields, t), t) == RenderMember(fields, t)
  {
    if CHANGES in fields { RenderChangesJsonTwice(fields[CHANGES], t); }
  }

  lemma RenderChildListJsonTwice(j: Json, t: Translator)
    ensures RenderChildListJson(RenderChildListJson(j, t), t) == RenderChildListJson(j, t)
  {
    var r := RenderChildListJson(j, t);
    if j.Arr? {
      forall i | 0 <= i < |j.items| ensures RenderChildJson(r.items[i], t) == r.items[i] {
        if j.items[i].Obj? { RenderMemberTwice(j.items[i].fields, t); }
      }
      assert RenderChildListJson(r, t).items == r.items;
    }
  }

  /** On any JSON document at all, not only encoded events. */
  lemma RenderDocTwice(doc: map<string, Json>, t: Translator)
    ensures RenderDoc(RenderDoc(doc, t), t) == RenderDoc(doc, t)
  {
    var d := RenderDoc(doc, t);
    EqualIffSameEverywhere(RenderDoc(d, t), d);
    forall k ensures At(RenderDoc(d, t), k) == At(d, k) {
      RenderedAt(doc, t, k);
      RenderedAt(d, t, k);
      if k in doc && k == CHANGES { RenderChangesJsonTwice(doc[k], t); }
      if k in doc && k == CHILDREN && doc[k].Obj? { RenderChildMapJsonTwice(doc[k].fields, t); }
    }
  }

  lemma RenderChildMapJsonTwice(m: map<string, Json>, t: Translator)
    ensures RenderChildMapJson(RenderChildMapJson(m, t), t) == RenderChildMapJson(m, t)
  {
    forall n | n in m ensures RenderChildListJson(RenderChildMapJson(m, t)[n], t) == RenderChildMapJson(m, t)[n] {
      RenderChildListJsonTwice(m[n], t);
    }
  }

  /** On the wire: the label key goes, the label takes its place, in the changes of the
      event and in those of its children; nothing else moves. */
  lemma RendersByName(key: string, typeName: string, kind: Json, t: Translator)
    requires key != ""
    ensures var change := Obj(map["field" := kind, "fieldLabelKey" := Str(key)]);
            var labelled := Obj(map["field" := kind, "fieldLabel" := Str(t(key))]);
            RenderDoc(map["changes" := Arr([change]),
                          "children" := Obj(map[typeName := Arr([Obj(map["changes" := Arr([change])])])])], t) ==
              map["changes" := Arr([labelled]),
                  "children" := Obj(map[typeName := Arr([Obj(map["changes" := Arr([labelled])])])])]
  {
    var change := Obj(map["field" := kind, "fieldLabelKey" := Str(key)]);
    var labelled := Obj(map["field" := kind, "fieldLabel" := Str(t(key))]);
    assert RenderChangeJson(change, t) == labelled by {
      assert RenderChangeJson(change, t).fields == labelled.fields;
    }
    assert RenderChangesJson(Arr([change]), t) == Arr([labelled]);
    var child := Obj(map["changes" := Arr([change])]);
    assert RenderChildJson(child, t) == Obj(map["changes" := Arr([labelled])]) by {
      assert RenderMember(child.fields, t) == map["changes" := Arr([labelled])];
    }
    assert RenderChildListJson(Arr([child]), t) == Arr([Obj(map["changes" := Arr([labelled])])]);
    assert RenderChildMapJson(map[typeName := Arr([child])], t) ==
           map[typeName := Arr([Obj(map["changes" := Arr([labelled])])])];
  }

  // ---- the encoding loses nothing ----

  /** A member that is a text, or the empty text if it is not there. */
  function TextOf(fields: map<string, Json>, name: string): string {
    if name in fields && fields[name].Str? then fields[name].s else ""
  }

  lemma ChangeReads(c: FieldChange)
    ensures var fields := EncodeChange(c).fields;
            && fields - {LABEL_KEY, LABEL} == c.rest
            && TextOf(fields, LABEL_KEY) == c.labelKey && TextOf(fields, LABEL) == c.text
  {
  }

  lemma ChangeIsEncoded(c: FieldChange, d: FieldChange)
    ensures EncodeChange(c) == EncodeChange(d) ==> c == d
  {
    ChangeReads(c);
    ChangeReads(d);
  }

  lemma ChangesAreEncoded(cs: seq<FieldChange>, ds: seq<FieldChange>)
    ensures EncodeChanges(cs) == EncodeChanges(ds) ==> cs == ds
  {
    var a, b := EncodeChanges(cs).items, EncodeChanges(ds).items;
    if a == b {
      forall i | 0 <= i < |cs| ensures cs[i] == ds[i] {
        assert a[i] == b[i];
        ChangeIsEncoded(cs[i], ds[i]);
      }
    }
  }

  lemma MemberIsEncoded(rest: map<string, Json>, cs: seq<FieldChange>, more: map<string, Json>, ds: seq<FieldChange>)
    requires CHANGES !in rest && CHANGES !in more
    ensures var a := rest + Member(CHANGES, cs != [], EncodeChanges(cs));
            var b := more + Member(CHANGES, ds != [], EncodeChanges(ds));
            a == b ==> rest == more && cs == ds
  {
    var a := rest + Member(CHANGES, cs != [], EncodeChanges(cs));
    var b := more + Member(CHANGES, ds != [], EncodeChanges(ds));
    assert a - {CHANGES} == rest && b - {CHANGES} == more;
    assert cs != [] <==> CHANGES in a;
    assert ds != [] <==> CHANGES in b;
    if a == b && cs != [] {
      assert a[CHANGES] == EncodeChanges(cs) && b[CHANGES] == EncodeChanges(ds);
      ChangesAreEncoded(cs, ds);
    }
  }

  lemma ChildListIsEncoded(cs: seq<ChildEvent>, ds: seq<ChildEvent>)
    ensures EncodeChildList(cs) == EncodeChildList(ds) ==> cs == ds
  {
    var a, b := EncodeChildList(cs).items, EncodeChildList(ds).items;
    if a == b {
      forall i | 0 <= i < |cs| ensures cs[i] == ds[i] {
        assert a[i] == b[i];
        MemberIsEncoded(cs[i].rest, cs[i].changes, ds[i].rest, ds[i].changes);
      }
    }
  }

  lemma ChildMapIsEncoded(c: map<string, seq<ChildEvent>>, d: map<string, seq<ChildEvent>>)
    ensures EncodeChildMap(c) == EncodeChildMap(d) ==> c == d
  {
    var a, b := EncodeChildMap(c), EncodeChildMap(d);
    if a == b {
      assert c.Keys == a.Keys == d.Keys;
      forall n | n in c ensures c[n] == d[n] {
        assert a[n] == b[n];
        ChildListIsEncoded(c[n], d[n]);
      }
    }
  }

  /** Two events with the same encoding are the same event. */
  lemma EventIsEncoded(e: AuditEvent, f: AuditEvent)
    requires EncodeEvent(e) == EncodeEvent(f)
    ensures e == f
  {
    var a, b := EncodeEvent(e), EncodeEvent(f);
    var c := e.rest + Member(CHANGES, e.changes != [], EncodeChanges(e.changes));
    var d := f.rest + Member(CHANGES, f.changes != [], EncodeChanges(f.changes));
    assert a - {CHILDREN} == c && b - {CHILDREN} == d;
    MemberIsEncoded(e.rest, e.changes, f.rest, f.changes);
    assert e.children != map[] <==> CHILDREN in a;
    assert f.children != map[] <==> CHILDREN in b;
    if e.children != map[] {
      assert a[CHILDREN] == Obj(EncodeChildMap(e.children)) && b[CHILDREN] == Obj(EncodeChildMap(f.children));
      ChildMapIsEncoded(e.children, f.children);
    }
  }
}
