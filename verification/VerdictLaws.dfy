/** What the lines of a body come to in the verdict (domain/entity_base.go:130-140,
    386-412, 931-951): contexts handed to the entity, marked value objects, the entity and its
    snapshot, the fresh check, and what a rejection and a seal carry. */
module VerdictLaws {
  import opened AggregateRoots
  import opened Notifications
  import opened Options
  import opened Rules
  import opened RuleTexts
  import opened Validation
  import opened Entity
  import opened EntityLaws

  // ---- contexts handed to the entity ----

  /** `p`, then a context, then `q`. */
  function Attaching<S>(p: Rule<S>, context: View<S> -> seq<Message>, q: Rule<S>): Rule<S> {
    Then(p, Then(AttachContext(context), q))
  }

  lemma {:induction false} AttachingKeeps<S>(
      p: Rule<S>, context: View<S> -> seq<Message>, q: Rule<S>, seat: Seat<S>, w: World<S>)
    requires Exec(p, seat, w).0 == Done && NeverNests(q)
    ensures var w1 := Exec(p, seat, w).1;
            w1.attached + [context(ViewOf(w1))] <= Exec(Attaching(p, context, q), seat, w).1.attached
  {
    var w1 := Exec(p, seat, w).1;
    var w2 := w1.(attached := w1.attached + [context(ViewOf(w1))]);
    assert Exec(AttachContext(context), seat, w1) == (Done, w2);
    assert Exec(Then(AttachContext(context), q), seat, w1) == Exec(q, seat, w2);
    ExecKeepsContexts(q, seat, w2);
  }

  /** The pass keeps what its rules attached. */
  lemma {:induction false} PassKeepsAttached<S>(spec: Spec<S>, mode: Mode, service: bool, w: World<S>)
    ensures Served(spec, service) ==>
              Validate(spec, mode, service, true, w).1.attached == RunRules(spec, mode, true, w).1.attached
  {
    var w2 := Gated(spec, mode, RunRules(spec, mode, true, w).1);
    RunChildrenFrame(spec.home, ChildrenOf(spec, w2), mode, true, Say(w2, spec.valueObjects(w2.entity, w2.marked)));
  }

  /** A context with a message in it, attached anywhere in the rules, keeps the pass from
      accepting: whatever comes before it, and whatever comes behind it that does not
      validate the entity again. */
  lemma {:induction false} AttachedReachesVerdict<S>(
      spec: Spec<S>, p: Rule<S>, context: View<S> -> seq<Message>, q: Rule<S>, mode: Mode, service: bool, w: World<S>)
    requires spec.rules == Attaching(p, context, q) && NeverNests(q) && Served(spec, service)
    requires var (e, w1) := Exec(p, RootSeat(spec, mode, true), Started(mode, w));
             e == Done && context(ViewOf(w1)) != []
    ensures !Accepts(Validate(spec, mode, service, true, w))
    ensures var w1 := Exec(p, RootSeat(spec, mode, true), Started(mode, w)).1;
            context(ViewOf(w1)) in Validate(spec, mode, service, true, w).1.attached
  {
    var w1 := Exec(p, RootSeat(spec, mode, true), Started(mode, w)).1;
    AttachingKeeps(p, context, q, RootSeat(spec, mode, true), Started(mode, w));
    PassKeepsAttached(spec, mode, service, w);
    var attached := Validate(spec, mode, service, true, w).1.attached;
    assert attached[|w1.attached|] == context(ViewOf(w1));
  }

  /** So no Get* of such an entity seals, and a rejection carries the context. */
  lemma {:induction false} AttachedIsRejected<S>(
      spec: Spec<S>, p: Rule<S>, context: View<S> -> seq<Message>, q: Rule<S>,
      w: World<S>, verb: Verb, apply: Apply<S>, service: bool)
    requires spec.rules == Attaching(p, context, q) && NeverNests(q) && Served(spec, service)
    requires Reaches(spec, w, verb, apply)
    requires var start := Started(ModeOf(verb), StartOf(spec, w, verb, apply));
             var (e, w1) := Exec(p, RootSeat(spec, ModeOf(verb), true), start);
             e == Done && context(ViewOf(w1)) != []
    ensures var r := Get(spec, w, verb, apply, service).1;
            var start := Started(ModeOf(verb), StartOf(spec, w, verb, apply));
            var w1 := Exec(p, RootSeat(spec, ModeOf(verb), true), start).1;
            !r.Sealed? && (r.Rejected? ==> context(ViewOf(w1)) in r.attached)
  {
    AttachedReachesVerdict(spec, p, context, q, ModeOf(verb), service, StartOf(spec, w, verb, apply));
  }

  /** The same state but for contexts, none of them with a message in it, or some in both. */
  ghost predicate SameVerdict<S>(w: World<S>, v: World<S>) {
    SameButContexts(w, v) && (Blank(w) <==> Blank(v))
  }

  ghost predicate SameEnd<S>(a: (Ending, World<S>), b: (Ending, World<S>)) {
    a.0 == b.0 && SameVerdict(a.1, b.1)
  }

  lemma {:induction false} BlankSnoc<S>(w: World<S>, context: seq<Message>)
    ensures Blank(w.(attached := w.attached + [context])) <==> Blank(w) && context == []
  {
    var more := w.attached + [context];
    assert more[|w.attached|] == context;
    assert forall i :: 0 <= i < |w.attached| ==> more[i] == w.attached[i];
  }

  lemma {:induction false} ExecSameVerdict<S>(p: Rule<S>, seat: Seat<S>, w: World<S>, v: World<S>)
    requires SameVerdict(w, v)
    ensures SameEnd(Exec(p, seat, w), Exec(p, seat, v))
    decreases p
  {
    assert ViewOf(w) == ViewOf(v);
    match p
    case Then(first, second) =>
      ExecSameVerdict(first, seat, w, v);
      ExecSameVerdict(second, seat, Exec(first, seat, w).1, Exec(first, seat, v).1);
    case When(test, body, otherwise) =>
      ExecSameVerdict(body, seat, w, v);
      ExecSameVerdict(otherwise, seat, w, v);
    case InModes(modes, body) => ExecSameVerdict(body, seat, w, v);
    case Nested(inner, _, _) => EnterForgetsContexts(inner, seat.home, w, v);
    case _ => LineSameVerdict(p, seat, w, v);
  }

  lemma {:induction false} LineSameVerdict<S>(p: Rule<S>, seat: Seat<S>, w: World<S>, v: World<S>)
    requires IsLine(p) && SameVerdict(w, v)
    ensures SameEnd(ExecLine(p, seat, w), ExecLine(p, seat, v))
  {
    LineIgnoresContexts(p, seat, w, v);
    if p.AttachContext? {
      BlankSnoc(w, p.context(ViewOf(w)));
      BlankSnoc(v, p.context(ViewOf(v)));
    }
  }

  lemma {:induction false} ChildrenSameVerdict<S>(
      home: Home<S>, children: seq<Child<S>>, mode: Mode, w: World<S>, v: World<S>)
    requires SameVerdict(w, v)
    ensures SameEnd(RunChildren(home, children, mode, true, w), RunChildren(home, children, mode, true, v))
  {
    if children != [] {
      var before, child := children[..|children| - 1], children[|children| - 1];
      ChildrenSameVerdict(home, before, mode, w, v);
      var w1, v1 := RunChildren(home, before, mode, true, w).1, RunChildren(home, before, mode, true, v).1;
      ExecSameVerdict(child.rules, ChildSeat(child, mode, true, home), OnCopy(child, w1), OnCopy(child, v1));
    }
  }

  lemma {:induction false} BehindRulesSameVerdict<S>(spec: Spec<S>, mode: Mode, w: World<S>, v: World<S>)
    requires SameVerdict(w, v)
    ensures Accepts((Stopped, Gated(spec, mode, w))) <==> Accepts((Stopped, Gated(spec, mode, v)))
    ensures Accepts(RunAutomatic(spec, mode, true, Gated(spec, mode, w))) <==>
            Accepts(RunAutomatic(spec, mode, true, Gated(spec, mode, v)))
  {
    var w2, v2 := Gated(spec, mode, w), Gated(spec, mode, v);
    assert SameVerdict(w2, v2);
    ChildrenSameVerdict(spec.home, ChildrenOf(spec, w2), mode,
                        Say(w2, spec.valueObjects(w2.entity, w2.marked)),
                        Say(v2, spec.valueObjects(v2.entity, v2.marked)));
  }

  /** An attached context without a message leaves the verdict what it is without the line. */
  lemma {:induction false} EmptyContextIsNothing<S>(
      spec: Spec<S>, p: Rule<S>, context: View<S> -> seq<Message>, q: Rule<S>, mode: Mode, service: bool, w: World<S>)
    requires spec.rules == Attaching(p, context, q)
    requires var (e, w1) := Exec(p, RootSeat(spec, mode, true), Started(mode, w));
             e == Done ==> context(ViewOf(w1)) == []
    ensures Accepts(Validate(spec, mode, service, true, w)) <==>
            Accepts(Validate(spec.(rules := Then(p, Then(Skip, q))), mode, service, true, w))
  {
    var other := spec.(rules := Then(p, Then(Skip, q)));
    EmptyContextInRules(p, context, q, RootSeat(spec, mode, true), Started(mode, w));
    var a, b := RunRules(spec, mode, true, w), RunRules(other, mode, true, w);
    assert SameVerdict(a.1, b.1);
    BehindRulesSameVerdict(spec, mode, a.1, b.1);
  }

  lemma {:induction false} EmptyContextInRules<S>(
      p: Rule<S>, context: View<S> -> seq<Message>, q: Rule<S>, seat: Seat<S>, w: World<S>)
    requires Exec(p, seat, w).0 == Done ==> context(ViewOf(Exec(p, seat, w).1)) == []
    ensures SameEnd(Exec(Attaching(p, context, q), seat, w), Exec(Then(p, Then(Skip, q)), seat, w))
  {
    var (e, w1) := Exec(p, seat, w);
    if e == Done { EmptyContextFirst(context, q, seat, w1); }
  }

  lemma {:induction false} EmptyContextFirst<S>(
      context: View<S> -> seq<Message>, q: Rule<S>, seat: Seat<S>, w: World<S>)
    requires context(ViewOf(w)) == []
    ensures SameEnd(Exec(Then(AttachContext(context), q), seat, w), Exec(Then(Skip, q), seat, w))
  {
    var w1 := w.(attached := w.attached + [context(ViewOf(w))]);
    BlankSnoc(w, context(ViewOf(w)));
    ExecSameVerdict(q, seat, w1, w);
    assert Exec(AttachContext(context), seat, w) == (Done, w1);
    assert Exec(Skip, seat, w) == (Done, w);
  }

  // ---- marked value objects ----

  /** The names of the marking lines the body meets, in order. */
  function Marks<S>(p: Rule<S>, seat: Seat<S>, w: World<S>): seq<string>
    decreases p
  {
    match p
    case Then(first, second) =>
      var (e, w1) := Exec(first, seat, w);
      Marks(first, seat, w) + if e == Done then Marks(second, seat, w1) else []
    case When(test, body, otherwise) =>
      if test(ViewOf(w)) then Marks(body, seat, w) else Marks(otherwise, seat, w)
    case InModes(modes, body) => if seat.mode in modes then Marks(body, seat, w) else []
    case MarkValueObject(name) => [name]
    case _ => []
  }

  /** A body marks exactly these, inner passes keeping theirs to themselves. */
  lemma {:induction false} ExecMarks<S>(p: Rule<S>, seat: Seat<S>, w: World<S>)
    ensures Exec(p, seat, w).1.marked == w.marked + Marks(p, seat, w)
    decreases p
  {
    match p
    case Then(first, second) =>
      ExecMarks(first, seat, w);
      ExecMarks(second, seat, Exec(first, seat, w).1);
    case When(test, body, otherwise) =>
      ExecMarks(body, seat, w);
      ExecMarks(otherwise, seat, w);
    case InModes(modes, body) => ExecMarks(body, seat, w);
    case Nested(inner, body, rest) => AroundMarks(p, seat, w);
    case _ =>
  }

  lemma {:induction false} AroundMarks<S>(p: Rule<S>, seat: Seat<S>, w: World<S>)
    requires p.Nested?
    ensures Exec(p, seat, w).1.marked == w.marked
  {
    var end := Exec(p.body, InnerSeat(p.inner, seat.home), Inside(p.inner, seat.home, w));
    BehindMarks(p.inner, p.rest, end, w.marked);
  }

  lemma {:induction false} BehindMarks<S>(
      inner: Inner, rest: View<S> -> Rest, end: (Ending, World<S>), marked: seq<string>)
    ensures Behind(inner, rest, end, marked).1.marked == marked
  {
  }

  /** The value objects of the entity are checked against exactly what its rules marked. */
  lemma {:induction false} MarksReachValueObjects<S>(spec: Spec<S>, mode: Mode, service: bool, stops: bool, w: World<S>)
    requires Served(spec, service) && RunRules(spec, mode, stops, w).0 == Done
    ensures var w2 := Gated(spec, mode, RunRules(spec, mode, stops, w).1);
            var marks := Marks(spec.rules, RootSeat(spec, mode, stops), Started(mode, w));
            Validate(spec, mode, service, stops, w) ==
              RunChildren(spec.home, spec.children(w2.entity, w2.root.aggregates), mode, stops,
                          Say(w2, spec.valueObjects(w2.entity, marks)))
  {
    var seat, start := RootSeat(spec, mode, stops), Started(mode, w);
    ExecMarks(spec.rules, seat, start);
    assert start.marked + Marks(spec.rules, seat, start) == Marks(spec.rules, seat, start);
  }

  /** So are those of a child, as it was before its own rules, against what these marked; and
      what they say is under the child's scope, behind what its rules said. */
  lemma {:induction false} ChildMarksReachValueObjects<S>(
      home: Home<S>, child: Child<S>, mode: Mode, stops: bool, w: World<S>)
    requires Exec(child.rules, ChildSeat(child, mode, stops, home), OnCopy(child, w)).0 == Done
    ensures var seat, start := ChildSeat(child, mode, stops, home), OnCopy(child, w);
            RunChild(home, child, mode, stops, w).1.messages ==
              Exec(child.rules, seat, start).1.messages +
              PrefixedAll(child.prefix, child.valueObjects(child.item, Marks(child.rules, seat, start)))
  {
    var seat, start := ChildSeat(child, mode, stops, home), OnCopy(child, w);
    ExecMarks(child.rules, seat, start);
    assert start.marked + Marks(child.rules, seat, start) == Marks(child.rules, seat, start);
  }

  // ---- the entity and its snapshot ----

  /** The mutations the body meets, inner passes included, in order. */
  function Changes<S>(p: Rule<S>, seat: Seat<S>, w: World<S>): seq<S -> S>
    decreases p
  {
    match p
    case Then(first, second) =>
      var (e, w1) := Exec(first, seat, w);
      Changes(first, seat, w) + if e == Done then Changes(second, seat, w1) else []
    case When(test, body, otherwise) =>
      if test(ViewOf(w)) then Changes(body, seat, w) else Changes(otherwise, seat, w)
    case InModes(modes, body) => if seat.mode in modes then Changes(body, seat, w) else []
    case Nested(inner, body, _) =>
      if RunsRules(inner) then Changes(body, InnerSeat(inner, seat.home), Inside(inner, seat.home, w)) else []
    case Mutate(change) => [change]
    case _ => []
  }

  function Changed<S>(changes: seq<S -> S>, s: S): S {
    if changes == [] then s else Changed(changes[1..], changes[0](s))
  }

  lemma {:induction false} ChangedOn<S>(a: seq<S -> S>, b: seq<S -> S>, s: S)
    ensures Changed(a + b, s) == Changed(b, Changed(a, s))
    decreases a
  {
    if a == [] {
      assert a + b == b;
    } else {
      assert (a + b)[0] == a[0] && (a + b)[1..] == a[1..] + b;
      ChangedOn(a[1..], b, a[0](s));
    }
  }

  /** However it ends, a body leaves the entity as its mutations make it, one upon the other. */
  lemma {:induction false} ExecMutates<S>(p: Rule<S>, seat: Seat<S>, w: World<S>)
    ensures Exec(p, seat, w).1.entity == Changed(Changes(p, seat, w), w.entity)
    decreases p
  {
    match p
    case Then(first, second) =>
      var (e, w1) := Exec(first, seat, w);
      ExecMutates(first, seat, w);
      ExecMutates(second, seat, w1);
      ChangedOn(Changes(first, seat, w), if e == Done then Changes(second, seat, w1) else [], w.entity);
    case When(test, body, otherwise) =>
      ExecMutates(body, seat, w);
      ExecMutates(otherwise, seat, w);
    case InModes(modes, body) => ExecMutates(body, seat, w);
    case Nested(inner, body, rest) =>
      ExecMutates(body, InnerSeat(inner, seat.home), Inside(inner, seat.home, w));
      AroundEntity(p, seat, w);
    case Mutate(change) => assert Changed([change], w.entity) == change(w.entity);
    case _ =>
  }

  lemma {:induction false} AroundEntity<S>(p: Rule<S>, seat: Seat<S>, w: World<S>)
    requires p.Nested?
    ensures var end := Exec(p.body, InnerSeat(p.inner, seat.home), Inside(p.inner, seat.home, w));
            Exec(p, seat, w).1.entity == (if RunsRules(p.inner) then end.1.entity else w.entity)
    ensures Inside(p.inner, seat.home, w).entity == w.entity
  {
  }

  /** What the entity and its children were at the first capture is the snapshot from there
      on, whatever the body does to either behind it. */
  lemma {:induction false} CaptureSticks<S>(p: Rule<S>, q: Rule<S>, seat: Seat<S>, w: World<S>, copy: S)
    requires var (e, w1) := Exec(p, seat, w);
             e == Done && w1.prior.None? && seat.home.clone(w1.entity) == Some(copy)
    ensures var w1 := Exec(p, seat, w).1;
            Exec(Then(p, Then(CaptureOld, q)), seat, w).1.prior == Some(Prior(copy, w1.root.aggregates))
  {
    var w1 := Exec(p, seat, w).1;
    var w2 := Capture(seat.home.clone, w1);
    assert Exec(CaptureOld, seat, w1) == (Done, w2);
    assert Exec(Then(CaptureOld, q), seat, w1) == Exec(q, seat, w2);
    ExecKeeps(q, seat, w2);
  }

  /** A capture asked for from outside is the snapshot of every later state. */
  lemma {:induction false} CaptureCallSticks<S>(spec: Spec<S>, w: World<S>, calls: seq<Call<S>>, copy: S)
    requires w.prior.None? && spec.home.clone(w.entity) == Some(copy)
    ensures History(spec, Step(spec, w, CaptureCall).0, calls).prior == Some(Prior(copy, w.root.aggregates))
  {
    FirstCaptureWins(spec, Step(spec, w, CaptureCall).0, calls);
  }

  /** A mutation has no barrier: it runs to its end or panics, whatever is on the context. */
  lemma {:induction false} MutationNeverStops<S>(spec: Spec<S>, w: World<S>, apply: Apply<S>)
    ensures RunApply(spec, w, apply).0 != Stopped
  {
    if apply.Apply? { ExecKeeps(apply.body, ApplySeat(spec, w), w); }
  }

  // ---- the fresh check ----

  /** Where a fresh check starts. */
  function Afresh<S>(w: World<S>): World<S> {
    Reset(Empty(w))
  }

  predicate IsWrite(mode: Mode) {
    mode != Unknown && mode != Display
  }

  /** The check says valid exactly when the service is there, everything runs clean from an
      emptied context, the mode is declared and the id fits. */
  lemma {:induction false} ValidIff<S(!new)>(spec: Spec<S>, w: World<S>, mode: Mode, service: bool)
    requires IsWrite(mode) && NeverDrops(spec, mode)
    ensures var final := RunRules(spec, mode, true, Afresh(w)).1.entity;
            IsValid(spec, w, mode, service).1 == Checked(true) <==>
              && Served(spec, service) && RunsClean(spec, mode, Afresh(w))
              && mode in spec.modes(final) && IdFits(spec, mode, final)
  {
    AcceptsIff(spec, mode, service, Afresh(w));
  }

  /** It panics exactly when a body does: the entity's own, or, these completed, a child's. */
  lemma {:induction false} CheckPanicsIff<S>(spec: Spec<S>, w: World<S>, mode: Mode, service: bool)
    requires IsWrite(mode)
    ensures var (e, w1) := RunRules(spec, mode, true, Afresh(w));
            IsValid(spec, w, mode, service).1 == Panicked <==>
              && Served(spec, service)
              && (e == Crashed || (e == Done && RunAutomatic(spec, mode, true, Gated(spec, mode, w1)).0 == Crashed))
  {
  }

  /** Otherwise it says valid or not; and asked about no write it says valid. */
  lemma {:induction false} CheckAnswers<S>(spec: Spec<S>, w: World<S>, mode: Mode, service: bool)
    ensures var r := IsValid(spec, w, mode, service).1;
            && (r == Panicked || r == Checked(true) || r == Checked(false))
            && (!IsWrite(mode) ==> r == Checked(true))
  {
  }

  /** Check and Get* agree: with the snapshot already taken, the check of a verb's mode finds
      fault exactly when the Get* of that verb, from an emptied context, is rejected; what the
      Get* seals is valid, and what is valid it seals unless the seal itself panics. */
  lemma {:induction false} CheckAgreesWithGet<S>(spec: Spec<S>, w: World<S>, verb: Verb, service: bool)
    requires verb.Insertable? || Capture(spec.home.clone, w) == w
    ensures var check, get := IsValid(spec, w, ModeOf(verb), service).1, Get(spec, Empty(w), verb, NoApply, service).1;
            && (check == Checked(false) <==> get.Rejected?)
            && (get.Sealed? ==> check == Checked(true))
            && (check == Checked(true) ==> get.Sealed? || get == Panicked)
            && (check == Panicked ==> get == Panicked)
  {
    EmptiedGet(spec, w, verb, service);
    VerdictIs(spec, Pass(spec, Afresh(w), ModeOf(verb), service), verb);
  }

  lemma {:induction false} EmptiedGet<S>(spec: Spec<S>, w: World<S>, verb: Verb, service: bool)
    requires verb.Insertable? || Capture(spec.home.clone, w) == w
    ensures Get(spec, Empty(w), verb, NoApply, service) ==
            Verdict(spec, Pass(spec, Afresh(w), ModeOf(verb), service), verb)
  {
    assert verb.Insertable? || Capture(spec.home.clone, Empty(w)) == Empty(w);
    assert StartOf(spec, Empty(w), verb, NoApply) == Afresh(w);
  }

  lemma {:induction false} VerdictIs<S>(spec: Spec<S>, end: (Ending, World<S>), verb: Verb)
    ensures var r := Verdict(spec, end, verb).1;
            if end.0 == Crashed then r == Panicked
            else if Clean(end.1) then r.Sealed? || r == Panicked
            else r.Rejected?
  {
  }

  // ---- what a rejection carries ----

  /** An entity that declares nothing, has no id and no rules. */
  function Bare(): Spec<()> {
    Spec(Skip, Home({}, s => Some(s)), s => {}, s => None, id => false, false, (s, marked) => [], (s, children) => [])
  }

  /** What such an entity is told by each verb: the mode it does not declare, then the id it
      does not have, which an insert does not need. */
  lemma {:induction false} BareReport(verb: Verb, root: Tracking)
    ensures var undeclared :=
              match verb
              case Insertable => Note("insertable", "InsertNotAllowed")
              case Updatable(_) => Note("updatable", "UpdateNotAllowed")
              case Deletable => Note("deletable", "DeleteNotAllowed")
              case Archivable => Note("archivable", "ArchiveNotAllowed")
              case Unarchivable => Note("unarchivable", "UnarchiveNotAllowed");
            var noId :=
              match verb
              case Insertable => []
              case Updatable(_) => [Note("id", "UnableToUpdateWithoutID")]
              case _ => [Note("id", "UnableToDeleteWithoutID")];
            Get(Bare(), Born((), root), verb, NoApply, false).1 == Rejected([undeclared] + noId, [])
  {
    var start := StartOf(Bare(), Born((), root), verb, NoApply);
    var w2 := Gated(Bare(), ModeOf(verb), RunRules(Bare(), ModeOf(verb), true, start).1);
    assert w2.messages + [] == w2.messages;
  }

  /** An id where there may be none, and one that is no UUID where there must be one, are
      told apart. */
  lemma {:induction false} WrongIdReport<S>(spec: Spec<S>, mode: Mode, s: S)
    requires mode in spec.modes(s) && IsWrite(mode) && spec.id(s).Some? && !spec.isUUID(spec.id(s).value)
    ensures Gates(spec, mode, s) ==
            [Note("id", if mode == InsertMode then "UnableToInsertWithID" else "InvalidIDUUID")]
  {
  }

  /** What the tracker has to say keeps its kind and the child type it is about. */
  lemma {:induction false} NoticesStayApart(a: Notice, b: Notice)
    ensures AsMessage(a).kind == AsMessage(b).kind <==> a.kind == b.kind
    ensures a.about.Some? ==> AsMessage(a).path == [NameSegment(a.about.value)]
    ensures a.about.None? ==> Render(AsMessage(a).path).0 == ""
  {
  }

  /** A rejection carries everything on the entity's context and every context handed to it,
      something among them, and what was held before the call unless it was emptied. */
  lemma {:induction false} RejectedCarries<S>(spec: Spec<S>, w: World<S>, verb: Verb, apply: Apply<S>, service: bool)
    ensures var (w', r) := Get(spec, w, verb, apply, service);
            r.Rejected? ==>
              && r.messages == w'.messages && r.attached == w'.attached
              && (r.messages != [] || exists i :: 0 <= i < |r.attached| && r.attached[i] != [])
              && (Count(w'.trace, Cleared) == Count(w.trace, Cleared) ==> w.messages <= r.messages)
  {
    GetKeeps(spec, w, verb, apply, service);
    if Reaches(spec, w, verb, apply) {
      VerdictCarries(spec, Pass(spec, StartOf(spec, w, verb, apply), ModeOf(verb), service), verb);
    }
  }

  lemma {:induction false} VerdictCarries<S>(spec: Spec<S>, end: (Ending, World<S>), verb: Verb)
    ensures var (w, r) := Verdict(spec, end, verb);
            r.Rejected? ==>
              && r == Rejected(w.messages, w.attached)
              && (w.messages != [] || exists i :: 0 <= i < |w.attached| && w.attached[i] != [])
  {
  }

  /** What is sealed is addressed by the id the entity has at the end, also where a pass let
      it through without one that fits. */
  lemma {:induction false} SealedIsAddressed<S>(
      spec: Spec<S>, w: World<S>, verb: Verb, apply: Apply<S>, service: bool)
    ensures var (w', r) := Get(spec, w, verb, apply, service);
            r.Sealed? ==>
              && r.id == spec.id(w'.entity) && (verb.Insertable? || r.id.Some?)
              && r.partial == (verb == Updatable(true))
  {
    if Reaches(spec, w, verb, apply) {
      VerdictAddresses(spec, Pass(spec, StartOf(spec, w, verb, apply), ModeOf(verb), service), verb);
    }
  }

  lemma {:induction false} VerdictAddresses<S>(spec: Spec<S>, end: (Ending, World<S>), verb: Verb)
    ensures var (w', r) := Verdict(spec, end, verb);
            r.Sealed? ==>
              && r.id == spec.id(w'.entity) && (verb.Insertable? || r.id.Some?)
              && r.partial == (verb == Updatable(true))
  {
  }

  /** Without its service a write is rejected for that, over what was held before. */
  lemma {:induction false} UnservedIsRejected<S>(spec: Spec<S>, w: World<S>, verb: Verb, apply: Apply<S>)
    requires spec.requiresService && Reaches(spec, w, verb, apply)
    ensures var held := StartOf(spec, w, verb, apply).messages;
            Get(spec, w, verb, apply, false).1 == Rejected(held + [Note("service", "ServiceIsRequired")], [])
  {
  }
}
