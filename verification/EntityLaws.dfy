/** When a Get* seals, what keeps it from sealing, which prior state the rules see, and
    exactly when a seal can meet an id that is not there. */
module EntityLaws {
  import opened Options
  import opened Notifications
  import opened Rules
  import opened RuleTexts
  import opened Validation
  import opened Barrier
  import opened Entity

  // ---- the verdict ----

  /** Read off the texts of the children: a pass can come to its end, unstopped, with what
      was held in front of them dropped. */
  ghost predicate CanDrop<S>(children: seq<Child<S>>, mode: Mode) {
    exists b: Bits, b': Bits :: b.held && !b.fired && MayAll(children, mode, b, b') && !b'.held && !b'.fired
  }

  ghost predicate NeverDrops<S(!new)>(spec: Spec<S>, mode: Mode) {
    forall s, c :: !CanDrop(spec.children(s, c), mode)
  }

  /** Rules, value objects and children, in this order and from here on, complain about
      nothing. */
  ghost predicate RunsClean<S>(spec: Spec<S>, mode: Mode, w: World<S>) {
    var (e, w1) := RunRules(spec, mode, true, w);
    && e == Done && Clean(w1)
    && spec.valueObjects(w1.entity, w1.marked) == []
    && var (e2, w2) := RunChildren(spec.home, ChildrenOf(spec, w1), mode, true, w1);
    e2 == Done && Clean(w2)
  }

  lemma KeptByChildren<S>(home: Home<S>, children: seq<Child<S>>, mode: Mode, w: World<S>)
    requires !CanDrop(children, mode)
    ensures var (e, w') := RunChildren(home, children, mode, true, w);
            e == Done && w'.messages == [] ==> w.messages == []
  {
    var (e, w') := RunChildren(home, children, mode, true, w);
    if e == Done && w'.messages == [] && w.messages != [] {
      ChildrenStopIffFire(home, children, mode, w);
      ChildrenAreRead(home, children, mode, w, false);
      assert CanDrop(children, mode);
    }
  }

  /** A pass accepts exactly when the service is there, everything runs clean, the mode is
      declared and the id fits; no condition on the entity's own rules. */
  lemma AcceptsIff<S(!new)>(spec: Spec<S>, mode: Mode, service: bool, w: World<S>)
    requires NeverDrops(spec, mode)
    ensures var w1 := RunRules(spec, mode, true, w).1;
            Accepts(Validate(spec, mode, service, true, w)) <==>
              && Served(spec, service) && RunsClean(spec, mode, w)
              && mode in spec.modes(w1.entity) && IdFits(spec, mode, w1.entity)
  {
    StopsOnlyCut(spec, mode, service, w);
    if Served(spec, service) {
      var (e, w1) := RunRules(spec, mode, true, w);
      GatesEmptyIff(spec, mode, w1.entity);
      if e == Done { ChildrenDecide(spec, mode, w1); }
    }
  }

  /** Behind completed rules: accepted exactly when nothing was held and nothing is found. */
  lemma ChildrenDecide<S(!new)>(spec: Spec<S>, mode: Mode, w: World<S>)
    requires NeverDrops(spec, mode)
    ensures Accepts(RunAutomatic(spec, mode, true, Gated(spec, mode, w))) <==>
              && Clean(w) && Gates(spec, mode, w.entity) == [] && spec.valueObjects(w.entity, w.marked) == []
              && Accepts(RunChildren(spec.home, ChildrenOf(spec, w), mode, true, w))
  {
    var gates, found := Gates(spec, mode, w.entity), spec.valueObjects(w.entity, w.marked);
    var w2 := Say(Gated(spec, mode, w), found);
    var kids := ChildrenOf(spec, w);
    RunChildrenFrame(spec.home, kids, mode, true, w2);
    assert |w2.messages| == |w.messages| + |gates| + |found|;
    KeptByChildren(spec.home, kids, mode, w2);
    if gates == [] && found == [] { assert w2 == w; }
  }

  /** The entity the verdict is about is the one the root's rules left. */
  lemma VerdictOn<S>(spec: Spec<S>, mode: Mode, service: bool, w: World<S>)
    ensures Served(spec, service) ==>
            Validate(spec, mode, service, true, w).1.entity == RunRules(spec, mode, true, w).1.entity
  {
    var w1 := Gated(spec, mode, RunRules(spec, mode, true, w).1);
    RunChildrenFrame(spec.home, ChildrenOf(spec, w1), mode, true, Say(w1, spec.valueObjects(w1.entity, w1.marked)));
  }

  /** Where the pass of a call starts. */
  function StartOf<S>(spec: Spec<S>, w: World<S>, verb: Verb, apply: Apply<S>): World<S> {
    Reset(Entered(spec, w, verb, apply).1)
  }

  predicate Reaches<S>(spec: Spec<S>, w: World<S>, verb: Verb, apply: Apply<S>) {
    var (e, w0) := Entered(spec, w, verb, apply);
    e != Crashed && !(verb.Updatable? && Failed(apply, w0))
  }

  /** A Get* seals exactly when: the mutation succeeded, the service is there if required,
      everything runs clean, messages held before included, the mode is declared, the id is
      absent for an insert or a UUID otherwise, and an archive an update is to end in is
      declared too. */
  lemma {:induction false} SealedIff<S(!new)>(spec: Spec<S>, w: World<S>, verb: Verb, apply: Apply<S>, service: bool)
    requires NeverDrops(spec, ModeOf(verb)) && Coherent(w)
    ensures var mode, start := ModeOf(verb), StartOf(spec, w, verb, apply);
            var final := RunRules(spec, mode, true, start).1.entity;
            Get(spec, w, verb, apply, service).1.Sealed? <==>
              && Reaches(spec, w, verb, apply)
              && Served(spec, service)
              && RunsClean(spec, mode, start)
              && mode in spec.modes(final)
              && IdFits(spec, mode, final)
              && (verb.Updatable? && AskedSinceTaken(Pass(spec, start, mode, service).1.trace) ==>
                  ArchiveMode in spec.modes(final))
  {
    var mode, start := ModeOf(verb), StartOf(spec, w, verb, apply);
    EnteredCoherent(spec, w, verb, apply);
    PassCoherent(spec, start, mode, service);
    AcceptsIff(spec, mode, service, start);
    VerdictOn(spec, mode, service, start);
    SealsIff(spec, Pass(spec, start, mode, service), verb);
  }

  lemma SealsIff<S>(spec: Spec<S>, end: (Ending, World<S>), verb: Verb)
    requires Coherent(end.1) && (Accepts(end) ==> IdFits(spec, ModeOf(verb), end.1.entity))
    ensures Verdict(spec, end, verb).1.Sealed? <==>
              && Accepts(end)
              && (verb.Updatable? && AskedSinceTaken(end.1.trace) ==> ArchiveMode in spec.modes(end.1.entity))
  {
  }

  /** What a sealed write carries: the id its verb needs, the id of the entity it leaves
      behind, the mode of its verb (an update may end as an archive) and the PATCH flag. */
  lemma SealedCarries<S(!new)>(spec: Spec<S>, w: World<S>, verb: Verb, apply: Apply<S>, service: bool)
    requires NeverDrops(spec, ModeOf(verb))
    ensures var (w', r) := Get(spec, w, verb, apply, service);
            r.Sealed? ==>
              && (if verb.Insertable? then r.id.None? else r.id.Some? && spec.isUUID(r.id.value))
              && r.id == spec.id(w'.entity)
              && (!verb.Updatable? ==> r.entityMode == ModeOf(verb))
              && r.partial == (verb.Updatable? && verb.partial)
  {
    var mode, start := ModeOf(verb), StartOf(spec, w, verb, apply);
    AcceptsIff(spec, mode, service, start);
    VerdictOn(spec, mode, service, start);
    SealCarries(spec, Pass(spec, start, mode, service), verb);
  }

  lemma SealCarries<S>(spec: Spec<S>, end: (Ending, World<S>), verb: Verb)
    requires Accepts(end) ==> IdFits(spec, ModeOf(verb), end.1.entity)
    ensures var (w', r) := Verdict(spec, end, verb);
            r.Sealed? ==>
              && (if verb.Insertable? then r.id.None? else r.id.Some? && spec.isUUID(r.id.value))
              && r.id == spec.id(w'.entity)
              && (!verb.Updatable? ==> r.entityMode == ModeOf(verb))
              && r.partial == (verb.Updatable? && verb.partial)
  {
  }

  // ---- the id at the seal ----

  /** Where no child can drop what was held in front of it, an accepted pass has the id its
      seal dereferences: the seal panics only over a pending archive the entity does not
      declare. */
  lemma SealPanicsOnlyOnUndeclaredArchive<S(!new)>(spec: Spec<S>, w: World<S>, verb: Verb, service: bool)
    requires NeverDrops(spec, ModeOf(verb)) && Coherent(w)
    requires Accepts(Pass(spec, w, ModeOf(verb), service))
    ensures var w1 := Pass(spec, w, ModeOf(verb), service).1;
            Seal(spec, w1, verb).1.Panicked? <==>
              verb.Updatable? && AskedSinceTaken(w1.trace) && ArchiveMode !in spec.modes(w1.entity)
  {
    PassCoherent(spec, w, ModeOf(verb), service);
    AcceptsIff(spec, ModeOf(verb), service, w);
    VerdictOn(spec, ModeOf(verb), service, w);
    SealsIff(spec, Pass(spec, w, ModeOf(verb), service), verb);
  }

  /** An entity type with these children whose rules say nothing, that declares no mode and
      has no id. */
  function Bare<S>(children: seq<Child<S>>, home: Home<S>): Spec<S> {
    Spec(Skip, home, s => {}, s => None, t => false, false, (s, m) => [], (s, c) => children)
  }

  /** Every gate failed, and yet the pass accepts and the seal meets no id. */
  ghost predicate MeetsNoId<S>(children: seq<Child<S>>, home: Home<S>, verb: Verb, w: World<S>) {
    var spec := Bare(children, home);
    Accepts(Pass(spec, w, ModeOf(verb), true)) && Seal(spec, Pass(spec, w, ModeOf(verb), true).1, verb).1 == Panicked
  }

  /** The condition is exact: some entity type with children of these texts seals without
      its id if and only if the texts can drop what was held. Insert needs no id. */
  lemma {:induction false} NoIdIff<S(!new)>(children: seq<Child<S>>, home: Home<S>, verb: Verb, w: World<S>)
    requires !verb.Insertable? && w.attached == []
    ensures CanDrop(children, ModeOf(verb)) <==>
            exists others :: SameTexts(children, others) && MeetsNoId(others, home, verb, w)
  {
    var mode := ModeOf(verb);
    if CanDrop(children, mode) {
      var others := DropIsRun(children, home, verb, w);
    }
    if others :| SameTexts(children, others) && MeetsNoId(others, home, verb, w) {
      if !CanDrop(others, mode) { BareNeverAccepts(others, home, verb, w); }
      var b: Bits, b': Bits :| b.held && !b.fired && MayAll(others, mode, b, b') && !b'.held && !b'.fired;
      SameTextsRead(children, others, mode, b, b');
    }
  }

  lemma BareNeverAccepts<S(!new)>(children: seq<Child<S>>, home: Home<S>, verb: Verb, w: World<S>)
    requires !CanDrop(children, ModeOf(verb))
    ensures !Accepts(Pass(Bare(children, home), w, ModeOf(verb), true))
  {
    AcceptsIff(Bare(children, home), ModeOf(verb), true, w);
  }

  lemma {:induction false} DropIsRun<S>(children: seq<Child<S>>, home: Home<S>, verb: Verb, w: World<S>)
     returns (others: seq<Child<S>>)
    requires !verb.Insertable? && w.attached == [] && CanDrop(children, ModeOf(verb))
    ensures SameTexts(children, others) && MeetsNoId(others, home, verb, w)
  {
    var mode := ModeOf(verb);
    var b: Bits, b': Bits :| b.held && !b.fired && MayAll(children, mode, b, b') && !b'.held && !b'.fired;
    var w1 := BareGated(children, home, mode, w);
    AllOwnRead(children, mode, b, b', false, mode);
    assert BitsOf(w1, false) == Moved(b, false, mode);
    others := ChildReadingsAreRun(home, children, mode, w1, false, Moved(b', false, mode));
    BareAccepts(others, home, verb, w);
  }

  /** Where the children of a bare entity start: behind two failed gates. */
  function BareGated<S>(children: seq<Child<S>>, home: Home<S>, mode: Mode, w: World<S>): (w1: World<S>)
    ensures w1.messages != [] && w1.attached == w.attached && !w1.window && w1.mode == mode
  {
    Gated(Bare(children, home), mode, Close(Started(mode, w)))
  }

  lemma {:induction false} BareAccepts<S>(children: seq<Child<S>>, home: Home<S>, verb: Verb, w: World<S>)
    requires !verb.Insertable? && w.attached == []
    requires var gated := BareGated(children, home, ModeOf(verb), w);
             var (e, w') := RunChildren(home, children, ModeOf(verb), false, gated);
             e == Done && w'.messages == []
    requires !ChildrenFire(home, children, ModeOf(verb), BareGated(children, home, ModeOf(verb), w))
    ensures MeetsNoId(children, home, verb, w)
  {
    var spec, mode := Bare(children, home), ModeOf(verb);
    var w1 := BareGated(children, home, mode, w);
    ChildrenStopIffFire(home, children, mode, w1);
    RunChildrenFrame(home, children, mode, true, w1);
    assert RunRules(spec, mode, true, w) == (Done, Close(Started(mode, w)));
    assert Say(w1, []) == w1;
    assert Validate(spec, mode, true, true, w) == RunChildren(home, children, mode, true, w1);
  }

  /** A child that empties its context does it, whatever else the entity is. */
  lemma ClearingChildMeetsNoId<S(!new)>(child: Child<S>, home: Home<S>, verb: Verb, w: World<S>)
    requires child.rules == ClearContext && !verb.Insertable? && w.attached == []
    requires child.valueObjects(child.item, []) == []
    ensures CanDrop([child], ModeOf(verb)) && MeetsNoId([child], home, verb, w)
  {
    var mode, none := ModeOf(verb), [child][..0];
    var w1 := BareGated([child], home, mode, w);
    assert RunChildren(home, none, mode, false, w1) == (Done, w1) && !ChildrenFire(home, none, mode, w1);
    assert PrefixedAll(child.prefix, []) == [];
    assert RunChildren(home, [child], mode, false, w1) == RunChild(home, child, mode, false, w1);
    BareAccepts([child], home, verb, w);
    if !CanDrop([child], mode) { BareNeverAccepts([child], home, verb, w); }
  }

  // ---- earlier contexts ----

  ghost predicate SameButContexts<S>(w: World<S>, v: World<S>) {
    w.(attached := []) == v.(attached := [])
  }

  /** Contexts attached to the entity steer no body. */
  lemma {:induction false} ExecIgnoresContexts<S>(p: Rule<S>, seat: Seat<S>, w: World<S>, v: World<S>)
    requires SameButContexts(w, v)
    ensures Exec(p, seat, w).0 == Exec(p, seat, v).0 && SameButContexts(Exec(p, seat, w).1, Exec(p, seat, v).1)
    decreases p
  {
    assert ViewOf(w) == ViewOf(v);
    match p
    case Then(first, second) =>
      ExecIgnoresContexts(first, seat, w, v);
      ExecIgnoresContexts(second, seat, Exec(first, seat, w).1, Exec(first, seat, v).1);
    case When(test, body, otherwise) =>
      ExecIgnoresContexts(body, seat, w, v);
      ExecIgnoresContexts(otherwise, seat, w, v);
    case InModes(modes, body) => ExecIgnoresContexts(body, seat, w, v);
    case Nested(inner, _, _) => EnterForgetsContexts(inner, seat.home, w, v);
    case _ => LineIgnoresContexts(p, seat, w, v);
  }

  lemma LineIgnoresContexts<S>(p: Rule<S>, seat: Seat<S>, w: World<S>, v: World<S>)
    requires IsLine(p) && SameButContexts(w, v)
    ensures ExecLine(p, seat, w).0 == ExecLine(p, seat, v).0
    ensures SameButContexts(ExecLine(p, seat, w).1, ExecLine(p, seat, v).1)
  {
    assert ViewOf(w) == ViewOf(v);
  }

  lemma EnterForgetsContexts<S>(inner: Inner, home: Home<S>, w: World<S>, v: World<S>)
    requires SameButContexts(w, v)
    ensures Inside(inner, home, w) == Inside(inner, home, v) &&
            RulesSkipped(inner, home, w) == RulesSkipped(inner, home, v) && w.marked == v.marked
  {
  }

  lemma EnteredIgnoresContexts<S>(spec: Spec<S>, w: World<S>, v: World<S>, verb: Verb, apply: Apply<S>)
    requires SameButContexts(w, v)
    ensures Entered(spec, w, verb, apply).0 == Entered(spec, v, verb, apply).0
    ensures SameButContexts(Entered(spec, w, verb, apply).1, Entered(spec, v, verb, apply).1)
  {
    var w0, v0 := Capture(spec.home.clone, w), Capture(spec.home.clone, v);
    if apply.Apply? { ExecIgnoresContexts(apply.body, ApplySeat(spec, w0), w0, v0); }
  }

  /** Contexts attached before a Get* have no part in its result, whatever the mutation;
      and none in the state it leaves, once it came to its pass. */
  lemma {:induction false} EarlierContextsForgotten<S>(
      spec: Spec<S>, w: World<S>, v: World<S>, verb: Verb, apply: Apply<S>, service: bool)
    requires SameButContexts(w, v)
    ensures Get(spec, w, verb, apply, service).1 == Get(spec, v, verb, apply, service).1
    ensures Reaches(spec, w, verb, apply) ==>
            Get(spec, w, verb, apply, service).0 == Get(spec, v, verb, apply, service).0
  {
    EnteredIgnoresContexts(spec, w, v, verb, apply);
    var w1, v1 := Entered(spec, w, verb, apply).1, Entered(spec, v, verb, apply).1;
    assert Reset(w1) == Reset(v1) && w1.entity == v1.entity;
  }

  /** A fresh check forgets the messages too. */
  lemma EarlierMessagesForgotten<S>(spec: Spec<S>, w: World<S>, v: World<S>, mode: Mode, service: bool)
    requires SameButContexts(w, v.(messages := w.messages))
    ensures IsValid(spec, w, mode, service) == IsValid(spec, v, mode, service)
  {
    assert Reset(Empty(w)) == Reset(Empty(v));
  }

  // ---- messages stick ----

  lemma EnteredKeeps<S>(spec: Spec<S>, w: World<S>, verb: Verb, apply: Apply<S>)
    ensures Keeps(w, StartOf(spec, w, verb, apply))
  {
    var w0 := Capture(spec.home.clone, w);
    if apply.Apply? { ExecKeepsMessages(apply.body, ApplySeat(spec, w0), w0); }
  }

  lemma VerdictKeeps<S>(spec: Spec<S>, end: (Ending, World<S>), verb: Verb)
    ensures var (w', r) := Verdict(spec, end, verb);
            Keeps(end.1, w') && (r.Sealed? ==> w'.messages == [])
  {
  }

  lemma GetKeeps<S>(spec: Spec<S>, w: World<S>, verb: Verb, apply: Apply<S>, service: bool)
    ensures var (w', r) := Get(spec, w, verb, apply, service);
            Keeps(w, w') && (r.Sealed? ==> w'.messages == [])
  {
    var start := StartOf(spec, w, verb, apply);
    var end := Pass(spec, start, ModeOf(verb), service);
    EnteredKeeps(spec, w, verb, apply);
    ValidateKeepsMessages(spec, ModeOf(verb), service, true, start);
    VerdictKeeps(spec, end, verb);
    KeepsOn(w, start, end.1);
  }

  lemma StepKeeps<S>(spec: Spec<S>, w: World<S>, call: Call<S>)
    ensures var (w', r) := Step(spec, w, call);
            Keeps(w, w') && (r.Sealed? ==> w'.messages == [])
  {
    match call
    case GetCall(verb, apply, service) => GetKeeps(spec, w, verb, apply, service);
    case IsValidCall(mode, service) =>
      var start := Reset(Empty(w));
      ValidateKeepsMessages(spec, mode, service, true, start);
      assert Keeps(w, start);
    case _ =>
  }

  lemma {:induction false} HistoryKeeps<S>(spec: Spec<S>, w: World<S>, calls: seq<Call<S>>)
    ensures Keeps(w, History(spec, w, calls))
  {
    if calls != [] {
      var before := History(spec, w, calls[..|calls| - 1]);
      HistoryKeeps(spec, w, calls[..|calls| - 1]);
      StepKeeps(spec, before, calls[|calls| - 1]);
      KeepsOn(w, before, History(spec, w, calls));
    }
  }

  /** For every entity, every rule program and every history: a message once said is still
      there, in its place, and no Get* seals, until the context is emptied. */
  lemma MessageStaysUntilCleared<S>(spec: Spec<S>, w: World<S>, calls: seq<Call<S>>, call: Call<S>)
    ensures var before := History(spec, w, calls);
            var (w', r) := Step(spec, before, call);
            && (Count(before.trace, Cleared) == Count(w.trace, Cleared) ==> w.messages <= before.messages)
            && (w.messages != [] && r.Sealed? ==> Count(w'.trace, Cleared) > Count(w.trace, Cleared))
  {
    var before := History(spec, w, calls);
    HistoryKeeps(spec, w, calls);
    StepKeeps(spec, before, call);
    KeepsOn(w, before, Step(spec, before, call).0);
  }

  /** So behind a refused child, wherever it was refused, no Get* seals until then. */
  lemma RefusedChildReachesVerdict<S>(spec: Spec<S>, w: World<S>, calls: seq<Call<S>>, call: Call<S>)
    requires Coherent(w) && RefusedSinceCleared(w.trace)
    ensures var (w', r) := Step(spec, History(spec, w, calls), call);
            r.Sealed? ==> Count(w'.trace, Cleared) > Count(w.trace, Cleared)
  {
    MessageStaysUntilCleared(spec, w, calls, call);
  }

  /** An entity type whose rules do nothing but empty the context. */
  function Clearing<S>(): Spec<S> {
    Spec(ClearContext, Home({}, s => None), s => {InsertMode}, s => None, t => true, false, (s, m) => [], (s, c) => [])
  }

  /** Rules that empty the context do it for an earlier message too: the insert seals. */
  lemma ClearingRulesSeal<S>(entity: S, root: Tracking, message: Message)
    ensures Step(Clearing(), Say(Born(entity, root), [message]), GetCall(Insertable, NoApply, true)).1.Sealed?
  {
    var spec: Spec<S> := Clearing();
    var w := Reset(Say(Born(entity, root), [message]));
    var w1 := RunRules(spec, InsertMode, true, w).1;
    assert w1.messages == [] && w1.attached == [];
    assert Gates(spec, InsertMode, w1.entity) == [];
  }

  // ---- the prior state ----

  lemma EnteredKeepsPrior<S>(spec: Spec<S>, w: World<S>, verb: Verb, apply: Apply<S>)
    ensures var w0 := Capture(spec.home.clone, w);
            w0.prior.Some? ==> Entered(spec, w, verb, apply).1.prior == if verb.Insertable? then w.prior else w0.prior
  {
    var w0 := Capture(spec.home.clone, w);
    if apply.Apply? { ExecKeeps(apply.body, ApplySeat(spec, w0), w0); }
  }

  lemma StepKeepsPrior<S>(spec: Spec<S>, w: World<S>, call: Call<S>)
    requires w.prior.Some?
    ensures Step(spec, w, call).0.prior == w.prior
  {
    match call
    case GetCall(verb, apply, service) =>
      EnteredKeepsPrior(spec, w, verb, apply);
      ValidateKeeps(spec, ModeOf(verb), service, true, StartOf(spec, w, verb, apply));
    case IsValidCall(mode, service) => ValidateKeeps(spec, mode, service, true, Reset(Empty(w)));
    case _ =>
  }

  /** The first capture wins over every history that follows it. */
  lemma {:induction false} FirstCaptureWins<S>(spec: Spec<S>, w: World<S>, calls: seq<Call<S>>)
    requires w.prior.Some?
    ensures History(spec, w, calls).prior == w.prior
  {
    if calls != [] {
      FirstCaptureWins(spec, w, calls[..|calls| - 1]);
      StepKeepsPrior(spec, History(spec, w, calls[..|calls| - 1]), calls[|calls| - 1]);
    }
  }

  /** Loading for a write: the entity as read, with its snapshot taken at once. */
  function LoadForWrite<S>(spec: Spec<S>, loaded: S, root: Tracking): World<S> {
    Capture(spec.home.clone, Born(loaded, root))
  }

  /** Whatever a handler, a command or earlier rules did to entity and children since the
      load, the rules of any verb start from the snapshot of both as loaded. */
  lemma RulesSeeLoadedState<S>(
      spec: Spec<S>, loaded: S, root: Tracking, calls: seq<Call<S>>, verb: Verb, apply: Apply<S>)
    requires spec.home.clone(loaded).Some?
    ensures var w := History(spec, LoadForWrite(spec, loaded, root), calls);
            Started(ModeOf(verb), StartOf(spec, w, verb, apply)).prior ==
              Some(Prior(spec.home.clone(loaded).value, root.aggregates))
  {
    FirstCaptureWins(spec, LoadForWrite(spec, loaded, root), calls);
    EnteredKeepsPrior(spec, History(spec, LoadForWrite(spec, loaded, root), calls), verb, apply);
  }

  /** A handler whose load took no snapshot still compares against the loaded state: the
      Get* captures before it lets the mutation run. Insert alone never captures. */
  lemma UnsnapshottedLoadIsCapturedFirst<S>(spec: Spec<S>, loaded: S, root: Tracking, verb: Verb, apply: Apply<S>)
    requires spec.home.clone(loaded).Some?
    ensures Started(ModeOf(verb), StartOf(spec, Born(loaded, root), verb, apply)).prior ==
            if verb.Insertable? then None else Some(Prior(spec.home.clone(loaded).value, root.aggregates))
  {
    EnteredKeepsPrior(spec, Born(loaded, root), verb, apply);
  }

  // ---- a request outlives the pass that made it ----

  /** An entity whose rules ask for the archive while a flag is up. */
  function Archiving(): Spec<bool> {
    Spec(When((v: View<bool>) => v.entity, CompleteAsArchive, Skip), Home({}, s => None),
         s => {UpdateMode, ArchiveMode}, s => Some("u"), t => true, false, (s, m) => [], (s, c) => [])
  }

  lemma ArchivingPass(w: World<bool>)
    requires w.messages == [] && w.attached == [] && w.marked == []
    ensures Pass(Archiving(), w, UpdateMode, true) == (Done, AfterAsking(w))
  {
    var spec := Archiving();
    var start := Started(UpdateMode, w);
    var end := Exec(spec.rules, RootSeat(spec, UpdateMode, true), start);
    assert end == (Done, if w.entity then Log(start.(requested := ArchiveMode), Asked) else start);
    var w1 := Close(end.1);
    assert Gates(spec, UpdateMode, w1.entity) == [];
    assert Say(Say(w1, []), []) == w1;
  }

  function AfterAsking(w: World<bool>): World<bool> {
    var start := Started(UpdateMode, w);
    Close(if w.entity then Log(start.(requested := ArchiveMode), Asked) else start)
  }

  /** A check that asked leaves its request behind: after IsValid on a draft, an update
      of the corrected entity, whose own pass asks for nothing, is sealed as an archive. */
  lemma {:induction false} StaleRequestArchives(root: Tracking)
    ensures var w := History(Archiving(), Born(true, root), [IsValidCall(UpdateMode, true), MutateCall(s => false)]);
            var (w', r) := Get(Archiving(), w, Updatable(false), NoApply, true);
            Count(w'.trace, Asked) == Count(w.trace, Asked) && r == Sealed(ArchiveMode, Some("u"), false)
  {
    var spec, first, second := Archiving(), IsValidCall(UpdateMode, true), MutateCall(s => false);
    var w0 := Reset(Empty(Born(true, root)));
    ArchivingPass(w0);
    TwoCalls(spec, Born(true, root), first, second);
    var w := AfterAsking(w0).(entity := false);
    assert History(spec, Born(true, root), [first, second]) == w;
    PendingIsSealed(w);
  }

  lemma PendingIsSealed(w: World<bool>)
    requires w.messages == [] && w.attached == [] && w.marked == [] && !w.entity && w.requested == ArchiveMode
    ensures var (w', r) := Get(Archiving(), w, Updatable(false), NoApply, true);
            Count(w'.trace, Asked) == Count(w.trace, Asked) && r == Sealed(ArchiveMode, Some("u"), false)
  {
    ArchivingPass(Reset(w));
    assert Capture(Archiving().home.clone, w) == w;
    var w1 := AfterAsking(Reset(w));
    assert w1.requested == ArchiveMode && Clean(w1);
    assert Count(w1.trace, Asked) == Count(Started(UpdateMode, Reset(w)).trace, Asked) == Count(w.trace, Asked);
  }

  lemma TwoCalls<S>(spec: Spec<S>, w: World<S>, first: Call<S>, second: Call<S>)
    ensures History(spec, w, [first, second]) == Step(spec, Step(spec, w, first).0, second).0
  {
    assert [first, second][..1] == [first] && [first][..0] == [];
    assert History(spec, w, []) == w;
  }
}
