/** The life of an entity between load and seal (domain/entity_base.go:195-538,
    domain/clone.go, domain/entity.go): calls on it as functions of its state, and the
    laws of its window, its archive request and its refused children over every history
    of calls. */
module Entity {
  import opened Options
  import opened Notifications
  import opened AggregateLaws
  import opened Rules
  import opened Validation

  /** A sealed write: what it finally is, the id it addresses, PUT or PATCH. */
  datatype Result =
    | Sealed(entityMode: Mode, id: Option<string>, partial: bool)
    | Rejected(messages: seq<Message>, attached: seq<seq<Message>>)
    | ApplyFailed
    | Panicked
    | Checked(valid: bool)
    | Returned

  /** The command's mutation: a body without a barrier that may also fail. */
  datatype Apply<!S> = NoApply | Apply(body: Rule<S>, fails: S -> bool)

  /** One validation pass, its marks forgotten behind it. */
  function Pass<S>(spec: Spec<S>, w: World<S>, mode: Mode, service: bool): (Ending, World<S>) {
    var (e, w1) := Validate(spec, mode, service, true, w);
    (e, w1.(marked := []))
  }

  function ApplySeat<S>(spec: Spec<S>, w: World<S>): Seat<S> {
    Seat(w.mode, [], false, spec.home)
  }

  function RunApply<S>(spec: Spec<S>, w: World<S>, apply: Apply<S>): (Ending, World<S>) {
    match apply
    case NoApply => (Done, w)
    case Apply(body, fails) =>
      var (e, w1) := Exec(body, ApplySeat(spec, w), w);
      (e, w1.(marked := []))
  }

  predicate Failed<S>(apply: Apply<S>, w: World<S>) {
    apply.Apply? && apply.fails(w.entity)
  }

  /** What the entity looks like when the pass of `verb` starts. */
  function Entered<S>(spec: Spec<S>, w: World<S>, verb: Verb, apply: Apply<S>): (Ending, World<S>) {
    if verb.Insertable? then (Done, w)
    else if verb.Updatable? then RunApply(spec, Capture(spec.home.clone, w), apply)
    else (Done, Capture(spec.home.clone, w))
  }

  /** An update takes the request off the entity and folds it into what the write is. */
  function Seal<S>(spec: Spec<S>, w: World<S>, verb: Verb): (World<S>, Result) {
    var taken := if verb.Updatable? then TakeRequest(w) else w;
    var asked := verb.Updatable? && w.requested != Unknown;
    if asked && w.requested !in spec.modes(w.entity) then (taken, Panicked)
    else if verb.Insertable? then (taken, Sealed(InsertMode, spec.id(w.entity), false))
    else if spec.id(w.entity).None? then (taken, Panicked)
    else
      var mode := if asked then w.requested else ModeOf(verb);
      (taken, Sealed(mode, spec.id(w.entity), verb.Updatable? && verb.partial))
  }

  function Get<S>(spec: Spec<S>, w: World<S>, verb: Verb, apply: Apply<S>, service: bool): (World<S>, Result) {
    var (e0, w0) := Entered(spec, w, verb, apply);
    if e0 == Crashed then (w0, Panicked)
    else if verb.Updatable? && Failed(apply, w0) then (w0, ApplyFailed)
    else Verdict(spec, Pass(spec, Reset(w0), ModeOf(verb), service), verb)
  }

  function Verdict<S>(spec: Spec<S>, end: (Ending, World<S>), verb: Verb): (World<S>, Result) {
    var (e, w) := end;
    if e == Crashed then (w, Panicked)
    else if !Clean(w) then (w, Rejected(w.messages, w.attached))
    else Seal(spec, w, verb)
  }

  /** The fresh check: earlier messages are dropped first. */
  function IsValid<S>(spec: Spec<S>, w: World<S>, mode: Mode, service: bool): (World<S>, Result) {
    var w0 := Reset(Empty(w));
    if mode == Unknown || mode == Display then (w0, Checked(true))
    else
      var (e, w1) := Pass(spec, w0, mode, service);
      (w1, if e == Crashed then Panicked else Checked(Clean(w1)))
  }

  datatype Call<!S> =
    | GetCall(verb: Verb, apply: Apply<S>, service: bool)
    | IsValidCall(mode: Mode, service: bool)
    | TrackerCall(call: TrackCall)
    | CaptureCall
    | EmitCall(message: Message)
    | MutateCall(change: S -> S)
    | ClearCall
    | CompleteAsArchiveCall

  function Step<S>(spec: Spec<S>, w: World<S>, call: Call<S>): (World<S>, Result) {
    match call
    case GetCall(verb, apply, service) => Get(spec, w, verb, apply, service)
    case IsValidCall(mode, service) => IsValid(spec, w, mode, service)
    case TrackerCall(call) => (DoTrack(spec.home.declared, call, w), Returned)
    case CaptureCall => (Capture(spec.home.clone, w), Returned)
    case EmitCall(message) => (Say(w, [message]), Returned)
    case MutateCall(change) => (w.(entity := change(w.entity)), Returned)
    case ClearCall => (Empty(w), Returned)
    case CompleteAsArchiveCall =>
      if w.window && w.mode == UpdateMode then (Log(w.(requested := ArchiveMode), Asked), Returned) else (w, Panicked)
  }

  function History<S>(spec: Spec<S>, w: World<S>, calls: seq<Call<S>>): World<S> {
    if calls == [] then w else Step(spec, History(spec, w, calls[..|calls| - 1]), calls[|calls| - 1]).0
  }

  function Born<S>(entity: S, root: Tracking): World<S> {
    World(entity, None, [], [], [], Unknown, Display, false, root, Start)
  }

  // ---- the rules window ----

  lemma EnteredWindow<S>(spec: Spec<S>, w: World<S>, verb: Verb, apply: Apply<S>)
    requires !w.window
    ensures !Entered(spec, w, verb, apply).1.window
  {
    if apply.Apply? {
      var w0 := Capture(spec.home.clone, w);
      ExecWindow(apply.body, ApplySeat(spec, w0), w0);
    }
  }

  lemma StepWindow<S>(spec: Spec<S>, w: World<S>, call: Call<S>)
    requires !w.window
    ensures !Step(spec, w, call).0.window
    ensures call.CompleteAsArchiveCall? ==> Step(spec, w, call).1 == Panicked
  {
    match call
    case GetCall(verb, apply, service) =>
      EnteredWindow(spec, w, verb, apply);
      ValidateKeeps(spec, ModeOf(verb), service, true, Reset(Entered(spec, w, verb, apply).1));
    case IsValidCall(mode, service) => ValidateKeeps(spec, mode, service, true, Reset(Empty(w)));
    case _ =>
  }

  /** In every state any history reaches, calls that panicked and validations from inside
      a body included, the window is closed. */
  lemma {:induction false} WindowAlwaysClosed<S>(spec: Spec<S>, w: World<S>, calls: seq<Call<S>>)
    requires !w.window
    ensures !History(spec, w, calls).window
  {
    if calls != [] {
      WindowAlwaysClosed(spec, w, calls[..|calls| - 1]);
      StepWindow(spec, History(spec, w, calls[..|calls| - 1]), calls[|calls| - 1]);
    }
  }

  // ---- what the trace tells ----

  lemma EnteredCoherent<S>(spec: Spec<S>, w: World<S>, verb: Verb, apply: Apply<S>)
    requires Coherent(w)
    ensures Coherent(Entered(spec, w, verb, apply).1)
  {
    if apply.Apply? {
      var w0 := Capture(spec.home.clone, w);
      ExecCoherent(apply.body, ApplySeat(spec, w0), w0);
    }
  }

  lemma PassCoherent<S>(spec: Spec<S>, w: World<S>, mode: Mode, service: bool)
    requires Coherent(w)
    ensures Coherent(Pass(spec, w, mode, service).1)
  {
    ValidateCoherent(spec, mode, service, true, w);
  }

  /** What a verdict, sealed or not, leaves. */
  lemma VerdictCoherent<S>(spec: Spec<S>, end: (Ending, World<S>), verb: Verb)
    requires Coherent(end.1)
    ensures var (w', r) := Verdict(spec, end, verb);
            Coherent(w') && (r.Sealed? ==> Clean(w'))
  {
  }

  lemma GetCoherent<S>(spec: Spec<S>, w: World<S>, verb: Verb, apply: Apply<S>, service: bool)
    requires Coherent(w)
    ensures var (w', r) := Get(spec, w, verb, apply, service);
            Coherent(w') && (r.Sealed? ==> Clean(w'))
  {
    EnteredCoherent(spec, w, verb, apply);
    var start := Reset(Entered(spec, w, verb, apply).1);
    PassCoherent(spec, start, ModeOf(verb), service);
    VerdictCoherent(spec, Pass(spec, start, ModeOf(verb), service), verb);
  }

  lemma {:induction false} StepCoherent<S>(spec: Spec<S>, w: World<S>, call: Call<S>)
    requires Coherent(w)
    ensures var (w', r) := Step(spec, w, call);
            Coherent(w') && (r.Sealed? ==> Clean(w'))
  {
    match call
    case GetCall(verb, apply, service) => GetCoherent(spec, w, verb, apply, service);
    case IsValidCall(mode, service) =>
      assert Coherent(Reset(Empty(w)));
      PassCoherent(spec, Reset(Empty(w)), mode, service);
    case _ =>
  }

  lemma {:induction false} HistoryCoherent<S>(spec: Spec<S>, w: World<S>, calls: seq<Call<S>>)
    requires Coherent(w)
    ensures Coherent(History(spec, w, calls))
  {
    if calls != [] {
      HistoryCoherent(spec, w, calls[..|calls| - 1]);
      StepCoherent(spec, History(spec, w, calls[..|calls| - 1]), calls[|calls| - 1]);
    }
  }

  lemma EnteredExtends<S>(spec: Spec<S>, w: World<S>, verb: Verb, apply: Apply<S>)
    ensures Extends(w.trace, Entered(spec, w, verb, apply).1.trace)
  {
    if apply.Apply? {
      var w0 := Capture(spec.home.clone, w);
      ExecExtends(apply.body, ApplySeat(spec, w0), w0);
    }
  }

  // ---- the archive request ----

  /** Over every history of a fresh entity: a request is pending exactly when one was asked
      for, in a window open in update mode, and no seal took it since. */
  lemma PendingIff<S>(spec: Spec<S>, entity: S, root: Tracking, calls: seq<Call<S>>)
    ensures var w := History(spec, Born(entity, root), calls);
            w.requested == (if AskedSinceTaken(w.trace) then ArchiveMode else Unknown)
  {
    HistoryCoherent(spec, Born(entity, root), calls);
  }

  /** Where the pass of an update comes to, mutation and reset before it. */
  function Updated<S>(spec: Spec<S>, w: World<S>, apply: Apply<S>, service: bool): (Ending, World<S>) {
    Pass(spec, Reset(Entered(spec, w, Updatable(false), apply).1), UpdateMode, service)
  }

  /** The mode an update is sealed with: Archive exactly when, at the end of its pass, an
      archive was asked for and not taken since; then only if the entity declares it; and
      the seal takes it. */
  lemma SealedArchiveIff<S>(spec: Spec<S>, w: World<S>, partial: bool, apply: Apply<S>, service: bool)
    requires Coherent(w)
    ensures var (w', r) := Get(spec, w, Updatable(partial), apply, service);
            var w1 := Updated(spec, w, apply, service).1;
            r.Sealed? ==>
              && r.entityMode == (if AskedSinceTaken(w1.trace) then ArchiveMode else UpdateMode)
              && (r.entityMode == ArchiveMode ==> ArchiveMode in spec.modes(w'.entity))
              && w'.requested == Unknown && !AskedSinceTaken(w'.trace)
  {
    UpdatedCoherent(spec, w, partial, apply, service);
    SealTakes(spec, Updated(spec, w, apply, service), partial);
  }

  lemma UpdatedCoherent<S>(spec: Spec<S>, w: World<S>, partial: bool, apply: Apply<S>, service: bool)
    requires Coherent(w)
    ensures Coherent(Updated(spec, w, apply, service).1)
    ensures var r := Get(spec, w, Updatable(partial), apply, service);
            r.1.Sealed? ==> r == Verdict(spec, Updated(spec, w, apply, service), Updatable(partial))
  {
    EnteredCoherent(spec, w, Updatable(partial), apply);
    PassCoherent(spec, Reset(Entered(spec, w, Updatable(partial), apply).1), UpdateMode, service);
  }

  lemma SealTakes<S>(spec: Spec<S>, end: (Ending, World<S>), partial: bool)
    requires Coherent(end.1)
    ensures var (w', r) := Verdict(spec, end, Updatable(partial));
            r.Sealed? ==>
              && r.entityMode == (if AskedSinceTaken(end.1.trace) then ArchiveMode else UpdateMode)
              && (r.entityMode == ArchiveMode ==> ArchiveMode in spec.modes(w'.entity))
              && w'.requested == Unknown && !AskedSinceTaken(w'.trace)
  {
  }

  /** An update entered with nothing pending is sealed as an archive only if it asked. */
  lemma ArchiveNeedsAnAsk<S>(spec: Spec<S>, w: World<S>, partial: bool, apply: Apply<S>, service: bool)
    requires Coherent(w) && w.requested == Unknown
    ensures var r := Get(spec, w, Updatable(partial), apply, service).1;
            r.Sealed? && r.entityMode == ArchiveMode ==>
              Count(Updated(spec, w, apply, service).1.trace, Asked) > Count(w.trace, Asked)
  {
    SealedArchiveIff(spec, w, partial, apply, service);
    EnteredExtends(spec, w, Updatable(false), apply);
    var start := Reset(Entered(spec, w, Updatable(false), apply).1);
    ValidateExtends(spec, UpdateMode, service, true, start);
    ExtendsOn(w.trace, start.trace, Updated(spec, w, apply, service).1.trace);
    ExtendsMeans(w.trace, Updated(spec, w, apply, service).1.trace);
  }

  // ---- refused children ----

  /** Over every history, whatever the rules: a child refused on the way, by a call on the
      tracker, inside a mutation or inside a body, keeps every Get* from sealing until the
      context is emptied. */
  lemma RefusalKeepsFromSealing<S>(spec: Spec<S>, w: World<S>, calls: seq<Call<S>>, call: Call<S>)
    requires Coherent(w)
    ensures var (w', r) := Step(spec, History(spec, w, calls), call);
            r.Sealed? ==> !RefusedSinceCleared(w'.trace)
  {
    var mid := History(spec, w, calls);
    HistoryCoherent(spec, w, calls);
    StepCoherent(spec, mid, call);
  }

  /** The tracker's refusal is on the trace, and only it. */
  lemma TrackerRefusalIsMarked<S>(spec: Spec<S>, w: World<S>, call: TrackCall)
    ensures Step(spec, w, TrackerCall(call)).0.trace ==
            if Refuses(w.root.(messages := []), spec.home.declared, call) then After(w.trace, Refusal) else w.trace
  {
    CallSpeaksIff(w.root.(messages := []), spec.home.declared, call);
  }
}
