/** Validation rules as programs (domain/rules.go). A BuildRules body is a term; Exec
    runs it the way the framework does, on the state of the entity it belongs to: the
    private unwind of StopIfInvalid, any other panic, calls on the entity's own tracker
    and validations of the same entity from inside a body included. */
module Rules {
  import opened Options
  import opened Notifications
  import T = Tracker
  import opened AggregateRoots
  import opened AggregateLaws

  // ---- what a body works on ----

  /** What business identity looks at in a child, and everything else it carries. */
  type Key(==, !new)
  type Fields(!new)

  type Collections = map<string, seq<T.Entry<Key, Fields>>>
  type Tracking = Root<Key, Fields>
  type TrackCall = RootCall<Key, Fields>

  datatype Mode = Unknown | Display | InsertMode | UpdateMode | DeleteMode | ArchiveMode | UnarchiveMode

  datatype Verb = Insertable | Updatable(partial: bool) | Deletable | Archivable | Unarchivable

  function ModeOf(verb: Verb): Mode {
    match verb
    case Insertable => InsertMode
    case Updatable(_) => UpdateMode
    case Deletable => DeleteMode
    case Archivable => ArchiveMode
    case Unarchivable => UnarchiveMode
  }

  /** The state an entity was loaded with, its children included. */
  datatype Prior<S> = Prior(entity: S, children: Collections)

  /** What a body can look at. */
  datatype View<S> = View(entity: S, prior: Option<Prior<S>>, messages: seq<Message>, children: Collections)

  /** What happened to an entity: the rules window opened or closed, an archive was asked
      for, the request was taken by a seal, a child was refused, the context was emptied. */
  datatype Mark = Opened | Closed | Asked | Taken | Refusal | Cleared

  datatype Trace = Start | After(before: Trace, mark: Mark)

  function Count(t: Trace, m: Mark): nat {
    match t
    case Start => 0
    case After(before, last) => Count(before, m) + if last == m then 1 else 0
  }

  /** An entity, while and between passes. `marked` are the value objects the running body
      ignored or forced; `attached` the further contexts handed to the entity; `requested`
      the transition the next update is to end in; `root` its tracked children. */
  datatype World<S> = World(
    entity: S,
    prior: Option<Prior<S>>,
    messages: seq<Message>,
    attached: seq<seq<Message>>,
    marked: seq<string>,
    requested: Mode,
    mode: Mode,
    window: bool,
    root: Tracking,
    trace: Trace)

  // ---- bodies ----

  /** A call on the same entity from inside a body: IsValid, or a Get* past its mutation
      (which is then part of the body around it). `served` says whether the service the
      entity requires, if any, was handed in. */
  datatype Inner = Check(mode: Mode, served: bool) | Take(verb: Verb, served: bool)

  /** What the framework's half of an inner pass, its gates, value objects and children,
      comes to: the messages it leaves, and whether it panicked, there or at the seal. */
  datatype Rest =
    | Leaves(messages: seq<Message>)
    | PassPanics(messages: seq<Message>)
    | SealPanics(messages: seq<Message>)

  /** `Nested` holds what BuildRules does when it is entered again. */
  datatype Rule<!S> =
    | Skip
    | Then(first: Rule<S>, second: Rule<S>)
    | When(test: View<S> -> bool, body: Rule<S>, otherwise: Rule<S>)
    | InModes(modes: set<Mode>, body: Rule<S>)
    | Emit(message: View<S> -> Message)
    | StopIfInvalid
    | Mutate(change: S -> S)
    | MarkValueObject(name: string)
    | AttachContext(context: View<S> -> seq<Message>)
    | Track(call: View<S> -> TrackCall)
    | CompleteAsArchive
    | ClearContext
    | CaptureOld
    | Nested(inner: Inner, body: Rule<S>, rest: View<S> -> Rest)
    | Crash

  /** How a body ends: at its last line, unwound by StopIfInvalid, or by a panic. */
  datatype Ending = Done | Stopped | Crashed

  /** What the entity's type supplies to a body: the child types it declares and how a
      snapshot of it is made. */
  datatype Home<!S> = Home(declared: set<string>, clone: S -> Option<S>)

  /** Where a body runs: under which mode, under which scope prefix, and whether its
      StopIfInvalid does anything. */
  datatype Seat<!S> = Seat(mode: Mode, prefix: seq<PathSegment>, stops: bool, home: Home<S>)

  function ViewOf<S>(w: World<S>): View<S> {
    View(w.entity, w.prior, w.messages, w.root.aggregates)
  }

  predicate Clean<S>(w: World<S>) {
    w.messages == [] && forall i :: 0 <= i < |w.attached| ==> w.attached[i] == []
  }

  function Note(field: string, kind: string): Message {
    Message([NameSegment(field)], "", kind)
  }

  function AsMessage(n: Notice): Message {
    Note(if n.about.Some? then n.about.value else "",
         match n.kind
         case EntityAlreadyAdded => "EntityAlreadyAdded"
         case EntityDoesNotExist => "EntityDoesNotExist"
         case InvalidAggregateChild => "InvalidAggregateChild")
  }

  function AsMessages(ns: seq<Notice>): (ms: seq<Message>)
    ensures |ms| == |ns|
  {
    seq(|ns|, i requires 0 <= i < |ns| => AsMessage(ns[i]))
  }

  function Log<S>(w: World<S>, m: Mark): World<S> {
    w.(trace := After(w.trace, m))
  }

  function Say<S>(w: World<S>, ms: seq<Message>): World<S> {
    w.(messages := w.messages + ms)
  }

  function Open<S>(w: World<S>): World<S> {
    Log(w.(window := true), Opened)
  }

  function Close<S>(w: World<S>): World<S> {
    Log(w.(window := false), Closed)
  }

  function Empty<S>(w: World<S>): World<S> {
    Log(w.(messages := []), Cleared)
  }

  /** The call on the tracker; what it has to say lands on the entity's own context. */
  function DoTrack<S>(declared: set<string>, call: TrackCall, w: World<S>): World<S> {
    var r := ApplyRoot(w.root.(messages := []), declared, call);
    var said := Say(w.(root := r.(messages := [])), AsMessages(r.messages));
    if r.messages == [] then said else Log(said, Refusal)
  }

  function Capture<S>(clone: S -> Option<S>, w: World<S>): World<S> {
    if w.prior.Some? then w
    else match clone(w.entity)
      case None => w
      case Some(copy) => w.(prior := Some(Prior(copy, w.root.aggregates)))
  }

  /** Everything of the previous pass goes, except the messages on the entity's own
      context, the snapshot and a pending request. */
  function Reset<S>(w: World<S>): World<S> {
    w.(attached := [], mode := Display)
  }

  function InnerMode(inner: Inner): Mode {
    if inner.Check? then inner.mode else ModeOf(inner.verb)
  }

  function Enter<S>(inner: Inner, clone: S -> Option<S>, w: World<S>): World<S> {
    match inner
    case Check(_, _) => Reset(Empty(w))
    case Take(verb, _) => Reset(if verb.Insertable? then w else Capture(clone, w))
  }

  /** The context as the framework's half leaves it. */
  function Leave<S>(w: World<S>, ms: seq<Message>): World<S> {
    if w.messages <= ms then w.(messages := ms) else Log(w.(messages := ms), Cleared)
  }

  /** An update that comes out clean takes the request off the entity. */
  function TakeRequest<S>(w: World<S>): World<S> {
    Log(w.(requested := Unknown), Taken)
  }

  function Finish<S>(inner: Inner, rest: Rest, w: World<S>): (Ending, World<S>) {
    var left := Leave(w, rest.messages);
    var taken := if inner.Take? && inner.verb.Updatable? && Clean(left) then TakeRequest(left) else left;
    match rest
    case Leaves(_) => (Done, taken)
    case PassPanics(_) => (Crashed, left)
    case SealPanics(_) => (Crashed, taken)
  }

  /** An inner call reaches the rules unless IsValid was asked about no write, or the
      service is missing. */
  predicate RunsRules(inner: Inner) {
    InnerMode(inner) != Unknown && InnerMode(inner) != Display && inner.served
  }

  function RulesSkipped<S>(inner: Inner, home: Home<S>, w: World<S>): World<S> {
    var w1 := Enter(inner, home.clone, w);
    if InnerMode(inner) == Unknown || InnerMode(inner) == Display then w1
    else Say(w1.(mode := InnerMode(inner)), [Note("service", "ServiceIsRequired")])
  }

  /** Where an inner body starts: in the inner mode, with its own marks, in the window the
      inner pass opens. */
  function Inside<S>(inner: Inner, home: Home<S>, w: World<S>): World<S> {
    Open(Enter(inner, home.clone, w).(mode := InnerMode(inner), marked := []))
  }

  function InnerSeat<S>(inner: Inner, home: Home<S>): Seat<S> {
    Seat(InnerMode(inner), [], true, home)
  }

  /** What follows an inner body: the window is closed whichever way it ended, a stopped
      body still meets the gates, and a completed one the framework's whole half. */
  function Behind<S>(
      inner: Inner, rest: View<S> -> Rest, end: (Ending, World<S>), marked: seq<string>): (Ending, World<S>)
  {
    var w := Close(end.1).(marked := marked);
    match end.0
    case Crashed => (Crashed, w)
    case Stopped => (Done, Say(w, rest(ViewOf(w)).messages))
    case Done => Finish(inner, rest(ViewOf(w)), w)
  }

  /** An inner pass from `w`, given where its body ends if it is run. */
  function Around<S>(
      inner: Inner, rest: View<S> -> Rest, home: Home<S>, w: World<S>, end: (Ending, World<S>)): (Ending, World<S>)
  {
    if RunsRules(inner) then Behind(inner, rest, end, w.marked) else (Done, RulesSkipped(inner, home, w))
  }

  /** The rule holds no other rule. */
  predicate IsLine<S>(p: Rule<S>) {
    !(p.Then? || p.When? || p.InModes? || p.Nested?)
  }

  function ExecLine<S>(p: Rule<S>, seat: Seat<S>, w: World<S>): (Ending, World<S>)
    requires IsLine(p)
  {
    match p
    case Skip => (Done, w)
    case Emit(message) => (Done, Say(w, [Prefixed(seat.prefix, message(ViewOf(w)))]))
    case StopIfInvalid => (if seat.stops && w.messages != [] then Stopped else Done, w)
    case Mutate(change) => (Done, w.(entity := change(w.entity)))
    case MarkValueObject(name) => (Done, w.(marked := w.marked + [name]))
    case AttachContext(context) => (Done, w.(attached := w.attached + [context(ViewOf(w))]))
    case Track(call) => (Done, DoTrack(seat.home.declared, call(ViewOf(w)), w))
    case CompleteAsArchive =>
      if w.window && w.mode == UpdateMode then (Done, Log(w.(requested := ArchiveMode), Asked)) else (Crashed, w)
    case ClearContext => (Done, Empty(w))
    case CaptureOld => (Done, Capture(seat.home.clone, w))
    case Crash => (Crashed, w)
  }

  function Exec<S>(p: Rule<S>, seat: Seat<S>, w: World<S>): (Ending, World<S>)
    decreases p
  {
    match p
    case Then(first, second) =>
      var (e, w1) := Exec(first, seat, w);
      if e == Done then Exec(second, seat, w1) else (e, w1)
    case When(test, body, otherwise) =>
      if test(ViewOf(w)) then Exec(body, seat, w) else Exec(otherwise, seat, w)
    case InModes(modes, body) =>
      if seat.mode in modes then Exec(body, seat, w) else (Done, w)
    case Nested(inner, body, rest) =>
      Around(inner, rest, seat.home, w, Exec(body, InnerSeat(inner, seat.home), Inside(inner, seat.home, w)))
    case _ => ExecLine(p, seat, w)
  }

  // ---- what every body keeps, however it ends ----

  /** The window as the trace tells it. */
  predicate WindowOpen(t: Trace) {
    t.After? && (t.mark == Opened || (t.mark != Closed && WindowOpen(t.before)))
  }

  /** An archive was asked for and not taken since. */
  predicate AskedSinceTaken(t: Trace) {
    t.After? && (t.mark == Asked || (t.mark != Taken && AskedSinceTaken(t.before)))
  }

  /** A child was refused and the context not emptied since. */
  predicate RefusedSinceCleared(t: Trace) {
    t.After? && (t.mark == Refusal || (t.mark != Cleared && RefusedSinceCleared(t.before)))
  }

  /** Window, request and messages are what the trace says they must be. */
  predicate Coherent<S>(w: World<S>) {
    && (w.window <==> WindowOpen(w.trace))
    && w.requested == (if AskedSinceTaken(w.trace) then ArchiveMode else Unknown)
    && (RefusedSinceCleared(w.trace) ==> w.messages != [])
  }

  lemma LeaveCoherent<S>(w: World<S>, ms: seq<Message>)
    requires Coherent(w)
    ensures Coherent(Leave(w, ms))
  {
  }

  lemma TakeCoherent<S>(w: World<S>)
    requires Coherent(w)
    ensures Coherent(TakeRequest(w))
  {
  }

  lemma BehindCoherent<S>(inner: Inner, rest: View<S> -> Rest, end: (Ending, World<S>), marked: seq<string>)
    requires Coherent(end.1)
    ensures Coherent(Behind(inner, rest, end, marked).1)
  {
    var w := Close(end.1).(marked := marked);
    assert Coherent(w);
    LeaveCoherent(w, rest(ViewOf(w)).messages);
    TakeCoherent(Leave(w, rest(ViewOf(w)).messages));
  }

  lemma EnterCoherent<S>(inner: Inner, home: Home<S>, w: World<S>)
    requires Coherent(w)
    ensures Coherent(Inside(inner, home, w)) && Coherent(RulesSkipped(inner, home, w))
  {
    assert Coherent(Enter(inner, home.clone, w));
  }

  lemma LineCoherent<S>(p: Rule<S>, seat: Seat<S>, w: World<S>)
    requires IsLine(p) && Coherent(w)
    ensures Coherent(ExecLine(p, seat, w).1)
  {
  }

  /** Whatever the body and however it ends, a panic included. */
  lemma {:induction false} ExecCoherent<S>(p: Rule<S>, seat: Seat<S>, w: World<S>)
    requires Coherent(w)
    ensures Coherent(Exec(p, seat, w).1)
    decreases p
  {
    match p
    case Then(first, second) =>
      ExecCoherent(first, seat, w);
      ExecCoherent(second, seat, Exec(first, seat, w).1);
    case When(test, body, otherwise) =>
      ExecCoherent(body, seat, w);
      ExecCoherent(otherwise, seat, w);
    case InModes(modes, body) => ExecCoherent(body, seat, w);
    case Nested(inner, body, rest) =>
      var innerSeat, inside := InnerSeat(inner, seat.home), Inside(inner, seat.home, w);
      EnterCoherent(inner, seat.home, w);
      ExecCoherent(body, innerSeat, inside);
      AroundCoherent(inner, rest, seat.home, w, Exec(body, innerSeat, inside));
    case _ => LineCoherent(p, seat, w);
  }

  lemma AroundCoherent<S>(inner: Inner, rest: View<S> -> Rest, home: Home<S>, w: World<S>, end: (Ending, World<S>))
    requires Coherent(w) && Coherent(end.1)
    ensures Coherent(Around(inner, rest, home, w, end).1)
  {
    EnterCoherent(inner, home, w);
    BehindCoherent(inner, rest, end, w.marked);
  }

  /** The window a body was entered with is open behind it exactly when no inner pass
      closed it in between. */
  lemma {:induction false} ExecWindow<S>(p: Rule<S>, seat: Seat<S>, w: World<S>)
    ensures var w' := Exec(p, seat, w).1;
            && Count(w.trace, Closed) <= Count(w'.trace, Closed)
            && (w'.window <==> w.window && Count(w'.trace, Closed) == Count(w.trace, Closed))
    decreases p
  {
    match p
    case Then(first, second) =>
      ExecWindow(first, seat, w);
      ExecWindow(second, seat, Exec(first, seat, w).1);
    case When(test, body, otherwise) =>
      ExecWindow(body, seat, w);
      ExecWindow(otherwise, seat, w);
    case InModes(modes, body) => ExecWindow(body, seat, w);
    case Nested(inner, body, rest) =>
      var innerSeat, inside := InnerSeat(inner, seat.home), Inside(inner, seat.home, w);
      EnterKeepsWindow(inner, seat.home, w);
      ExecWindow(body, innerSeat, inside);
      AroundWindow(inner, rest, seat.home, w, Exec(body, innerSeat, inside));
    case _ => LineWindow(p, seat, w);
  }

  lemma LineWindow<S>(p: Rule<S>, seat: Seat<S>, w: World<S>)
    requires IsLine(p)
    ensures var w' := ExecLine(p, seat, w).1;
            w'.window == w.window && Count(w'.trace, Closed) == Count(w.trace, Closed)
  {
  }

  lemma AroundWindow<S>(inner: Inner, rest: View<S> -> Rest, home: Home<S>, w: World<S>, end: (Ending, World<S>))
    requires Count(w.trace, Closed) <= Count(end.1.trace, Closed)
    ensures var w' := Around(inner, rest, home, w, end).1;
            && Count(w.trace, Closed) <= Count(w'.trace, Closed)
            && (w'.window <==> w.window && Count(w'.trace, Closed) == Count(w.trace, Closed))
  {
    EnterKeepsWindow(inner, home, w);
    BehindIsClosed(inner, rest, end, w.marked);
  }

  lemma EnterKeepsWindow<S>(inner: Inner, home: Home<S>, w: World<S>)
    ensures Count(Inside(inner, home, w).trace, Closed) == Count(w.trace, Closed)
    ensures var v := RulesSkipped(inner, home, w);
            v.window == w.window && Count(v.trace, Closed) == Count(w.trace, Closed)
  {
    assert Count(Enter(inner, home.clone, w).trace, Closed) == Count(w.trace, Closed);
  }

  /** An inner pass that reached its rules leaves the window closed. */
  lemma BehindIsClosed<S>(inner: Inner, rest: View<S> -> Rest, end: (Ending, World<S>), marked: seq<string>)
    ensures var w := Behind(inner, rest, end, marked).1;
            !w.window && Count(w.trace, Closed) == Count(end.1.trace, Closed) + 1
  {
    var w := Close(end.1).(marked := marked);
    assert Count(w.trace, Closed) == Count(end.1.trace, Closed) + 1;
    assert Count(Leave(w, rest(ViewOf(w)).messages).trace, Closed) == Count(w.trace, Closed);
  }

  /** So an archive can be asked for behind any piece of a body that was entered with the
      window open exactly when that piece completed, no inner pass closed the window, and
      the entity is in update mode. */
  lemma AskIsHeardIff<S>(p: Rule<S>, seat: Seat<S>, w: World<S>)
    ensures var (e, w1) := Exec(p, seat, w);
            Exec(Then(p, CompleteAsArchive), seat, w).0 == Done <==>
              e == Done && w.window && Count(w1.trace, Closed) == Count(w.trace, Closed) && w1.mode == UpdateMode
  {
    ExecWindow(p, seat, w);
  }

  /** A check of the same entity from inside an update's rules closes their window: the ask
      behind it panics. */
  lemma InnerCheckShutsTheWindow<S>(seat: Seat<S>, w: World<S>)
    requires w.window && w.mode == UpdateMode
    ensures Exec(CompleteAsArchive, seat, w).0 == Done
    ensures var inner := Nested(Check(UpdateMode, true), Skip, (v: View<S>) => Leaves([]));
            Exec(Then(inner, CompleteAsArchive), seat, w).0 == Crashed
  {
    var inner := Nested(Check(UpdateMode, true), Skip, (v: View<S>) => Leaves([]));
    EmptyCheckCompletes(inner, seat, w);
    InnerPassShutsTheWindow(inner, seat, w);
    AskPanics(inner, seat, w);
  }

  lemma EmptyCheckCompletes<S>(p: Rule<S>, seat: Seat<S>, w: World<S>)
    requires p.Nested? && p.inner == Check(UpdateMode, true) && p.body.Skip? && forall v :: p.rest(v) == Leaves([])
    ensures Exec(p, seat, w).0 == Done
  {
  }

  lemma AskPanics<S>(p: Rule<S>, seat: Seat<S>, w: World<S>)
    requires Exec(p, seat, w).0 == Done && !Exec(p, seat, w).1.window
    ensures Exec(Then(p, CompleteAsArchive), seat, w).0 == Crashed
  {
  }

  lemma InnerPassShutsTheWindow<S>(p: Rule<S>, seat: Seat<S>, w: World<S>)
    requires p.Nested? && RunsRules(p.inner)
    ensures !Exec(p, seat, w).1.window
  {
    var end := Exec(p.body, InnerSeat(p.inner, seat.home), Inside(p.inner, seat.home, w));
    BehindIsClosed(p.inner, p.rest, end, w.marked);
  }

  // ---- the trace only grows ----

  predicate Extends(t: Trace, t': Trace) {
    t' == t || (t'.After? && Extends(t, t'.before))
  }

  lemma {:induction false} ExtendsOn(t: Trace, t': Trace, t'': Trace)
    requires Extends(t, t') && Extends(t', t'')
    ensures Extends(t, t'')
    decreases t''
  {
    if t'' != t' { ExtendsOn(t, t', t''.before); }
  }

  lemma BehindExtends<S>(inner: Inner, rest: View<S> -> Rest, end: (Ending, World<S>), marked: seq<string>)
    ensures Extends(end.1.trace, Behind(inner, rest, end, marked).1.trace)
  {
    var w := Close(end.1).(marked := marked);
    var left := Leave(w, rest(ViewOf(w)).messages);
    assert Extends(end.1.trace, w.trace) && Extends(end.1.trace, left.trace);
  }

  lemma InsideExtends<S>(inner: Inner, home: Home<S>, w: World<S>)
    ensures Extends(w.trace, Inside(inner, home, w).trace) && Extends(w.trace, RulesSkipped(inner, home, w).trace)
  {
    assert Extends(w.trace, Enter(inner, home.clone, w).trace);
  }

  lemma {:induction false} ExecExtends<S>(p: Rule<S>, seat: Seat<S>, w: World<S>)
    ensures Extends(w.trace, Exec(p, seat, w).1.trace)
    decreases p
  {
    match p
    case Then(first, second) =>
      ExecExtends(first, seat, w);
      var w1 := Exec(first, seat, w).1;
      ExecExtends(second, seat, w1);
      ExtendsOn(w.trace, w1.trace, Exec(second, seat, w1).1.trace);
    case When(test, body, otherwise) =>
      ExecExtends(body, seat, w);
      ExecExtends(otherwise, seat, w);
    case InModes(modes, body) => ExecExtends(body, seat, w);
    case Nested(inner, body, rest) =>
      var innerSeat, inside := InnerSeat(inner, seat.home), Inside(inner, seat.home, w);
      ExecExtends(body, innerSeat, inside);
      AroundExtends(inner, rest, seat.home, w, Exec(body, innerSeat, inside));
    case _ =>
  }

  lemma AroundExtends<S>(inner: Inner, rest: View<S> -> Rest, home: Home<S>, w: World<S>, end: (Ending, World<S>))
    requires Extends(Inside(inner, home, w).trace, end.1.trace)
    ensures Extends(w.trace, Around(inner, rest, home, w, end).1.trace)
  {
    InsideExtends(inner, home, w);
    if RunsRules(inner) {
      BehindExtends(inner, rest, end, w.marked);
      ExtendsOn(w.trace, Inside(inner, home, w).trace, end.1.trace);
      ExtendsOn(w.trace, end.1.trace, Behind(inner, rest, end, w.marked).1.trace);
    }
  }

  /** What a longer trace can only have by its own marks. */
  lemma {:induction false} ExtendsMeans(t: Trace, t': Trace)
    requires Extends(t, t')
    ensures Count(t, Asked) <= Count(t', Asked) && Count(t, Cleared) <= Count(t', Cleared)
    ensures AskedSinceTaken(t') && !AskedSinceTaken(t) ==> Count(t', Asked) > Count(t, Asked)
    ensures RefusedSinceCleared(t) && !RefusedSinceCleared(t') ==> Count(t', Cleared) > Count(t, Cleared)
    decreases t'
  {
    if t' != t { ExtendsMeans(t, t'.before); }
  }

  // ---- what was said stays ----

  /** From the one state to the other nothing that was said is gone, unless the context was
      emptied in between. */
  predicate Keeps<S>(w: World<S>, v: World<S>) {
    && Count(w.trace, Cleared) <= Count(v.trace, Cleared)
    && (Count(w.trace, Cleared) == Count(v.trace, Cleared) ==> w.messages <= v.messages)
  }

  lemma KeepsOn<S>(w: World<S>, v: World<S>, u: World<S>)
    requires Keeps(w, v) && Keeps(v, u)
    ensures Keeps(w, u)
  {
  }

  lemma InsideKeeps<S>(inner: Inner, home: Home<S>, w: World<S>)
    ensures Keeps(w, Inside(inner, home, w)) && Keeps(w, RulesSkipped(inner, home, w))
  {
    assert Keeps(w, Enter(inner, home.clone, w));
  }

  lemma BehindKeeps<S>(inner: Inner, rest: View<S> -> Rest, end: (Ending, World<S>), marked: seq<string>)
    ensures Keeps(end.1, Behind(inner, rest, end, marked).1)
  {
    var w := Close(end.1).(marked := marked);
    assert Keeps(end.1, w) && Keeps(w, Leave(w, rest(ViewOf(w)).messages));
  }

  lemma LineKeeps<S>(p: Rule<S>, seat: Seat<S>, w: World<S>)
    requires IsLine(p)
    ensures Keeps(w, ExecLine(p, seat, w).1)
  {
  }

  /** Whatever the body and however it ends. */
  lemma {:induction false} ExecKeepsMessages<S>(p: Rule<S>, seat: Seat<S>, w: World<S>)
    ensures Keeps(w, Exec(p, seat, w).1)
    decreases p
  {
    match p
    case Then(first, second) =>
      ExecKeepsMessages(first, seat, w);
      ExecKeepsMessages(second, seat, Exec(first, seat, w).1);
    case When(test, body, otherwise) =>
      ExecKeepsMessages(body, seat, w);
      ExecKeepsMessages(otherwise, seat, w);
    case InModes(modes, body) => ExecKeepsMessages(body, seat, w);
    case Nested(inner, body, rest) =>
      var innerSeat, inside := InnerSeat(inner, seat.home), Inside(inner, seat.home, w);
      ExecKeepsMessages(body, innerSeat, inside);
      AroundKeepsMessages(inner, rest, seat.home, w, Exec(body, innerSeat, inside));
    case _ => LineKeeps(p, seat, w);
  }

  lemma AroundKeepsMessages<S>(inner: Inner, rest: View<S> -> Rest, home: Home<S>, w: World<S>, end: (Ending, World<S>))
    requires Keeps(Inside(inner, home, w), end.1)
    ensures Keeps(w, Around(inner, rest, home, w, end).1)
  {
    InsideKeeps(inner, home, w);
    BehindKeeps(inner, rest, end, w.marked);
  }

  /** The body does not validate the entity again. */
  predicate NeverNests<S>(p: Rule<S>) {
    match p
    case Then(first, second) => NeverNests(first) && NeverNests(second)
    case When(_, body, otherwise) => NeverNests(body) && NeverNests(otherwise)
    case InModes(_, body) => NeverNests(body)
    case Nested(_, _, _) => false
    case _ => true
  }

  /** A snapshot is never replaced, and only a barrier that is on stops, and only over
      messages. */
  lemma {:induction false} ExecKeeps<S>(p: Rule<S>, seat: Seat<S>, w: World<S>)
    ensures var (e, w') := Exec(p, seat, w);
            (w.prior.Some? ==> w'.prior == w.prior) && (e == Stopped ==> seat.stops && w'.messages != [])
    decreases p
  {
    match p
    case Then(first, second) =>
      ExecKeeps(first, seat, w);
      ExecKeeps(second, seat, Exec(first, seat, w).1);
    case When(test, body, otherwise) =>
      ExecKeeps(body, seat, w);
      ExecKeeps(otherwise, seat, w);
    case InModes(modes, body) => ExecKeeps(body, seat, w);
    case Nested(inner, body, rest) =>
      var innerSeat, inside := InnerSeat(inner, seat.home), Inside(inner, seat.home, w);
      ExecKeeps(body, innerSeat, inside);
      AroundKeeps(inner, rest, seat.home, w, Exec(body, innerSeat, inside));
    case _ =>
  }

  lemma AroundKeeps<S>(inner: Inner, rest: View<S> -> Rest, home: Home<S>, w: World<S>, end: (Ending, World<S>))
    requires var inside := Inside(inner, home, w); inside.prior.Some? ==> end.1.prior == inside.prior
    ensures var (e, w') := Around(inner, rest, home, w, end);
            (w.prior.Some? ==> w'.prior == w.prior) && e != Stopped
  {
  }

  /** Only a validation from inside the body drops a context handed to the entity. */
  lemma {:induction false} ExecKeepsContexts<S>(p: Rule<S>, seat: Seat<S>, w: World<S>)
    requires NeverNests(p)
    ensures w.attached <= Exec(p, seat, w).1.attached
    decreases p
  {
    match p
    case Then(first, second) =>
      ExecKeepsContexts(first, seat, w);
      ExecKeepsContexts(second, seat, Exec(first, seat, w).1);
    case When(test, body, otherwise) =>
      ExecKeepsContexts(body, seat, w);
      ExecKeepsContexts(otherwise, seat, w);
    case InModes(modes, body) => ExecKeepsContexts(body, seat, w);
    case _ =>
  }

  ghost predicate SameButRequest<S>(w: World<S>, v: World<S>) {
    w == v.(requested := w.requested)
  }

  /** A pending request steers no body. */
  lemma {:induction false} ExecIgnoresRequest<S>(p: Rule<S>, seat: Seat<S>, w: World<S>, v: World<S>)
    requires SameButRequest(w, v)
    ensures Exec(p, seat, w).0 == Exec(p, seat, v).0 && SameButRequest(Exec(p, seat, w).1, Exec(p, seat, v).1)
    decreases p, 1
  {
    match p
    case Then(first, second) =>
      ExecIgnoresRequest(first, seat, w, v);
      ExecIgnoresRequest(second, seat, Exec(first, seat, w).1, Exec(first, seat, v).1);
    case When(test, body, otherwise) =>
      ExecIgnoresRequest(body, seat, w, v);
      ExecIgnoresRequest(otherwise, seat, w, v);
    case InModes(modes, body) => ExecIgnoresRequest(body, seat, w, v);
    case Nested(_, _, _) => NestedIgnoresRequest(p, seat, w, v);
    case _ => LineIgnoresRequest(p, seat, w, v);
  }

  lemma LineIgnoresRequest<S>(p: Rule<S>, seat: Seat<S>, w: World<S>, v: World<S>)
    requires IsLine(p) && SameButRequest(w, v)
    ensures ExecLine(p, seat, w).0 == ExecLine(p, seat, v).0
    ensures SameButRequest(ExecLine(p, seat, w).1, ExecLine(p, seat, v).1)
  {
    assert ViewOf(w) == ViewOf(v);
  }

  lemma {:induction false} NestedIgnoresRequest<S>(p: Rule<S>, seat: Seat<S>, w: World<S>, v: World<S>)
    requires p.Nested? && SameButRequest(w, v)
    ensures Exec(p, seat, w).0 == Exec(p, seat, v).0 && SameButRequest(Exec(p, seat, w).1, Exec(p, seat, v).1)
    decreases p, 0
  {
    var inner, home := p.inner, seat.home;
    var innerSeat, inside, inside' := InnerSeat(inner, home), Inside(inner, home, w), Inside(inner, home, v);
    EnterIgnoresRequest(inner, home, w, v);
    ExecIgnoresRequest(p.body, innerSeat, inside, inside');
    AroundIgnoresRequest(inner, p.rest, home, w, v, Exec(p.body, innerSeat, inside), Exec(p.body, innerSeat, inside'));
  }

  lemma AroundIgnoresRequest<S>(
      inner: Inner, rest: View<S> -> Rest, home: Home<S>, w: World<S>, v: World<S>,
      end: (Ending, World<S>), end': (Ending, World<S>))
    requires SameButRequest(w, v) && end.0 == end'.0 && SameButRequest(end.1, end'.1)
    ensures var a, b := Around(inner, rest, home, w, end), Around(inner, rest, home, v, end');
            a.0 == b.0 && SameButRequest(a.1, b.1)
  {
    EnterIgnoresRequest(inner, home, w, v);
    BehindIgnoresRequest(inner, rest, end, end', w.marked);
  }

  lemma EnterIgnoresRequest<S>(inner: Inner, home: Home<S>, w: World<S>, v: World<S>)
    requires SameButRequest(w, v)
    ensures SameButRequest(Inside(inner, home, w), Inside(inner, home, v)) &&
            SameButRequest(RulesSkipped(inner, home, w), RulesSkipped(inner, home, v))
  {
  }

  lemma BehindIgnoresRequest<S>(
      inner: Inner, rest: View<S> -> Rest, end: (Ending, World<S>), end': (Ending, World<S>), marked: seq<string>)
    requires end.0 == end'.0 && SameButRequest(end.1, end'.1)
    ensures var a, b := Behind(inner, rest, end, marked), Behind(inner, rest, end', marked);
            a.0 == b.0 && SameButRequest(a.1, b.1)
  {
  }

  // ---- bodies of children ----

  /** The body touches nothing but what it was handed: its own value and its messages. An
      aggregate child holds no reference to its root. */
  predicate OwnOnly<S>(p: Rule<S>) {
    match p
    case Then(first, second) => OwnOnly(first) && OwnOnly(second)
    case When(_, body, otherwise) => OwnOnly(body) && OwnOnly(otherwise)
    case InModes(_, body) => OwnOnly(body)
    case AttachContext(_) => false
    case Track(_) => false
    case CompleteAsArchive => false
    case CaptureOld => false
    case Nested(_, _, _) => false
    case _ => true
  }

  type ChildRule<!S> = p: Rule<S> | OwnOnly(p) witness Skip

  /** What a child's body leaves alone. */
  ghost predicate SameFrame<S>(w: World<S>, v: World<S>) {
    && w.prior == v.prior && w.attached == v.attached && w.requested == v.requested
    && w.mode == v.mode && w.window == v.window && w.root == v.root
  }

  lemma {:induction false} ExecOwn<S>(p: Rule<S>, seat: Seat<S>, w: World<S>)
    requires OwnOnly(p)
    ensures SameFrame(Exec(p, seat, w).1, w)
    decreases p
  {
    match p
    case Then(first, second) =>
      ExecOwn(first, seat, w);
      ExecOwn(second, seat, Exec(first, seat, w).1);
    case When(test, body, otherwise) =>
      ExecOwn(body, seat, w);
      ExecOwn(otherwise, seat, w);
    case InModes(modes, body) => ExecOwn(body, seat, w);
    case _ =>
  }
}
