/** One validation pass over an entity and its aggregate children
    (domain/entity_base.go:540-951). */
module Validation {
  import opened Options
  import opened Notifications
  import opened Rules

  /** An aggregate child as the pass meets it: the tracked item, the scope its messages
      are reported under, its rules and its value-object checks (given what its rules
      marked). */
  datatype Child<!S> = Child(
    item: S,
    prefix: seq<PathSegment>,
    rules: ChildRule<S>,
    valueObjects: (S, seq<string>) -> seq<Message>)

  /** What a concrete entity type supplies. */
  datatype Spec<!S> = Spec(
    rules: Rule<S>,
    home: Home<S>,
    modes: S -> set<Mode>,
    id: S -> Option<string>,
    isUUID: string -> bool,
    requiresService: bool,
    valueObjects: (S, seq<string>) -> seq<Message>,
    children: (S, Collections) -> seq<Child<S>>)

  function ModeGate(mode: Mode): Message {
    match mode
    case InsertMode => Note("insertable", "InsertNotAllowed")
    case UpdateMode => Note("updatable", "UpdateNotAllowed")
    case DeleteMode => Note("deletable", "DeleteNotAllowed")
    case ArchiveMode => Note("archivable", "ArchiveNotAllowed")
    case UnarchiveMode => Note("unarchivable", "UnarchiveNotAllowed")
    case _ => Note("", "")
  }

  /** The id a write of this mode needs: none to insert, a UUID for everything else. */
  predicate IdFits<S>(spec: Spec<S>, mode: Mode, s: S) {
    if mode == InsertMode then spec.id(s).None? else spec.id(s).Some? && spec.isUUID(spec.id(s).value)
  }

  function IdGate<S>(spec: Spec<S>, mode: Mode, s: S): Message {
    if mode == InsertMode then Note("id", "UnableToInsertWithID")
    else if spec.id(s).Some? then Note("id", "InvalidIDUUID")
    else if mode == UpdateMode then Note("id", "UnableToUpdateWithoutID")
    else Note("id", "UnableToDeleteWithoutID")
  }

  /** The structural gates: they report whether or not the rules were stopped. */
  function Gates<S>(spec: Spec<S>, mode: Mode, s: S): seq<Message> {
    (if mode in spec.modes(s) then [] else [ModeGate(mode)]) +
    (if IdFits(spec, mode, s) then [] else [IdGate(spec, mode, s)])
  }

  lemma GatesEmptyIff<S>(spec: Spec<S>, mode: Mode, s: S)
    ensures Gates(spec, mode, s) == [] <==> mode in spec.modes(s) && IdFits(spec, mode, s)
  {
  }

  function PrefixedAll(prefix: seq<PathSegment>, ms: seq<Message>): (r: seq<Message>)
    ensures |r| == |ms|
  {
    seq(|ms|, i requires 0 <= i < |ms| => Prefixed(prefix, ms[i]))
  }

  function ChildSeat<S>(child: Child<S>, mode: Mode, stops: bool, home: Home<S>): Seat<S> {
    Seat(mode, child.prefix, stops, home)
  }

  /** Where a child's rules start: on a copy of the child. */
  function OnCopy<S>(child: Child<S>, w: World<S>): World<S> {
    w.(entity := child.item, marked := [])
  }

  /** The copy is thrown away. */
  function OffCopy<S>(w1: World<S>, w: World<S>): World<S> {
    w1.(entity := w.entity, marked := w.marked)
  }

  /** One child: its rules on a copy, then the value objects of the child itself unless the
      pass was stopped. */
  function RunChild<S>(home: Home<S>, child: Child<S>, mode: Mode, stops: bool, w: World<S>): (Ending, World<S>) {
    var (e, w1) := Exec(child.rules, ChildSeat(child, mode, stops, home), OnCopy(child, w));
    if e != Done then (e, OffCopy(w1, w))
    else (Done, Say(OffCopy(w1, w), PrefixedAll(child.prefix, child.valueObjects(child.item, w1.marked))))
  }

  function RunChildren<S>(
      home: Home<S>, children: seq<Child<S>>, mode: Mode, stops: bool, w: World<S>): (Ending, World<S>)
  {
    if children == [] then (Done, w)
    else
      var (e, w1) := RunChildren(home, children[..|children| - 1], mode, stops, w);
      if e != Done then (e, w1) else RunChild(home, children[|children| - 1], mode, stops, w1)
  }

  function ChildrenOf<S>(spec: Spec<S>, w: World<S>): seq<Child<S>> {
    spec.children(w.entity, w.root.aggregates)
  }

  /** The automatic half: the owner's value objects, then its children. */
  function RunAutomatic<S>(spec: Spec<S>, mode: Mode, stops: bool, w: World<S>): (Ending, World<S>) {
    RunChildren(spec.home, ChildrenOf(spec, w), mode, stops, Say(w, spec.valueObjects(w.entity, w.marked)))
  }

  function RootSeat<S>(spec: Spec<S>, mode: Mode, stops: bool): Seat<S> {
    Seat(mode, [], stops, spec.home)
  }

  /** Where the entity's own rules start. */
  function Started<S>(mode: Mode, w: World<S>): World<S> {
    Open(w.(mode := mode, marked := []))
  }

  /** The entity's own rules, in their window: opened before them and closed behind them,
      however they end. */
  function RunRules<S>(spec: Spec<S>, mode: Mode, stops: bool, w: World<S>): (Ending, World<S>) {
    var (e, w1) := Exec(spec.rules, RootSeat(spec, mode, stops), Started(mode, w));
    (e, Close(w1))
  }

  function Gated<S>(spec: Spec<S>, mode: Mode, w: World<S>): World<S> {
    Say(w, Gates(spec, mode, w.entity))
  }

  predicate Served<S>(spec: Spec<S>, service: bool) {
    service || !spec.requiresService
  }

  /** The whole pass. Stopped and Done both reach the verdict; Crashed does not. */
  function Validate<S>(spec: Spec<S>, mode: Mode, service: bool, stops: bool, w: World<S>): (Ending, World<S>) {
    if !Served(spec, service) then (Done, Say(w.(mode := mode, marked := []), [Note("service", "ServiceIsRequired")]))
    else
      var (e, w1) := RunRules(spec, mode, stops, w);
      match e
      case Crashed => (e, w1)
      case Stopped => (e, Gated(spec, mode, w1))
      case Done => RunAutomatic(spec, mode, stops, Gated(spec, mode, w1))
  }

  predicate Accepts<S>(r: (Ending, World<S>)) {
    r.0 != Crashed && Clean(r.1)
  }

  // ---- what every pass keeps ----

  /** Children reach the entity through their messages alone. */
  lemma {:induction false} RunChildrenFrame<S>(
      home: Home<S>, children: seq<Child<S>>, mode: Mode, stops: bool, w: World<S>)
    ensures var (e, w') := RunChildren(home, children, mode, stops, w);
            && SameFrame(w', w) && w'.entity == w.entity && w'.marked == w.marked
            && (e == Stopped ==> stops && w'.messages != [])
            && (Coherent(w) ==> Coherent(w'))
  {
    if children != [] {
      var before, child := children[..|children| - 1], children[|children| - 1];
      RunChildrenFrame(home, before, mode, stops, w);
      var w1 := RunChildren(home, before, mode, stops, w).1;
      RunChildFrame(home, child, mode, stops, w1);
    }
  }

  lemma RunChildFrame<S>(home: Home<S>, child: Child<S>, mode: Mode, stops: bool, w: World<S>)
    ensures var (e, w') := RunChild(home, child, mode, stops, w);
            && SameFrame(w', w) && w'.entity == w.entity && w'.marked == w.marked
            && (e == Stopped ==> stops && w'.messages != [])
            && (Coherent(w) ==> Coherent(w'))
  {
    var seat, inside := ChildSeat(child, mode, stops, home), OnCopy(child, w);
    ExecOwn(child.rules, seat, inside);
    ExecKeeps(child.rules, seat, inside);
    if Coherent(w) { ExecCoherent(child.rules, seat, inside); }
  }

  /** Every pass, stopped, crashed or completed, leaves the window closed if it reached the
      rules, never replaces a snapshot, and stops only over messages. */
  lemma ValidateKeeps<S>(spec: Spec<S>, mode: Mode, service: bool, stops: bool, w: World<S>)
    ensures var (e, w') := Validate(spec, mode, service, stops, w);
            && w'.window == (w.window && !Served(spec, service))
            && (w.prior.Some? ==> w'.prior == w.prior)
            && (e == Stopped ==> stops && w'.messages != [])
  {
    var w1 := RunRules(spec, mode, stops, w).1;
    ExecKeeps(spec.rules, RootSeat(spec, mode, stops), Started(mode, w));
    var w2 := Gated(spec, mode, w1);
    RunChildrenFrame(spec.home, ChildrenOf(spec, w2), mode, stops, Say(w2, spec.valueObjects(w2.entity, w2.marked)));
  }

  lemma RulesCoherent<S>(spec: Spec<S>, mode: Mode, stops: bool, w: World<S>)
    requires Coherent(w)
    ensures Coherent(RunRules(spec, mode, stops, w).1)
  {
    ExecCoherent(spec.rules, RootSeat(spec, mode, stops), Started(mode, w));
  }

  lemma ValidateCoherent<S>(spec: Spec<S>, mode: Mode, service: bool, stops: bool, w: World<S>)
    requires Coherent(w)
    ensures Coherent(Validate(spec, mode, service, stops, w).1)
  {
    RulesCoherent(spec, mode, stops, w);
    var w2 := Gated(spec, mode, RunRules(spec, mode, stops, w).1);
    RunChildrenFrame(spec.home, ChildrenOf(spec, w2), mode, stops, Say(w2, spec.valueObjects(w2.entity, w2.marked)));
  }

  lemma {:induction false} RunChildrenExtends<S>(
      home: Home<S>, children: seq<Child<S>>, mode: Mode, stops: bool, w: World<S>)
    ensures Extends(w.trace, RunChildren(home, children, mode, stops, w).1.trace)
  {
    if children != [] {
      var before, child := children[..|children| - 1], children[|children| - 1];
      RunChildrenExtends(home, before, mode, stops, w);
      var w1 := RunChildren(home, before, mode, stops, w).1;
      ExecExtends(child.rules, ChildSeat(child, mode, stops, home), OnCopy(child, w1));
      ExtendsOn(w.trace, w1.trace, RunChild(home, child, mode, stops, w1).1.trace);
    }
  }

  lemma ValidateExtends<S>(spec: Spec<S>, mode: Mode, service: bool, stops: bool, w: World<S>)
    ensures Extends(w.trace, Validate(spec, mode, service, stops, w).1.trace)
  {
    var start := Started(mode, w);
    ExecExtends(spec.rules, RootSeat(spec, mode, stops), start);
    var w1 := RunRules(spec, mode, stops, w).1;
    assert Extends(start.trace, w1.trace) && Extends(w.trace, start.trace);
    ExtendsOn(w.trace, start.trace, w1.trace);
    var w2 := Gated(spec, mode, w1);
    var w3 := Say(w2, spec.valueObjects(w2.entity, w2.marked));
    RunChildrenExtends(spec.home, ChildrenOf(spec, w2), mode, stops, w3);
    ExtendsOn(w.trace, w3.trace, RunChildren(spec.home, ChildrenOf(spec, w2), mode, stops, w3).1.trace);
  }

  // ---- what was said stays ----

  lemma RunChildKeeps<S>(home: Home<S>, child: Child<S>, mode: Mode, stops: bool, w: World<S>)
    ensures Keeps(w, RunChild(home, child, mode, stops, w).1)
  {
    ExecKeepsMessages(child.rules, ChildSeat(child, mode, stops, home), OnCopy(child, w));
  }

  lemma {:induction false} RunChildrenKeep<S>(
      home: Home<S>, children: seq<Child<S>>, mode: Mode, stops: bool, w: World<S>)
    ensures Keeps(w, RunChildren(home, children, mode, stops, w).1)
  {
    if children != [] {
      var before, child := children[..|children| - 1], children[|children| - 1];
      RunChildrenKeep(home, before, mode, stops, w);
      RunChildKeeps(home, child, mode, stops, RunChildren(home, before, mode, stops, w).1);
    }
  }

  lemma RulesKeep<S>(spec: Spec<S>, mode: Mode, stops: bool, w: World<S>)
    ensures Keeps(w, RunRules(spec, mode, stops, w).1)
  {
    ExecKeepsMessages(spec.rules, RootSeat(spec, mode, stops), Started(mode, w));
  }

  lemma AutomaticKeeps<S>(spec: Spec<S>, mode: Mode, stops: bool, w: World<S>)
    ensures Keeps(w, RunAutomatic(spec, mode, stops, Gated(spec, mode, w)).1)
  {
    var w2 := Gated(spec, mode, w);
    var w3 := Say(w2, spec.valueObjects(w2.entity, w2.marked));
    RunChildrenKeep(spec.home, ChildrenOf(spec, w2), mode, stops, w3);
    assert Keeps(w, w3);
  }

  /** No pass, stopped, crashed or completed, drops a message unless a body empties the
      context on the way. */
  lemma ValidateKeepsMessages<S>(spec: Spec<S>, mode: Mode, service: bool, stops: bool, w: World<S>)
    ensures Keeps(w, Validate(spec, mode, service, stops, w).1)
  {
    RulesKeep(spec, mode, stops, w);
    AutomaticKeeps(spec, mode, stops, RunRules(spec, mode, stops, w).1);
  }

  /** Nor a context, unless its rules validate the entity again. */
  lemma ValidateKeepsContexts<S>(spec: Spec<S>, mode: Mode, service: bool, stops: bool, w: World<S>)
    requires NeverNests(spec.rules)
    ensures w.attached <= Validate(spec, mode, service, stops, w).1.attached
  {
    ExecKeepsContexts(spec.rules, RootSeat(spec, mode, stops), Started(mode, w));
    var w2 := Gated(spec, mode, RunRules(spec, mode, stops, w).1);
    RunChildrenFrame(spec.home, ChildrenOf(spec, w2), mode, stops, Say(w2, spec.valueObjects(w2.entity, w2.marked)));
  }

  /** Every message behind the first `from` is inside the scope, or names no field. */
  ghost predicate InScope(ms: seq<Message>, from: nat, prefix: seq<PathSegment>) {
    forall k :: from <= k < |ms| ==> ms[k].path == [] || prefix <= ms[k].path
  }

  lemma {:induction false} ExecStaysInScope<S>(p: Rule<S>, seat: Seat<S>, w: World<S>, from: nat)
    requires OwnOnly(p) && InScope(w.messages, from, seat.prefix)
    ensures InScope(Exec(p, seat, w).1.messages, from, seat.prefix)
    decreases p
  {
    match p
    case Then(first, second) =>
      ExecStaysInScope(first, seat, w, from);
      ExecStaysInScope(second, seat, Exec(first, seat, w).1, from);
    case When(test, body, otherwise) =>
      ExecStaysInScope(body, seat, w, from);
      ExecStaysInScope(otherwise, seat, w, from);
    case InModes(modes, body) => ExecStaysInScope(body, seat, w, from);
    case _ =>
  }

  /** Everything a child adds behind what was there, rules and value objects alike, is
      reported under its own scope; and nothing else of what its rules do reaches the entity. */
  lemma ChildReportsInScope<S>(home: Home<S>, child: Child<S>, mode: Mode, stops: bool, w: World<S>)
    ensures var w' := RunChild(home, child, mode, stops, w).1;
            && InScope(w'.messages, |w.messages|, child.prefix)
            && SameFrame(w', w) && w'.entity == w.entity && w'.marked == w.marked
  {
    ExecStaysInScope(child.rules, ChildSeat(child, mode, stops, home), OnCopy(child, w), |w.messages|);
    RunChildFrame(home, child, mode, stops, w);
  }
}
