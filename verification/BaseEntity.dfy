/** The entity object itself (domain/entity_base.go): its fields written step by step
    through a pass and a seal, each method proved against the functions of Entity.dfy. */
module BaseEntities {
  import opened Options
  import opened Notifications
  import opened AggregateLaws
  import opened Rules
  import opened Validation
  import opened Entity

  class BaseEntity<S> {
    const spec: Spec<S>
    var entity: S
    var prior: Option<Prior<S>>
    var messages: seq<Message>
    var attached: seq<seq<Message>>
    var mode: Mode
    var requestedMode: Mode
    var rulesWindow: bool
    var root: Tracking
    ghost var trace: Trace

    /** The fields as a pass sees them, with the marks of the body that runs. */
    ghost function Here(marked: seq<string>): World<S>
      reads this
    {
      World(entity, prior, messages, attached, marked, requestedMode, mode, rulesWindow, root, trace)
    }

    ghost function St(): World<S>
      reads this
    {
      Here([])
    }

    constructor (spec: Spec<S>, entity: S, root: Tracking)
      ensures this.spec == spec && St() == Born(entity, root)
    {
      this.spec, this.entity, this.root, prior := spec, entity, root, None;
      messages, attached, mode, requestedMode, rulesWindow := [], [], Display, Unknown, false;
      trace := Start;
    }

    method CaptureOldIfAbsent(ghost marked: seq<string>)
      modifies this
      ensures Here(marked) == Capture(spec.home.clone, old(Here(marked)))
    {
      if prior.Some? { return; }
      var copy := spec.home.clone(entity);
      if copy.None? { return; }
      prior := Some(Prior(copy.value, root.aggregates));
    }

    method ResetEntity(ghost marked: seq<string>)
      modifies this
      ensures Here(marked) == Reset(old(Here(marked)))
    {
      attached := [];
      mode := Display;
    }

    method ClearMessages(ghost marked: seq<string>)
      modifies this
      ensures Here(marked) == Empty(old(Here(marked)))
    {
      messages := [];
      trace := After(trace, Cleared);
    }

    /** A call on the tracker, with what it notifies on the entity's own context. */
    method CallTracker(call: TrackCall, ghost marked: seq<string>)
      modifies this
      ensures Here(marked) == DoTrack(spec.home.declared, call, old(Here(marked)))
    {
      var r := ApplyRoot(root.(messages := []), spec.home.declared, call);
      root := r.(messages := []);
      messages := messages + AsMessages(r.messages);
      if r.messages != [] { trace := After(trace, Refusal); }
    }

    /** Asking for the archive; anywhere but in an open window in update mode it panics. */
    method CompleteArchive(ghost marked: seq<string>) returns (e: Ending)
      modifies this
      ensures (e, Here(marked)) == Exec(CompleteAsArchive, Seat(old(mode), [], true, spec.home), old(Here(marked)))
    {
      if !rulesWindow || mode != UpdateMode { return Crashed; }
      requestedMode := ArchiveMode;
      trace := After(trace, Asked);
      e := Done;
    }

    /** Runs a body line by line against the entity's own fields. */
    method Run(body: Rule<S>, seat: Seat<S>, marks: seq<string>) returns (e: Ending, marked: seq<string>)
      requires seat.home == spec.home
      modifies this
      ensures (e, Here(marked)) == Exec(body, seat, old(Here(marks)))
      decreases body, 1
    {
      e, marked := Done, marks;
      match body
      case Skip =>
      case Then(first, second) =>
        e, marked := Run(first, seat, marked);
        if e == Done { e, marked := Run(second, seat, marked); }
      case When(test, body, otherwise) =>
        if test(View(entity, prior, messages, root.aggregates)) {
          e, marked := Run(body, seat, marked);
        } else {
          e, marked := Run(otherwise, seat, marked);
        }
      case InModes(modes, body) =>
        if seat.mode in modes { e, marked := Run(body, seat, marked); }
      case Nested(_, _, _) => e := RunInner(body, seat, marked);
      case _ => e, marked := RunLine(body, seat, marked);
    }

    /** One line that holds no other body. */
    method RunLine(body: Rule<S>, seat: Seat<S>, marks: seq<string>) returns (e: Ending, marked: seq<string>)
      requires seat.home == spec.home
      requires !(body.Then? || body.When? || body.InModes? || body.Nested? || body.Skip?)
      modifies this
      ensures (e, Here(marked)) == Exec(body, seat, old(Here(marks)))
    {
      e, marked := Done, marks;
      match body
      case Emit(message) =>
        messages := messages + [Prefixed(seat.prefix, message(View(entity, prior, messages, root.aggregates)))];
      case StopIfInvalid =>
        if seat.stops && messages != [] { e := Stopped; }
      case Mutate(change) => entity := change(entity);
      case MarkValueObject(name) => marked := marked + [name];
      case AttachContext(context) => attached := attached + [context(View(entity, prior, messages, root.aggregates))];
      case Track(call) => CallTracker(call(View(entity, prior, messages, root.aggregates)), marked);
      case CompleteAsArchive => e := CompleteArchive(marked);
      case ClearContext => ClearMessages(marked);
      case CaptureOld => CaptureOldIfAbsent(marked);
      case Crash => e := Crashed;
    }

    /** A validation of this entity from inside one of its bodies. */
    method RunInner(body: Rule<S>, seat: Seat<S>, marks: seq<string>) returns (e: Ending)
      requires body.Nested? && seat.home == spec.home
      modifies this
      ensures (e, Here(marks)) == Exec(body, seat, old(Here(marks)))
      decreases body, 0
    {
      var inner := body.inner;
      EnterInner(inner, marks);
      var innerMode := InnerMode(inner);
      if innerMode == Unknown || innerMode == Display { return Done; }
      mode := innerMode;
      if !inner.served {
        messages := messages + [Note("service", "ServiceIsRequired")];
        return Done;
      }
      ghost var inside := Inside(inner, seat.home, old(Here(marks)));
      OpenWindow([]);
      assert Here([]) == inside;
      var marked;
      e, marked := Run(body.body, InnerSeat(inner, seat.home), []);
      e := CloseInner(inner, body.rest, e, marked, marks);
    }

    method EnterInner(inner: Inner, ghost marks: seq<string>)
      modifies this
      ensures Here(marks) == Enter(inner, spec.home.clone, old(Here(marks)))
    {
      if inner.Check? {
        ClearMessages(marks);
      } else if !inner.verb.Insertable? {
        CaptureOldIfAbsent(marks);
      }
      ResetEntity(marks);
    }

    method CloseInner(
        inner: Inner, rest: View<S> -> Rest, end: Ending, ghost marked: seq<string>, ghost marks: seq<string>)
      returns (e: Ending)
      modifies this
      ensures (e, Here(marks)) == Behind(inner, rest, (end, old(Here(marked))), marks)
    {
      CloseWindow(marked);
      e := LeaveInner(inner, rest, end, marks);
    }

    method OpenWindow(ghost marked: seq<string>)
      modifies this
      ensures Here(marked) == Open(old(Here(marked)))
    {
      rulesWindow := true;
      trace := After(trace, Opened);
    }

    method CloseWindow(ghost marked: seq<string>)
      modifies this
      ensures Here(marked) == Close(old(Here(marked)))
    {
      rulesWindow := false;
      trace := After(trace, Closed);
    }

    /** What follows an inner body whose window was just closed. */
    method LeaveInner(inner: Inner, rest: View<S> -> Rest, end: Ending, ghost marked: seq<string>) returns (e: Ending)
      modifies this
      ensures var w := old(Here(marked));
              (e, Here(marked)) == (match end
                                    case Crashed => (Crashed, w)
                                    case Stopped => (Done, Say(w, rest(ViewOf(w)).messages))
                                    case Done => Finish(inner, rest(ViewOf(w)), w))
    {
      if end == Crashed { return Crashed; }
      var found := rest(View(entity, prior, messages, root.aggregates));
      if end == Stopped {
        messages := messages + found.messages;
        return Done;
      }
      if !(messages <= found.messages) { trace := After(trace, Cleared); }
      messages := found.messages;
      if !found.PassPanics? && inner.Take? && inner.verb.Updatable? && IsClean() {
        var requested := TakeRequestedMode(marked);
      }
      e := if found.Leaves? then Done else Crashed;
    }

    method TakeRequestedMode(ghost marked: seq<string>) returns (requested: Mode)
      modifies this
      ensures requested == old(requestedMode) && Here(marked) == TakeRequest(old(Here(marked)))
    {
      requested := requestedMode;
      requestedMode := Unknown;
      trace := After(trace, Taken);
    }

    /** The rules window is open for this call and no longer, a panic included. */
    method BuildRulesInWindow() returns (e: Ending, marked: seq<string>)
      modifies this
      ensures var (e', w) := Exec(spec.rules, RootSeat(spec, old(mode), true), Open(old(St())));
              e == e' && Here(marked) == Close(w)
    {
      OpenWindow([]);
      e, marked := Run(spec.rules, Seat(mode, [], true, spec.home), []);
      CloseWindow(marked);
    }

    /** One child's rules, on a copy of the child and under its own scope; then the value
        objects of the child itself. */
    method ValidateChild(child: Child<S>, pass: Mode, ghost marked: seq<string>) returns (e: Ending)
      modifies this
      ensures (e, Here(marked)) == RunChild(spec.home, child, pass, true, old(Here(marked)))
    {
      var own := entity;
      entity := child.item;
      var marks;
      e, marks := Run(child.rules, Seat(pass, child.prefix, true, spec.home), []);
      entity := own;
      if e == Done {
        messages := messages + PrefixedAll(child.prefix, child.valueObjects(child.item, marks));
      }
    }

    method RunAggregateValidations(pass: Mode, ghost marked: seq<string>) returns (e: Ending)
      modifies this
      ensures (e, Here(marked)) ==
              RunChildren(spec.home, spec.children(old(entity), old(root).aggregates), pass, true, old(Here(marked)))
    {
      var children := spec.children(entity, root.aggregates);
      ghost var w0 := Here(marked);
      e := Done;
      for n := 0 to |children|
        invariant (e, Here(marked)) == RunChildren(spec.home, children[..n], pass, true, w0) && e == Done
      {
        ghost var w, m := Here(marked), n + 1;
        OneChildMore(spec.home, children, n, m, pass, w0, w);
        e := ValidateChild(children[n], pass, marked);
        if e != Done {
          // Halted, or unwound by a panic: the remaining children are not visited.
          HaltedEarly(spec.home, children, m, pass, w0, e, Here(marked));
          return;
        }
      }
      assert children[..|children|] == children;
    }

    /** The mode must be declared; an insert needs no id, everything else a UUID. */
    method CheckGates(pass: Mode, ghost marked: seq<string>)
      modifies this
      ensures Here(marked) == Gated(spec, pass, old(Here(marked)))
    {
      ghost var before := messages;
      if pass !in spec.modes(entity) { messages := messages + [ModeGate(pass)]; }
      CheckId(pass, marked);
      assert messages == before + (if pass in spec.modes(entity) then [] else [ModeGate(pass)])
                                + (if IdFits(spec, pass, entity) then [] else [IdGate(spec, pass, entity)]);
    }

    method CheckId(pass: Mode, ghost marked: seq<string>)
      modifies this
      ensures var gate := if IdFits(spec, pass, entity) then [] else [IdGate(spec, pass, entity)];
              Here(marked) == Say(old(Here(marked)), gate)
    {
      var id := spec.id(entity);
      if pass == InsertMode {
        if id.Some? { messages := messages + [Note("id", "UnableToInsertWithID")]; }
      } else if id.None? {
        var kind := if pass == UpdateMode then "UnableToUpdateWithoutID" else "UnableToDeleteWithoutID";
        messages := messages + [Note("id", kind)];
      } else if !spec.isUUID(id.value) {
        messages := messages + [Note("id", "InvalidIDUUID")];
      }
    }

    /** One pass: the service check, the rules in their window, the structural gates,
        and what the framework validates on its own unless the rules were stopped. */
    method ValidateFor(pass: Mode, service: bool) returns (e: Ending)
      modifies this
      ensures (e, St()) == Pass(spec, old(St()), pass, service)
    {
      mode := pass;
      if !service && spec.requiresService {
        messages := messages + [Note("service", "ServiceIsRequired")];
        return Done;
      }
      var marked;
      e, marked := BuildRulesInWindow();
      if e == Crashed { return; }
      CheckGates(pass, marked);
      if e == Stopped { return; }
      messages := messages + spec.valueObjects(entity, marked);
      e := RunAggregateValidations(pass, marked);
    }

    predicate IsClean()
      reads this
    {
      messages == [] && forall i :: 0 <= i < |attached| ==> attached[i] == []
    }

    method GetInsertable(service: bool) returns (r: Result)
      modifies this
      ensures (St(), r) == Get(spec, old(St()), Insertable, NoApply, service)
    {
      ResetEntity([]);
      var e := ValidateFor(InsertMode, service);
      if e == Crashed { return Panicked; }
      if !IsClean() { return Rejected(messages, attached); }
      r := Sealed(InsertMode, spec.id(entity), false);
    }

    /** The command's mutation, with no barrier of its own. */
    method RunMutation(apply: Apply<S>) returns (e: Ending)
      modifies this
      ensures (e, St()) == RunApply(spec, old(St()), apply)
    {
      if apply.NoApply? { return Done; }
      var marked;
      e, marked := Run(apply.body, Seat(mode, [], false, spec.home), []);
    }

    method GetUpdatable(apply: Apply<S>, partial: bool, service: bool) returns (r: Result)
      modifies this
      ensures (St(), r) == Get(spec, old(St()), Updatable(partial), apply, service)
    {
      CaptureOldIfAbsent([]);
      var e := RunMutation(apply);
      if e == Crashed { return Panicked; }
      if apply.Apply? && apply.fails(entity) { return ApplyFailed; }
      ResetEntity([]);
      e := ValidateFor(UpdateMode, service);
      r := SealUpdate(e, partial);
    }

    /** Take the request off the entity and fold it into what this write is. */
    method SealUpdate(e: Ending, partial: bool) returns (r: Result)
      modifies this
      ensures (St(), r) == Verdict(spec, (e, old(St())), Updatable(partial))
    {
      if e == Crashed { return Panicked; }
      if !IsClean() { return Rejected(messages, attached); }
      var requested := TakeRequestedMode([]);
      var entityMode := UpdateMode;
      if requested != Unknown {
        if requested !in spec.modes(entity) { return Panicked; }
        entityMode := requested;
      }
      if spec.id(entity).None? { return Panicked; }
      r := Sealed(entityMode, spec.id(entity), partial);
    }

    /** Delete, archive and unarchive: the same path under three modes. */
    method GetTransition(verb: Verb, service: bool) returns (r: Result)
      requires verb in {Deletable, Archivable, Unarchivable}
      modifies this
      ensures (St(), r) == Get(spec, old(St()), verb, NoApply, service)
    {
      CaptureOldIfAbsent([]);
      ResetEntity([]);
      var e := ValidateFor(ModeOf(verb), service);
      if e == Crashed { return Panicked; }
      if !IsClean() { return Rejected(messages, attached); }
      if spec.id(entity).None? { return Panicked; }
      r := Sealed(ModeOf(verb), spec.id(entity), false);
    }

    method CheckValid(asked: Mode, service: bool) returns (r: Result)
      modifies this
      ensures (St(), r) == IsValid(spec, old(St()), asked, service)
    {
      ClearMessages([]);
      ResetEntity([]);
      if asked == Unknown || asked == Display { return Checked(true); }
      var e := ValidateFor(asked, service);
      r := if e == Crashed then Panicked else Checked(IsClean());
    }
  }

  lemma OneChildMore<S>(home: Home<S>, children: seq<Child<S>>, n: nat, m: nat, mode: Mode, w0: World<S>, w: World<S>)
    requires n < |children| && m == n + 1
    requires RunChildren(home, children[..n], mode, true, w0) == (Done, w)
    ensures RunChildren(home, children[..m], mode, true, w0) == RunChild(home, children[n], mode, true, w)
  {
    var more := children[..m];
    assert more[..|more| - 1] == children[..n];
  }

  /** Once a child ends the walk, the rest of the children change nothing. */
  lemma {:induction false} HaltedEarly<S>(
      home: Home<S>, children: seq<Child<S>>, m: nat, mode: Mode, w0: World<S>, e: Ending, w: World<S>)
    requires m <= |children| && e != Done
    requires RunChildren(home, children[..m], mode, true, w0) == (e, w)
    ensures RunChildren(home, children, mode, true, w0) == (e, w)
  {
    if m == |children| {
      assert children[..m] == children;
    } else {
      var before := children[..|children| - 1];
      assert before[..m] == children[..m];
      HaltedEarly(home, before, m, mode, w0, e, w);
    }
  }
}
