/** A pass nested in a body does what the call from outside does (domain/entity_base.go:386-538):
    for every entity there is a framework's half with which the nested IsValid or Get* ends
    where the real one does. */
module NestedPasses {
  import opened Rules
  import opened Validation
  import opened Entity

  /** The same state, marks and trace aside. */
  ghost predicate SameState<S>(w: World<S>, v: World<S>) {
    w.(marked := [], trace := Start) == v.(marked := [], trace := Start)
  }

  /** The call from outside. */
  function Outside<S>(spec: Spec<S>, w: World<S>, inner: Inner, service: bool): (World<S>, Result) {
    match inner
    case Check(mode, _) => IsValid(spec, w, mode, service)
    case Take(verb, _) => Get(spec, w, verb, NoApply, service)
  }

  /** The nested call ends as the one from outside, and where it does. */
  ghost predicate EndsAlike<S>(end: (Ending, World<S>), outside: (World<S>, Result)) {
    && end.0 == (if outside.1 == Panicked then Crashed else Done)
    && SameState(end.1, outside.0)
  }

  /** What the call from outside makes of a pass. */
  function Judged<S>(spec: Spec<S>, inner: Inner, end: (Ending, World<S>)): (World<S>, Result) {
    match inner
    case Check(_, _) => (end.1, if end.0 == Crashed then Panicked else Checked(Clean(end.1)))
    case Take(verb, _) => Verdict(spec, end, verb)
  }

  lemma {:induction false} OutsideIsJudged<S>(spec: Spec<S>, w: World<S>, inner: Inner, service: bool)
    requires InnerMode(inner) != Unknown && InnerMode(inner) != Display
    ensures Outside(spec, w, inner, service) ==
            Judged(spec, inner, Pass(spec, Enter(inner, spec.home.clone, w), InnerMode(inner), service))
  {
  }

  /** The rules of both start alike. */
  lemma {:induction false} RulesStartAlike<S>(spec: Spec<S>, w: World<S>, inner: Inner)
    ensures Started(InnerMode(inner), Enter(inner, spec.home.clone, w)) == Inside(inner, spec.home, w)
    ensures RootSeat(spec, InnerMode(inner), true) == InnerSeat(inner, spec.home)
  {
  }

  /** Stopped rules: what is left to say are the gates. */
  lemma {:induction false} StoppedAlike<S>(spec: Spec<S>, inner: Inner, w: World<S>, marked: seq<string>)
    requires w.messages != []
    ensures var gates := Gates(spec, InnerMode(inner), w.entity);
            var outside := Judged(spec, inner, (Stopped, Gated(spec, InnerMode(inner), Close(w)).(marked := [])));
            EndsAlike(Behind(inner, (v: View<S>) => Leaves(gates), (Stopped, w), marked), outside)
  {
    assert !Clean(Gated(spec, InnerMode(inner), Close(w)));
  }

  /** Rules that panic take the pass with them. */
  lemma {:induction false} CrashedAlike<S>(
      spec: Spec<S>, inner: Inner, w: World<S>, rest: View<S> -> Rest, marked: seq<string>)
    ensures EndsAlike(Behind(inner, rest, (Crashed, w), marked),
                      Judged(spec, inner, (Crashed, Close(w).(marked := []))))
  {
  }

  /** What the framework's half leaves, given where it ends. */
  function Left<S>(spec: Spec<S>, inner: Inner, end: (Ending, World<S>)): Rest {
    var ms := end.1.messages;
    if end.0 == Crashed then PassPanics(ms)
    else if Judged(spec, inner, end).1 == Panicked then SealPanics(ms)
    else Leaves(ms)
  }

  lemma {:induction false} CompletedAlike<S>(
      spec: Spec<S>, inner: Inner, w: World<S>, end: (Ending, World<S>), rest: View<S> -> Rest, marked: seq<string>)
    requires SameState(end.1, Close(w).(messages := end.1.messages))
    requires forall v :: rest(v) == Left(spec, inner, end)
    ensures EndsAlike(Behind(inner, rest, (Done, w), marked), Judged(spec, inner, (end.0, end.1.(marked := []))))
  {
    var closed := Close(w).(marked := marked);
    var left := Leave(closed, end.1.messages);
    assert SameState(left, end.1);
    assert Clean(left) == Clean(end.1);
  }

  /** A pass that does not reach the rules. */
  lemma {:induction false} SkippedAlike<S>(spec: Spec<S>, w: World<S>, inner: Inner, service: bool)
    requires inner.served == Served(spec, service) && !RunsRules(inner)
    ensures EndsAlike((Done, RulesSkipped(inner, spec.home, w)), Outside(spec, w, inner, service))
  {
    if InnerMode(inner) != Unknown && InnerMode(inner) != Display {
      OutsideIsJudged(spec, w, inner, service);
      var said := RulesSkipped(inner, spec.home, w);
      assert said.messages[|said.messages| - 1] == Note("service", "ServiceIsRequired");
    }
  }

  lemma {:induction false} AutomaticFrame<S>(spec: Spec<S>, mode: Mode, w: World<S>)
    ensures var w' := RunAutomatic(spec, mode, true, Gated(spec, mode, w)).1;
            SameState(w', w.(messages := w'.messages))
  {
    var w2 := Gated(spec, mode, w);
    RunChildrenFrame(spec.home, ChildrenOf(spec, w2), mode, true, Say(w2, spec.valueObjects(w2.entity, w2.marked)));
  }

  /** The pass from outside, given where its rules end. */
  function PassBehind<S>(spec: Spec<S>, mode: Mode, end: (Ending, World<S>)): (Ending, World<S>) {
    var w := Close(end.1);
    match end.0
    case Crashed => (Crashed, w)
    case Stopped => (Stopped, Gated(spec, mode, w))
    case Done => RunAutomatic(spec, mode, true, Gated(spec, mode, w))
  }

  lemma {:induction false} OutsideRuns<S>(spec: Spec<S>, w: World<S>, inner: Inner, service: bool)
    requires inner.served == Served(spec, service) && RunsRules(inner)
    ensures var end := Exec(spec.rules, InnerSeat(inner, spec.home), Inside(inner, spec.home, w));
            var (e, w') := PassBehind(spec, InnerMode(inner), end);
            Outside(spec, w, inner, service) == Judged(spec, inner, (e, w'.(marked := [])))
  {
    OutsideIsJudged(spec, w, inner, service);
    RulesStartAlike(spec, w, inner);
  }

  lemma {:induction false} NestedRuns<S>(spec: Spec<S>, seat: Seat<S>, w: World<S>, inner: Inner, service: bool)
    returns (rest: View<S> -> Rest)
    requires seat.home == spec.home && inner.served == Served(spec, service) && RunsRules(inner)
    ensures EndsAlike(Exec(Nested(inner, spec.rules, rest), seat, w), Outside(spec, w, inner, service))
  {
    var end := Exec(spec.rules, InnerSeat(inner, spec.home), Inside(inner, spec.home, w));
    OutsideRuns(spec, w, inner, service);
    StopsOverMessages(spec.rules, InnerSeat(inner, spec.home), Inside(inner, spec.home, w));
    rest := BehindAlike(spec, inner, end, w.marked);
    NestedIsBehind(Nested(inner, spec.rules, rest), seat, w, end);
  }

  lemma {:induction false} NestedIsBehind<S>(p: Rule<S>, seat: Seat<S>, w: World<S>, end: (Ending, World<S>))
    requires p.Nested? && RunsRules(p.inner)
    requires end == Exec(p.body, InnerSeat(p.inner, seat.home), Inside(p.inner, seat.home, w))
    ensures Exec(p, seat, w) == Behind(p.inner, p.rest, end, w.marked)
  {
  }

  lemma {:induction false} StopsOverMessages<S>(p: Rule<S>, seat: Seat<S>, w: World<S>)
    ensures Exec(p, seat, w).0 == Stopped ==> Exec(p, seat, w).1.messages != []
  {
    ExecKeeps(p, seat, w);
  }

  lemma {:induction false} BehindAlike<S>(spec: Spec<S>, inner: Inner, end: (Ending, World<S>), marked: seq<string>)
    returns (rest: View<S> -> Rest)
    requires end.0 == Stopped ==> end.1.messages != []
    ensures var (e, w') := PassBehind(spec, InnerMode(inner), end);
            EndsAlike(Behind(inner, rest, end, marked), Judged(spec, inner, (e, w'.(marked := []))))
  {
    var w := end.1;
    match end.0
    case Crashed =>
      rest := (v: View<S>) => Leaves([]);
      CrashedAlike(spec, inner, w, rest, marked);
    case Stopped =>
      var gates := Gates(spec, InnerMode(inner), w.entity);
      rest := (v: View<S>) => Leaves(gates);
      StoppedAlike(spec, inner, w, marked);
    case Done =>
      var done := RunAutomatic(spec, InnerMode(inner), true, Gated(spec, InnerMode(inner), Close(w)));
      var left := Left(spec, inner, done);
      rest := (v: View<S>) => left;
      AutomaticFrame(spec, InnerMode(inner), Close(w));
      CompletedAlike(spec, inner, w, done, rest, marked);
  }

  /** For every entity, in every state and for every call: with its own rules as the body and
      some framework's half, the nested call ends as the call from outside does, in the same
      state. */
  lemma {:induction false} NestedIsOutside<S>(spec: Spec<S>, seat: Seat<S>, w: World<S>, inner: Inner, service: bool)
    returns (rest: View<S> -> Rest)
    requires seat.home == spec.home && inner.served == Served(spec, service)
    ensures EndsAlike(Exec(Nested(inner, spec.rules, rest), seat, w), Outside(spec, w, inner, service))
  {
    rest := (v: View<S>) => Leaves([]);
    if !RunsRules(inner) {
      SkippedAlike(spec, w, inner, service);
    } else {
      rest := NestedRuns(spec, seat, w, inner, service);
    }
  }
}
