/** Emptying the context behind the barrier (domain/rules.go:221-257,
    domain/notification.go:332-335): which texts can, exactly. The report of a pass that
    cannot is only shortened by its stops. */
module Losses {
  import opened Options
  import opened Notifications
  import opened Rules
  import opened RuleTexts
  import opened Validation
  import opened Barrier

  predicate Clears<S>(w: World<S>, v: World<S>) {
    Count(v.trace, Cleared) > Count(w.trace, Cleared)
  }

  // ---- bodies ----

  predicate FiredBy<S>(p: Rule<S>, seat: Seat<S>, w: World<S>, fired: bool) {
    fired || (!seat.stops && Fires(p, seat, w))
  }

  /** The body empties the context when a stop fired already. */
  predicate Loses<S>(p: Rule<S>, seat: Seat<S>, w: World<S>, fired: bool)
    decreases p
  {
    match p
    case Then(first, second) =>
      Loses(first, seat, w, fired) ||
      var (e, w1) := Exec(first, seat, w);
      e == Done && Loses(second, seat, w1, FiredBy(first, seat, w, fired))
    case When(test, body, otherwise) =>
      if test(ViewOf(w)) then Loses(body, seat, w, fired) else Loses(otherwise, seat, w, fired)
    case InModes(modes, body) => seat.mode in modes && Loses(body, seat, w, fired)
    case _ => fired && Clears(w, Exec(p, seat, w).1)
  }

  /** Read off the text: from `b` it can. */
  ghost predicate MayLose<S>(p: Rule<S>, mode: Mode, stops: bool, b: Bits)
    decreases p, 0
  {
    match p
    case Then(first, second) =>
      || MayLose(first, mode, stops, b)
      || exists b1 :: May(first, mode, stops, b, Done, b1) && MayLose(second, mode, stops, b1)
    case When(_, body, otherwise) => MayLose(body, mode, stops, b) || MayLose(otherwise, mode, stops, b)
    case InModes(modes, body) => mode in modes && MayLose(body, mode, stops, b)
    case ClearContext => b.fired
    case Nested(inner, body, _) =>
      b.fired && (inner.Check? || (RunsRules(inner) && MayLoseInside(body, InnerMode(inner), InsideBits(inner, b))))
    case _ => false
  }

  /** An inner pass does so in its body, or when a completed one leaves less than it held. */
  ghost predicate MayLoseInside<S>(body: Rule<S>, mode: Mode, b: Bits)
    decreases body, 1
  {
    MayLose(body, mode, true, b) || exists b1 :: May(body, mode, true, b, Done, b1) && b1.held
  }

  lemma {:induction false} LosesOnceFired<S>(p: Rule<S>, seat: Seat<S>, w: World<S>)
    ensures Loses(p, seat, w, true) <==> Clears(w, Exec(p, seat, w).1)
    decreases p
  {
    match p
    case Then(first, second) =>
      var w1 := Exec(first, seat, w).1;
      LosesOnceFired(first, seat, w);
      LosesOnceFired(second, seat, w1);
      ExecKeepsMessages(first, seat, w);
      ExecKeepsMessages(second, seat, w1);
    case When(test, body, otherwise) =>
      LosesOnceFired(body, seat, w);
      LosesOnceFired(otherwise, seat, w);
    case InModes(modes, body) => LosesOnceFired(body, seat, w);
    case _ =>
  }

  /** Run on past its stops, a body loses exactly if it empties the context more often. */
  lemma {:induction false} LosesBehindStop<S>(p: Rule<S>, seat: Seat<S>, w: World<S>)
    requires seat.stops
    ensures Loses(p, Unstopped(seat), w, false) <==> Clears(Exec(p, seat, w).1, Exec(p, Unstopped(seat), w).1)
    decreases p, 1
  {
    match p
    case Then(_, _) => ThenLosesBehindStop(p, seat, w);
    case When(test, body, otherwise) =>
      LosesBehindStop(body, seat, w);
      LosesBehindStop(otherwise, seat, w);
    case InModes(modes, body) => LosesBehindStop(body, seat, w);
    case _ => StopsIffFires(p, seat, w);
  }

  lemma {:induction false} ThenLosesBehindStop<S>(p: Rule<S>, seat: Seat<S>, w: World<S>)
    requires p.Then? && seat.stops
    ensures Loses(p, Unstopped(seat), w, false) <==> Clears(Exec(p, seat, w).1, Exec(p, Unstopped(seat), w).1)
    decreases p, 0
  {
    var (e, w1) := Exec(p.first, seat, w);
    var w0 := Exec(p.first, Unstopped(seat), w).1;
    StopsIffFires(p.first, seat, w);
    LosesBehindStop(p.first, seat, w);
    StopSawAPrefix(p.first, seat, w);
    if e == Done {
      LosesBehindStop(p.second, seat, w1);
    } else {
      LosesOnceFired(p.second, Unstopped(seat), w0);
      ExecKeepsMessages(p.second, Unstopped(seat), w0);
    }
  }

  // ---- every loss is read ----

  lemma {:induction false} LossIsRead<S>(p: Rule<S>, seat: Seat<S>, w: World<S>, fired: bool)
    requires Loses(p, seat, w, fired)
    ensures MayLose(p, seat.mode, seat.stops, BitsOf(w, fired))
    decreases p, 1
  {
    match p
    case Then(first, second) =>
      if Loses(first, seat, w, fired) {
        LossIsRead(first, seat, w, fired);
      } else {
        RunIsRead(first, seat, w, fired);
        LossIsRead(second, seat, Exec(first, seat, w).1, FiredBy(first, seat, w, fired));
      }
    case When(test, body, otherwise) =>
      if test(ViewOf(w)) { LossIsRead(body, seat, w, fired); } else { LossIsRead(otherwise, seat, w, fired); }
    case InModes(modes, body) => LossIsRead(body, seat, w, fired);
    case Nested(_, _, _) => NestedLossIsRead(p, seat, w);
    case _ => LineClears(p, seat, w);
  }

  lemma LineClears<S>(p: Rule<S>, seat: Seat<S>, w: World<S>)
    requires IsLine(p)
    ensures Clears(w, ExecLine(p, seat, w).1) <==> p.ClearContext?
  {
  }

  lemma {:induction false} NestedLossIsRead<S>(p: Rule<S>, seat: Seat<S>, w: World<S>)
    requires p.Nested? && Clears(w, Exec(p, seat, w).1)
    ensures MayLose(p, seat.mode, seat.stops, BitsOf(w, true))
    decreases p, 0
  {
    if p.inner.Take? {
      var innerSeat, inside := InnerSeat(p.inner, seat.home), Inside(p.inner, seat.home, w);
      var end := Exec(p.body, innerSeat, inside);
      TakeClears(p.inner, p.rest, seat.home, w, end);
      assert BitsOf(inside, true) == InsideBits(p.inner, BitsOf(w, true));
      if Clears(inside, end.1) {
        LosesOnceFired(p.body, innerSeat, inside);
        LossIsRead(p.body, innerSeat, inside, true);
      } else {
        RunIsRead(p.body, innerSeat, inside, true);
      }
    }
  }

  lemma TakeClears<S>(inner: Inner, rest: View<S> -> Rest, home: Home<S>, w: World<S>, end: (Ending, World<S>))
    requires inner.Take? && Clears(w, Around(inner, rest, home, w, end).1)
    ensures RunsRules(inner) && (Clears(Inside(inner, home, w), end.1) || (end.0 == Done && end.1.messages != []))
  {
    TakeKeepsContext(inner, home, w);
    BehindClears(inner, rest, end, w.marked);
  }

  lemma TakeKeepsContext<S>(inner: Inner, home: Home<S>, w: World<S>)
    requires inner.Take?
    ensures Count(Inside(inner, home, w).trace, Cleared) == Count(w.trace, Cleared)
    ensures Count(RulesSkipped(inner, home, w).trace, Cleared) == Count(w.trace, Cleared)
  {
  }

  lemma BehindClears<S>(inner: Inner, rest: View<S> -> Rest, end: (Ending, World<S>), marked: seq<string>)
    ensures Clears(end.1, Behind(inner, rest, end, marked).1) ==> end.0 == Done && end.1.messages != []
  {
    var w := Close(end.1).(marked := marked);
    assert Count(w.trace, Cleared) == Count(end.1.trace, Cleared);
  }

  // ---- every reading is run ----

  /** Whatever the text can lose, some body of the same text loses from this very state. */
  lemma {:induction false} LossIsRun<S>(p: Rule<S>, seat: Seat<S>, w: World<S>, fired: bool) returns (q: Rule<S>)
    requires Blank(w) && MayLose(p, seat.mode, seat.stops, BitsOf(w, fired))
    ensures SameText(p, q) && Loses(q, seat, w, fired)
    decreases p, 1
  {
    if p.Then? {
      q := ThenLossIsRun(p, seat, w, fired);
    } else if p.When? {
      q := WhenLossIsRun(p, seat, w, fired);
    } else if p.InModes? {
      var body := LossIsRun(p.body, seat, w, fired);
      q := InModes(p.modes, body);
    } else if p.Nested? {
      q := NestedLossIsRun(p, seat, w);
    } else {
      q := p;
      LineClears(p, seat, w);
    }
  }

  lemma {:induction false} ThenLossIsRun<S>(p: Rule<S>, seat: Seat<S>, w: World<S>, fired: bool) returns (q: Rule<S>)
    requires p.Then? && Blank(w) && MayLose(p, seat.mode, seat.stops, BitsOf(w, fired))
    ensures SameText(p, q) && Loses(q, seat, w, fired)
    decreases p, 0
  {
    if MayLose(p.first, seat.mode, seat.stops, BitsOf(w, fired)) {
      var first := LossIsRun(p.first, seat, w, fired);
      q := Then(first, p.second);
      SameTextAsItself(p.second);
    } else {
      var b := BitsOf(w, fired);
      var b1 :| May(p.first, seat.mode, seat.stops, b, Done, b1) && MayLose(p.second, seat.mode, seat.stops, b1);
      var first := ReadingIsRun(p.first, seat, w, fired, Done, b1);
      var second := LossIsRun(p.second, seat, Exec(first, seat, w).1, b1.fired);
      q := Then(first, second);
    }
  }

  lemma {:induction false} WhenLossIsRun<S>(p: Rule<S>, seat: Seat<S>, w: World<S>, fired: bool) returns (q: Rule<S>)
    requires p.When? && Blank(w) && MayLose(p, seat.mode, seat.stops, BitsOf(w, fired))
    ensures SameText(p, q) && Loses(q, seat, w, fired)
    decreases p, 0
  {
    SameTextAsItself(p.body);
    SameTextAsItself(p.otherwise);
    if MayLose(p.body, seat.mode, seat.stops, BitsOf(w, fired)) {
      var body := LossIsRun(p.body, seat, w, fired);
      q := When(v => true, body, p.otherwise);
    } else {
      var otherwise := LossIsRun(p.otherwise, seat, w, fired);
      q := When(v => false, p.body, otherwise);
    }
  }

  lemma {:induction false} NestedLossIsRun<S>(p: Rule<S>, seat: Seat<S>, w: World<S>) returns (q: Rule<S>)
    requires p.Nested? && Blank(w) && MayLose(p, seat.mode, seat.stops, BitsOf(w, true))
    ensures SameText(p, q) && q.Nested? && Clears(w, Exec(q, seat, w).1)
    decreases p, 0
  {
    var innerSeat, inside := InnerSeat(p.inner, seat.home), Inside(p.inner, seat.home, w);
    var b := InsideBits(p.inner, BitsOf(w, true));
    assert BitsOf(inside, true) == b;
    q := p;
    SameTextAsItself(p);
    if p.inner.Check? {
      CheckClears(p, seat, w);
    } else if MayLose(p.body, InnerMode(p.inner), true, b) {
      var body := LossIsRun(p.body, innerSeat, inside, true);
      LosesOnceFired(body, innerSeat, inside);
      q := Nested(p.inner, body, p.rest);
      BodyClears(q, seat, w);
    } else {
      var b1 :| May(p.body, InnerMode(p.inner), true, b, Done, b1) && b1.held;
      var body := ReadingIsRun(p.body, innerSeat, inside, true, Done, b1);
      q := Nested(p.inner, body, v => Leaves([]));
      RestClears(q, seat, w);
    }
  }

  lemma CheckClears<S>(q: Rule<S>, seat: Seat<S>, w: World<S>)
    requires q.Nested? && q.inner.Check?
    ensures Clears(w, Exec(q, seat, w).1)
  {
    var innerSeat, inside := InnerSeat(q.inner, seat.home), Inside(q.inner, seat.home, w);
    assert Clears(w, Enter(q.inner, seat.home.clone, w));
    ExecKeepsMessages(q.body, innerSeat, inside);
    BehindKeeps(q.inner, q.rest, Exec(q.body, innerSeat, inside), w.marked);
  }

  lemma BodyClears<S>(q: Rule<S>, seat: Seat<S>, w: World<S>)
    requires q.Nested? && RunsRules(q.inner)
    requires var inside := Inside(q.inner, seat.home, w);
             Clears(inside, Exec(q.body, InnerSeat(q.inner, seat.home), inside).1)
    ensures Clears(w, Exec(q, seat, w).1)
  {
    InsideKeeps(q.inner, seat.home, w);
    var inside := Inside(q.inner, seat.home, w);
    BehindKeeps(q.inner, q.rest, Exec(q.body, InnerSeat(q.inner, seat.home), inside), w.marked);
  }

  lemma RestClears<S>(q: Rule<S>, seat: Seat<S>, w: World<S>)
    requires q.Nested? && RunsRules(q.inner) && forall v :: q.rest(v) == Leaves([])
    requires var end := Exec(q.body, InnerSeat(q.inner, seat.home), Inside(q.inner, seat.home, w));
             end.0 == Done && end.1.messages != []
    ensures Clears(w, Exec(q, seat, w).1)
  {
    var inside := Inside(q.inner, seat.home, w);
    InsideKeeps(q.inner, seat.home, w);
    ExecKeepsMessages(q.body, InnerSeat(q.inner, seat.home), inside);
    LeaveNothing(q.inner, q.rest, Exec(q.body, InnerSeat(q.inner, seat.home), inside), w.marked);
  }

  lemma LeaveNothing<S>(inner: Inner, rest: View<S> -> Rest, end: (Ending, World<S>), marked: seq<string>)
    requires end.0 == Done && end.1.messages != [] && forall v :: rest(v) == Leaves([])
    ensures Clears(end.1, Behind(inner, rest, end, marked).1)
  {
    var w := Close(end.1).(marked := marked);
    assert Count(w.trace, Cleared) == Count(end.1.trace, Cleared) && !(w.messages <= []);
  }

  // ---- children ----

  predicate ChildLoses<S>(home: Home<S>, child: Child<S>, mode: Mode, w: World<S>, fired: bool) {
    Loses(child.rules, ChildSeat(child, mode, false, home), OnCopy(child, w), fired)
  }

  /** One of the children, run with stops ignored, empties the context when a stop fired already. */
  predicate ChildrenLose<S>(home: Home<S>, children: seq<Child<S>>, mode: Mode, w: World<S>, fired: bool) {
    children != [] &&
    var before, child := children[..|children| - 1], children[|children| - 1];
    ChildrenLose(home, before, mode, w, fired) ||
    var (e, w1) := RunChildren(home, before, mode, false, w);
    e == Done && ChildLoses(home, child, mode, w1, fired || ChildrenFire(home, before, mode, w))
  }

  ghost predicate MayLoseAll<S>(children: seq<Child<S>>, mode: Mode, b: Bits) {
    children != [] &&
    var before, child := children[..|children| - 1], children[|children| - 1];
    MayLoseAll(before, mode, b) || exists b1 :: MayAll(before, mode, b, b1) && MayLose(child.rules, mode, false, b1)
  }

  lemma ChildLosesOnceFired<S>(home: Home<S>, child: Child<S>, mode: Mode, w: World<S>)
    ensures ChildLoses(home, child, mode, w, true) <==> Clears(w, RunChild(home, child, mode, false, w).1)
  {
    LosesOnceFired(child.rules, ChildSeat(child, mode, false, home), OnCopy(child, w));
  }

  lemma {:induction false} ChildrenLoseOnceFired<S>(home: Home<S>, children: seq<Child<S>>, mode: Mode, w: World<S>)
    ensures ChildrenLose(home, children, mode, w, true) <==> Clears(w, RunChildren(home, children, mode, false, w).1)
  {
    if children != [] {
      var before, child := children[..|children| - 1], children[|children| - 1];
      var w1 := RunChildren(home, before, mode, false, w).1;
      ChildrenLoseOnceFired(home, before, mode, w);
      ChildLosesOnceFired(home, child, mode, w1);
      RunChildrenKeep(home, before, mode, false, w);
      RunChildKeeps(home, child, mode, false, w1);
    }
  }

  lemma ChildLosesBehindStop<S>(home: Home<S>, child: Child<S>, mode: Mode, w: World<S>)
    ensures var with, without := RunChild(home, child, mode, true, w), RunChild(home, child, mode, false, w);
            ChildLoses(home, child, mode, w, false) <==> Clears(with.1, without.1)
  {
    var seat := ChildSeat(child, mode, true, home);
    assert Unstopped(seat) == ChildSeat(child, mode, false, home);
    LosesBehindStop(child.rules, seat, OnCopy(child, w));
  }

  lemma {:induction false} ChildrenLoseBehindStop<S>(home: Home<S>, children: seq<Child<S>>, mode: Mode, w: World<S>)
    ensures ChildrenLose(home, children, mode, w, false) <==>
            Clears(RunChildren(home, children, mode, true, w).1, RunChildren(home, children, mode, false, w).1)
  {
    if children != [] {
      var before, child := children[..|children| - 1], children[|children| - 1];
      var (e, w1) := RunChildren(home, before, mode, true, w);
      var w0 := RunChildren(home, before, mode, false, w).1;
      ChildrenLoseBehindStop(home, before, mode, w);
      ChildrenStopIffFire(home, before, mode, w);
      ChildrenStopSawAPrefix(home, before, mode, w);
      if e == Done {
        ChildLosesBehindStop(home, child, mode, w1);
      } else {
        ChildLosesOnceFired(home, child, mode, w0);
        RunChildKeeps(home, child, mode, false, w0);
      }
    }
  }

  lemma {:induction false} ChildLossesAreRead<S>(
      home: Home<S>, children: seq<Child<S>>, mode: Mode, w: World<S>, fired: bool)
    requires ChildrenLose(home, children, mode, w, fired)
    ensures MayLoseAll(children, mode, BitsOf(w, fired))
  {
    var before, child := children[..|children| - 1], children[|children| - 1];
    if ChildrenLose(home, before, mode, w, fired) {
      ChildLossesAreRead(home, before, mode, w, fired);
    } else {
      var w1, fired1 := RunChildren(home, before, mode, false, w).1, fired || ChildrenFire(home, before, mode, w);
      ChildrenAreRead(home, before, mode, w, fired);
      LossIsRead(child.rules, ChildSeat(child, mode, false, home), OnCopy(child, w1), fired1);
      assert BitsOf(OnCopy(child, w1), fired1) == BitsOf(w1, fired1);
    }
  }

  lemma {:induction false} ChildLossesAreRun<S>(
      home: Home<S>, children: seq<Child<S>>, mode: Mode, w: World<S>, fired: bool)
    returns (others: seq<Child<S>>)
    requires Blank(w) && MayLoseAll(children, mode, BitsOf(w, fired))
    ensures SameTexts(children, others) && ChildrenLose(home, others, mode, w, fired)
  {
    var before, child := children[..|children| - 1], children[|children| - 1];
    assert before + [child] == children;
    if MayLoseAll(before, mode, BitsOf(w, fired)) {
      var front := ChildLossesAreRun(home, before, mode, w, fired);
      SameTextAsItself(child.rules);
      others := LossSnoc(home, before, front, child, child, mode, w, fired);
    } else {
      var b1 :| MayAll(before, mode, BitsOf(w, fired), b1) && MayLose(child.rules, mode, false, b1);
      var front := ChildReadingsAreRun(home, before, mode, w, fired, b1);
      var last := ChildLossIsRun(home, child, mode, RunChildren(home, front, mode, false, w).1, b1.fired);
      others := LossSnoc(home, before, front, child, last, mode, w, fired);
    }
  }

  lemma {:induction false} LossSnoc<S>(
      home: Home<S>, before: seq<Child<S>>, front: seq<Child<S>>, child: Child<S>, last: Child<S>,
      mode: Mode, w: World<S>, fired: bool)
    returns (others: seq<Child<S>>)
    requires SameTexts(before, front) && SameText(child.rules, last.rules)
    requires var (e, w1) := RunChildren(home, front, mode, false, w);
             || ChildrenLose(home, front, mode, w, fired)
             || (e == Done && ChildLoses(home, last, mode, w1, fired || ChildrenFire(home, front, mode, w)))
    ensures SameTexts(before + [child], others) && ChildrenLose(home, others, mode, w, fired)
  {
    others := front + [last];
    SameTextsSnoc(before, front, child, last);
    assert others[..|others| - 1] == front;
  }

  lemma {:induction false} ChildLossIsRun<S>(home: Home<S>, child: Child<S>, mode: Mode, w: World<S>, fired: bool)
    returns (other: Child<S>)
    requires Blank(w) && MayLose(child.rules, mode, false, BitsOf(w, fired))
    ensures SameText(child.rules, other.rules) && ChildLoses(home, other, mode, w, fired)
  {
    var q := LossIsRun(child.rules, ChildSeat(child, mode, false, home), OnCopy(child, w), fired);
    SameTextOwn(child.rules, q);
    other := child.(rules := q);
    assert ChildSeat(other, mode, false, home) == ChildSeat(child, mode, false, home);
  }

  // ---- the pass ----

  /** Read off the texts of an entity's rules and its children's: a pass of this mode can empty
      the context behind a stop. */
  ghost predicate MayLosePass<S>(p: Rule<S>, children: seq<Child<S>>, mode: Mode, held: bool) {
    || MayLose(p, mode, false, StartBits(mode, held))
    || exists b1, b2 ::
         && May(p, mode, false, StartBits(mode, held), Done, b1)
         && MayRaise(Shut(b1), b2)
         && MayLoseAll(children, mode, b2)
  }

  predicate RootLoses<S>(spec: Spec<S>, mode: Mode, w: World<S>) {
    Loses(spec.rules, RootSeat(spec, mode, false), Started(mode, w), false)
  }

  predicate RootFires<S>(spec: Spec<S>, mode: Mode, w: World<S>) {
    Fires(spec.rules, RootSeat(spec, mode, false), Started(mode, w))
  }

  /** Where the children start in a pass whose rules, stops ignored, completed. */
  function Before<S>(spec: Spec<S>, mode: Mode, w: World<S>): World<S> {
    var w2 := Gated(spec, mode, RunRules(spec, mode, false, w).1);
    Say(w2, spec.valueObjects(w2.entity, w2.marked))
  }

  function KidsOf<S>(spec: Spec<S>, mode: Mode, w: World<S>): seq<Child<S>> {
    ChildrenOf(spec, Gated(spec, mode, RunRules(spec, mode, false, w).1))
  }

  /** Run with stops ignored, the pass empties the context when a stop fired already. */
  predicate PassLoses<S>(spec: Spec<S>, mode: Mode, w: World<S>) {
    || RootLoses(spec, mode, w)
    || (&& RunRules(spec, mode, false, w).0 == Done
        && ChildrenLose(spec.home, KidsOf(spec, mode, w), mode, Before(spec, mode, w), RootFires(spec, mode, w)))
  }

  /** The rules of the pass with its stops and without. */
  lemma RulesBehindStop<S>(spec: Spec<S>, mode: Mode, w: World<S>)
    ensures var with, without := RunRules(spec, mode, true, w), RunRules(spec, mode, false, w);
            && (RootLoses(spec, mode, w) <==> Clears(with.1, without.1)) && Keeps(with.1, without.1)
            && (with.0 == Stopped <==> RootFires(spec, mode, w)) && (with.0 != Stopped ==> with == without)
            && without.0 != Stopped
  {
    var seat, start := RootSeat(spec, mode, true), Started(mode, w);
    assert Unstopped(seat) == RootSeat(spec, mode, false);
    StopsIffFires(spec.rules, seat, start);
    LosesBehindStop(spec.rules, seat, start);
    StopSawAPrefix(spec.rules, seat, start);
  }

  lemma FiredLoses<S>(spec: Spec<S>, mode: Mode, w: World<S>)
    requires RootFires(spec, mode, w)
    ensures NothingLost(spec, mode, true, w) <==> !PassLoses(spec, mode, w)
  {
    RulesBehindStop(spec, mode, w);
    var kids, w3 := KidsOf(spec, mode, w), Before(spec, mode, w);
    ChildrenLoseOnceFired(spec.home, kids, mode, w3);
    RunChildrenKeep(spec.home, kids, mode, false, w3);
  }

  lemma UnfiredLoses<S>(spec: Spec<S>, mode: Mode, w: World<S>)
    requires !RootFires(spec, mode, w)
    ensures NothingLost(spec, mode, true, w) <==> !PassLoses(spec, mode, w)
  {
    RulesBehindStop(spec, mode, w);
    ChildrenLoseBehindStop(spec.home, KidsOf(spec, mode, w), mode, Before(spec, mode, w));
    ChildrenStopSawAPrefix(spec.home, KidsOf(spec, mode, w), mode, Before(spec, mode, w));
  }

  /** Exactly these passes lose. */
  lemma LosesIff<S>(spec: Spec<S>, mode: Mode, service: bool, w: World<S>)
    ensures NothingLost(spec, mode, service, w) <==> !(Served(spec, service) && PassLoses(spec, mode, w))
  {
    if Served(spec, service) {
      assert Validate(spec, mode, service, true, w) == Validate(spec, mode, true, true, w);
      assert Validate(spec, mode, service, false, w) == Validate(spec, mode, true, false, w);
      if RootFires(spec, mode, w) { FiredLoses(spec, mode, w); } else { UnfiredLoses(spec, mode, w); }
    }
  }

  /** A pass that loses is read off the texts. */
  lemma PassLossIsRead<S>(spec: Spec<S>, mode: Mode, w: World<S>)
    requires PassLoses(spec, mode, w)
    ensures exists s, c :: MayLosePass(spec.rules, spec.children(s, c), mode, w.messages != [])
  {
    var seat, start := RootSeat(spec, mode, false), Started(mode, w);
    var w2 := Gated(spec, mode, RunRules(spec, mode, false, w).1);
    assert BitsOf(start, false) == StartBits(mode, w.messages != []);
    if RootLoses(spec, mode, w) {
      LossIsRead(spec.rules, seat, start, false);
    } else {
      RunIsRead(spec.rules, seat, start, false);
      ChildLossesAreRead(spec.home, KidsOf(spec, mode, w), mode, Before(spec, mode, w), RootFires(spec, mode, w));
      var fired := RootFires(spec, mode, w);
      var b1, b2 := BitsOf(Exec(spec.rules, seat, start).1, fired), BitsOf(Before(spec, mode, w), fired);
      assert MayRaise(Shut(b1), b2);
    }
    assert MayLosePass(spec.rules, spec.children(w2.entity, w2.root.aggregates), mode, w.messages != []);
  }

  /** For every entity whose texts cannot lose, whatever its rules test and say: nothing is
      lost, and so its stopped passes only shorten the report but for their gates. */
  lemma NothingLostByText<S(!new)>(spec: Spec<S>, mode: Mode, service: bool, w: World<S>)
    requires forall s, c :: !MayLosePass(spec.rules, spec.children(s, c), mode, w.messages != [])
    ensures NothingLost(spec, mode, service, w)
  {
    LosesIff(spec, mode, service, w);
    if Served(spec, service) && PassLoses(spec, mode, w) { PassLossIsRead(spec, mode, w); }
  }

  /** The pass of this entity type empties the context behind a stop. */
  ghost predicate Lost<S>(
      rules: Rule<S>, children: seq<Child<S>>, home: Home<S>, mode: Mode, found: seq<Message>, w: World<S>)
  {
    !NothingLost(Plain(rules, children, home, mode, found), mode, true, w)
  }

  /** So what such an entity reports when it is stopped past its gates is what it would have
      reported, with messages left out. */
  lemma ReportShortensByText<S(!new)>(spec: Spec<S>, mode: Mode, service: bool, w: World<S>)
    requires forall s, c :: !MayLosePass(spec.rules, spec.children(s, c), mode, w.messages != [])
    requires Gates(spec, mode, RunRules(spec, mode, true, w).1.entity) == []
    ensures var with, without := Validate(spec, mode, service, true, w).1, Validate(spec, mode, service, false, w).1;
            Subsequence(with.messages, without.messages)
  {
    NothingLostByText(spec, mode, service, w);
    GatesPassedReport(spec, mode, service, w);
  }

  /** The condition is exact: some entity type with these texts loses if and only if they can. */
  lemma {:induction false} LossIff<S(!new)>(p: Rule<S>, children: seq<Child<S>>, home: Home<S>, mode: Mode, w: World<S>)
    requires w.attached == []
    ensures MayLosePass(p, children, mode, w.messages != []) <==>
            exists q, others, found ::
              SameText(p, q) && SameTexts(children, others) && Lost(q, others, home, mode, found, w)
  {
    if MayLosePass(p, children, mode, w.messages != []) {
      var q, others, found := PassLossIsRun(p, children, home, mode, w);
    }
    if q, others, found :| SameText(p, q) && SameTexts(children, others) && Lost(q, others, home, mode, found, w) {
      LostCanLose(q, others, home, mode, found, w);
      SameTextsLose(p, q, children, others, mode, w.messages != []);
    }
  }

  lemma {:induction false} LostCanLose<S>(
      q: Rule<S>, children: seq<Child<S>>, home: Home<S>, mode: Mode, found: seq<Message>, w: World<S>)
    requires Lost(q, children, home, mode, found, w)
    ensures MayLosePass(q, children, mode, w.messages != [])
  {
    var spec := Plain(q, children, home, mode, found);
    LosesIff(spec, mode, true, w);
    PassLossIsRead(spec, mode, w);
  }

  lemma {:induction false} PassLossIsRun<S>(p: Rule<S>, children: seq<Child<S>>, home: Home<S>, mode: Mode, w: World<S>)
    returns (q: Rule<S>, others: seq<Child<S>>, found: seq<Message>)
    requires w.attached == [] && MayLosePass(p, children, mode, w.messages != [])
    ensures SameText(p, q) && SameTexts(children, others) && Lost(q, others, home, mode, found, w)
  {
    var seat, start := Seat(mode, [], false, home), Started(mode, w);
    var b := StartBits(mode, w.messages != []);
    assert BitsOf(start, false) == b;
    if MayLose(p, mode, false, b) {
      q := LossIsRun(p, seat, start, false);
      others, found := children, [];
      forall i | 0 <= i < |children| ensures SameText(children[i].rules, others[i].rules) {
        SameTextAsItself(children[i].rules);
      }
    } else {
      var b1, b2 :| May(p, mode, false, b, Done, b1) && MayRaise(Shut(b1), b2) && MayLoseAll(children, mode, b2);
      q, found := RootReadingIsRun(p, home, mode, w, b1, b2);
      others := ChildLossesAreRun(home, children, mode, AfterRules(q, home, mode, found, w), b2.fired);
      PlainLoses(q, others, home, mode, found, w, b2);
    }
    LosesIff(Plain(q, others, home, mode, found), mode, true, w);
  }

  lemma {:induction false} PlainLoses<S>(
      q: Rule<S>, children: seq<Child<S>>, home: Home<S>, mode: Mode, found: seq<Message>, w: World<S>, b2: Bits)
    requires RootRuns(q, home, mode, found, w, b2)
    requires ChildrenLose(home, children, mode, AfterRules(q, home, mode, found, w), b2.fired)
    ensures PassLoses(Plain(q, children, home, mode, found), mode, w)
  {
    var spec := Plain(q, children, home, mode, found);
    var w2 := RunRules(spec, mode, false, w).1;
    assert RootSeat(spec, mode, false) == Seat(mode, [], false, home);
    GatesEmptyIff(spec, mode, w2.entity);
    assert Gated(spec, mode, w2) == w2;
    assert Before(spec, mode, w) == AfterRules(q, home, mode, found, w);
  }

  lemma {:induction false} SameTextsLose<S>(
      p: Rule<S>, q: Rule<S>, children: seq<Child<S>>, others: seq<Child<S>>, mode: Mode, held: bool)
    requires SameText(p, q) && SameTexts(children, others) && MayLosePass(q, others, mode, held)
    ensures MayLosePass(p, children, mode, held)
  {
    var b := StartBits(mode, held);
    if MayLose(q, mode, false, b) {
      SameTextLoses(p, q, mode, false, b);
    } else {
      var b1, b2 :| May(q, mode, false, b, Done, b1) && MayRaise(Shut(b1), b2) && MayLoseAll(others, mode, b2);
      SameTextReads(p, q, mode, false, b, Done, b1);
      SameChildTextsLose(children, others, mode, b2);
    }
  }

  lemma {:induction false} SameChildTextsLose<S>(children: seq<Child<S>>, others: seq<Child<S>>, mode: Mode, b: Bits)
    requires SameTexts(children, others) && MayLoseAll(others, mode, b)
    ensures MayLoseAll(children, mode, b)
  {
    var n := |children| - 1;
    var before, child := others[..n], others[n];
    if MayLoseAll(before, mode, b) {
      SameChildTextsLose(children[..n], before, mode, b);
    } else {
      var b1 :| MayAll(before, mode, b, b1) && MayLose(child.rules, mode, false, b1);
      SameTextsRead(children[..n], before, mode, b, b1);
      SameTextLoses(children[n].rules, child.rules, mode, false, b1);
    }
  }

  lemma {:induction false} SameTextLoses<S>(p: Rule<S>, q: Rule<S>, mode: Mode, stops: bool, b: Bits)
    requires SameText(p, q) && MayLose(q, mode, stops, b)
    ensures MayLose(p, mode, stops, b)
    decreases p, 1
  {
    match p
    case Then(first, second) =>
      if MayLose(q.first, mode, stops, b) {
        SameTextLoses(first, q.first, mode, stops, b);
      } else {
        var b1 :| May(q.first, mode, stops, b, Done, b1) && MayLose(q.second, mode, stops, b1);
        SameTextReads(first, q.first, mode, stops, b, Done, b1);
        SameTextLoses(second, q.second, mode, stops, b1);
      }
    case When(_, body, otherwise) =>
      if MayLose(q.body, mode, stops, b) {
        SameTextLoses(body, q.body, mode, stops, b);
      } else {
        SameTextLoses(otherwise, q.otherwise, mode, stops, b);
      }
    case InModes(_, body) => SameTextLoses(body, q.body, mode, stops, b);
    case Nested(_, _, _) => SameNestedLoses(p, q, mode, stops, b);
    case _ =>
  }

  lemma {:induction false} SameNestedLoses<S>(p: Rule<S>, q: Rule<S>, mode: Mode, stops: bool, b: Bits)
    requires p.Nested? && SameText(p, q) && MayLose(q, mode, stops, b)
    ensures MayLose(p, mode, stops, b)
    decreases p, 0
  {
    if p.inner.Take? {
      var inside, innerMode := InsideBits(p.inner, b), InnerMode(p.inner);
      if MayLose(q.body, innerMode, true, inside) {
        SameTextLoses(p.body, q.body, innerMode, true, inside);
      } else {
        var b1 :| May(q.body, innerMode, true, inside, Done, b1) && b1.held;
        SameTextReads(p.body, q.body, innerMode, true, inside, Done, b1);
      }
    }
  }
}
