/** What StopIfInvalid does and does not change about a pass (domain/rules.go:221-257,
    domain/entity_base.go:780-792): the verdict, exactly, and the report, exactly. */
module Barrier {
  import opened Options
  import opened Notifications
  import opened Rules
  import opened RuleTexts
  import opened Validation

  // ---- children ----

  /** What framework checks may add. */
  predicate MayRaise(b: Bits, b': Bits) {
    b' == b || b' == b.(held := true)
  }

  /** Run with stops ignored, the texts of these children can lead from `b` to `b'`. */
  ghost predicate MayAll<S>(children: seq<Child<S>>, mode: Mode, b: Bits, b': Bits) {
    if children == [] then b' == b
    else
      var before, child := children[..|children| - 1], children[|children| - 1];
      exists b1 :: MayAll(before, mode, b, b1) && MayOne(child, mode, b1, b')
  }

  ghost predicate MayOne<S>(child: Child<S>, mode: Mode, b: Bits, b': Bits) {
    exists b1 :: May(child.rules, mode, false, b, Done, b1) && MayRaise(b1, b')
  }

  predicate ChildrenFire<S>(home: Home<S>, children: seq<Child<S>>, mode: Mode, w: World<S>) {
    children != [] &&
    var before, child := children[..|children| - 1], children[|children| - 1];
    ChildrenFire(home, before, mode, w) ||
    var (e, w1) := RunChildren(home, before, mode, false, w);
    e == Done && ChildFires(home, child, mode, w1)
  }

  predicate ChildFires<S>(home: Home<S>, child: Child<S>, mode: Mode, w: World<S>) {
    Fires(child.rules, ChildSeat(child, mode, false, home), OnCopy(child, w))
  }

  lemma {:induction false} ChildrenStopIffFire<S>(home: Home<S>, children: seq<Child<S>>, mode: Mode, w: World<S>)
    ensures var with := RunChildren(home, children, mode, true, w);
            var without := RunChildren(home, children, mode, false, w);
            && (with.0 == Stopped <==> ChildrenFire(home, children, mode, w))
            && (with.0 != Stopped ==> with == without)
            && without.0 != Stopped
  {
    if children != [] {
      var before, child := children[..|children| - 1], children[|children| - 1];
      ChildrenStopIffFire(home, before, mode, w);
      var (e, w1) := RunChildren(home, before, mode, true, w);
      var seat := ChildSeat(child, mode, true, home);
      assert Unstopped(seat) == ChildSeat(child, mode, false, home);
      StopsIffFires(child.rules, seat, OnCopy(child, w1));
      RunChildrenFrame(home, children, mode, false, w);
    }
  }

  lemma {:induction false} ChildrenAreRead<S>(
      home: Home<S>, children: seq<Child<S>>, mode: Mode, w: World<S>, fired: bool)
    requires RunChildren(home, children, mode, false, w).0 == Done
    ensures var w' := RunChildren(home, children, mode, false, w).1;
            MayAll(children, mode, BitsOf(w, fired), BitsOf(w', fired || ChildrenFire(home, children, mode, w)))
  {
    if children != [] {
      var before, child := children[..|children| - 1], children[|children| - 1];
      ChildrenAreRead(home, before, mode, w, fired);
      var w1 := RunChildren(home, before, mode, false, w).1;
      ChildIsRead(home, child, mode, w1, fired || ChildrenFire(home, before, mode, w));
    }
  }

  lemma ChildIsRead<S>(home: Home<S>, child: Child<S>, mode: Mode, w: World<S>, fired: bool)
    requires RunChild(home, child, mode, false, w).0 == Done
    ensures var w' := RunChild(home, child, mode, false, w).1;
            MayOne(child, mode, BitsOf(w, fired), BitsOf(w', fired || ChildFires(home, child, mode, w)))
  {
    var seat, inside := ChildSeat(child, mode, false, home), OnCopy(child, w);
    RunIsRead(child.rules, seat, inside, fired);
    var b1 := BitsOf(Exec(child.rules, seat, inside).1, fired || ChildFires(home, child, mode, w));
    assert May(child.rules, mode, false, BitsOf(w, fired), Done, b1);
    assert MayRaise(b1, BitsOf(RunChild(home, child, mode, false, w).1, b1.fired));
  }

  ghost predicate SameTexts<S>(a: seq<Child<S>>, b: seq<Child<S>>) {
    |a| == |b| && forall i :: 0 <= i < |a| ==> SameText(a[i].rules, b[i].rules)
  }

  /** Run from `w` with stops ignored, the children lead to `b'`. */
  ghost predicate AllRun<S>(home: Home<S>, children: seq<Child<S>>, mode: Mode, w: World<S>, fired: bool, b': Bits) {
    var (e, w') := RunChildren(home, children, mode, false, w);
    e == Done && w'.attached == w.attached && BitsOf(w', fired || ChildrenFire(home, children, mode, w)) == b'
  }

  lemma {:induction false} ChildReadingsAreRun<S>(
      home: Home<S>, children: seq<Child<S>>, mode: Mode, w: World<S>, fired: bool, b': Bits)
    returns (others: seq<Child<S>>)
    requires Blank(w) && MayAll(children, mode, BitsOf(w, fired), b')
    ensures SameTexts(children, others) && AllRun(home, others, mode, w, fired, b')
  {
    if children == [] {
      others := [];
    } else {
      var before := children[..|children| - 1];
      var b1 := AllMeans(children, mode, BitsOf(w, fired), b');
      var front := ChildReadingsAreRun(home, before, mode, w, fired, b1);
      others := OneMoreRuns(home, children, front, mode, w, fired, b1, b');
    }
  }

  lemma {:induction false} AllMeans<S>(children: seq<Child<S>>, mode: Mode, b: Bits, b': Bits) returns (b1: Bits)
    requires children != [] && MayAll(children, mode, b, b')
    ensures MayAll(children[..|children| - 1], mode, b, b1) && MayOne(children[|children| - 1], mode, b1, b')
  {
    var before, child := children[..|children| - 1], children[|children| - 1];
    b1 :| MayAll(before, mode, b, b1) && MayOne(child, mode, b1, b');
  }

  lemma {:induction false} OneMoreRuns<S>(
      home: Home<S>, children: seq<Child<S>>, front: seq<Child<S>>, mode: Mode, w: World<S>,
      fired: bool, b1: Bits, b': Bits)
    returns (others: seq<Child<S>>)
    requires children != [] && Blank(w) && SameTexts(children[..|children| - 1], front)
    requires AllRun(home, front, mode, w, fired, b1) && MayOne(children[|children| - 1], mode, b1, b')
    ensures SameTexts(children, others) && AllRun(home, others, mode, w, fired, b')
  {
    var before, child := children[..|children| - 1], children[|children| - 1];
    var last := ChildReadingIsRun(home, child, mode, RunChildren(home, front, mode, false, w).1, b1.fired, b');
    others := front + [last];
    AllRunSnoc(home, front, last, mode, w, fired, b1, b');
    SameTextsSnoc(before, front, child, last);
    assert before + [child] == children;
  }

  lemma SameTextsSnoc<S>(a: seq<Child<S>>, b: seq<Child<S>>, x: Child<S>, y: Child<S>)
    requires SameTexts(a, b) && SameText(x.rules, y.rules)
    ensures SameTexts(a + [x], b + [y])
  {
  }

  lemma AllRunSnoc<S>(
      home: Home<S>, front: seq<Child<S>>, last: Child<S>, mode: Mode, w: World<S>, fired: bool, b1: Bits, b': Bits)
    requires AllRun(home, front, mode, w, fired, b1)
    requires OneRuns(home, last, mode, RunChildren(home, front, mode, false, w).1, b1.fired, b')
    ensures AllRun(home, front + [last], mode, w, fired, b')
  {
    var children := front + [last];
    assert children[..|children| - 1] == front && children[|children| - 1] == last;
  }

  ghost predicate OneRuns<S>(home: Home<S>, child: Child<S>, mode: Mode, w: World<S>, fired: bool, b': Bits) {
    var (e, w') := RunChild(home, child, mode, false, w);
    e == Done && w'.attached == w.attached && BitsOf(w', fired || ChildFires(home, child, mode, w)) == b'
  }

  lemma ChildReadingIsRun<S>(home: Home<S>, child: Child<S>, mode: Mode, w: World<S>, fired: bool, b': Bits)
     returns (other: Child<S>)
    requires Blank(w) && MayOne(child, mode, BitsOf(w, fired), b')
    ensures SameText(child.rules, other.rules) && OneRuns(home, other, mode, w, fired, b')
  {
    var b1 :| May(child.rules, mode, false, BitsOf(w, fired), Done, b1) && MayRaise(b1, b');
    var q := ReadingIsRun(child.rules, ChildSeat(child, mode, false, home), OnCopy(child, w), fired, Done, b1);
    SameTextOwn(child.rules, q);
    other := ChildRuns(home, child, q, mode, w, fired, b1, b');
  }

  lemma ChildRuns<S>(
      home: Home<S>, child: Child<S>, q: Rule<S>, mode: Mode, w: World<S>, fired: bool, b1: Bits, b': Bits)
     returns (other: Child<S>)
    requires OwnOnly(q) && MayRaise(b1, b')
    requires Runs(q, ChildSeat(child, mode, false, home), OnCopy(child, w), fired, Done, b1)
    ensures other.rules == q && OneRuns(home, other, mode, w, fired, b')
  {
    var found := if b'.held then [Note("", "")] else [];
    other := Child(child.item, child.prefix, q, (s, m) => found);
    RunChildFrame(home, other, mode, false, w);
    var seat, inside := ChildSeat(child, mode, false, home), OnCopy(child, w);
    assert ChildSeat(other, mode, false, home) == seat && OnCopy(other, w) == inside;
    var w1 := OffCopy(Exec(q, seat, inside).1, w);
    assert RunChild(home, other, mode, false, w) == (Done, Say(w1, PrefixedAll(child.prefix, found)));
  }

  lemma {:induction false} SameTextsRead<S>(a: seq<Child<S>>, b: seq<Child<S>>, mode: Mode, from: Bits, to: Bits)
    requires SameTexts(a, b) && MayAll(b, mode, from, to)
    ensures MayAll(a, mode, from, to)
  {
    if a != [] {
      var n := |a| - 1;
      var b1 :| MayAll(b[..n], mode, from, b1) && MayOne(b[n], mode, b1, to);
      SameTextsRead(a[..n], b[..n], mode, from, b1);
      var b2 :| May(b[n].rules, mode, false, b1, Done, b2) && MayRaise(b2, to);
      SameTextReads(a[n].rules, b[n].rules, mode, false, b1, Done, b2);
    }
  }

  lemma {:induction false} AllOwnRead<S>(children: seq<Child<S>>, mode: Mode, b: Bits, b': Bits, window: bool, m: Mode)
    requires MayAll(children, mode, b, b')
    ensures MayAll(children, mode, Moved(b, window, m), Moved(b', window, m))
  {
    if children != [] {
      var before, child := children[..|children| - 1], children[|children| - 1];
      var b1 :| MayAll(before, mode, b, b1) && MayOne(child, mode, b1, b');
      AllOwnRead(before, mode, b, b1, window, m);
      OneOwnReads(child, mode, b1, b', window, m);
    }
  }

  lemma OneOwnReads<S>(child: Child<S>, mode: Mode, b: Bits, b': Bits, window: bool, m: Mode)
    requires MayOne(child, mode, b, b')
    ensures MayOne(child, mode, Moved(b, window, m), Moved(b', window, m))
  {
    var b1 :| May(child.rules, mode, false, b, Done, b1) && MayRaise(b1, b');
    OwnReads(child.rules, mode, false, b, Done, b1, window, m);
    assert MayRaise(Moved(b1, window, m), Moved(b', window, m));
  }

  // ---- the verdict ----

  function StartBits(mode: Mode, held: bool): Bits {
    Bits(held, false, true, mode)
  }

  function Shut(b: Bits): Bits {
    b.(window := false)
  }

  /** Read off the texts of an entity's rules and its children's: a pass of this mode can
      come to its end with no message held although a stop fired on the way. */
  ghost predicate CanFlip<S>(p: Rule<S>, children: seq<Child<S>>, mode: Mode, held: bool) {
    exists b1, b2, b3 ::
      && May(p, mode, false, StartBits(mode, held), Done, b1)
      && MayRaise(Shut(b1), b2)
      && MayAll(children, mode, b2, b3)
      && !b3.held && b3.fired
  }

  /** Run with stops ignored, the pass meets one that would have fired. */
  predicate PassFires<S>(spec: Spec<S>, mode: Mode, service: bool, w: World<S>) {
    && Served(spec, service)
    && (|| Fires(spec.rules, RootSeat(spec, mode, false), Started(mode, w))
        || (var (e, w1) := RunRules(spec, mode, false, w);
            var w2 := Gated(spec, mode, w1);
            var w3 := Say(w2, spec.valueObjects(w2.entity, w2.marked));
            e == Done && ChildrenFire(spec.home, ChildrenOf(spec, w2), mode, w3)))
  }

  /** The barrier in one statement, for every rule program: a pass with stops is stopped
      exactly when one fires, then over messages; otherwise it is the pass without them. */
  lemma StopsOnlyCut<S>(spec: Spec<S>, mode: Mode, service: bool, w: World<S>)
    ensures var with, without := Validate(spec, mode, service, true, w), Validate(spec, mode, service, false, w);
            && (with.0 == Stopped <==> PassFires(spec, mode, service, w))
            && (with.0 == Stopped ==> with.1.messages != [])
            && (with.0 != Stopped ==> with == without)
            && without.0 != Stopped
  {
    ValidateKeeps(spec, mode, service, true, w);
    ValidateKeeps(spec, mode, service, false, w);
    var seat := RootSeat(spec, mode, true);
    assert Unstopped(seat) == RootSeat(spec, mode, false);
    StopsIffFires(spec.rules, seat, Started(mode, w));
    var (e, w1) := RunRules(spec, mode, true, w);
    if e == Done {
      var w2 := Gated(spec, mode, w1);
      ChildrenStopIffFire(spec.home, ChildrenOf(spec, w2), mode, Say(w2, spec.valueObjects(w2.entity, w2.marked)));
    }
  }

  /** A pass without stops that ends without messages although one would have fired is
      read off the texts. */
  lemma FlipIsRead<S>(spec: Spec<S>, mode: Mode, service: bool, w: World<S>)
    requires PassFires(spec, mode, service, w) && Accepts(Validate(spec, mode, service, false, w))
    ensures exists s, c :: CanFlip(spec.rules, spec.children(s, c), mode, w.messages != [])
  {
    StopsOnlyCut(spec, mode, service, w);
    var seat, start := RootSeat(spec, mode, false), Started(mode, w);
    ExecKeeps(spec.rules, seat, start);
    RunIsRead(spec.rules, seat, start, false);
    var fired := Fires(spec.rules, seat, start);
    var inside := Exec(spec.rules, seat, start).1;
    var w2 := Gated(spec, mode, Close(inside));
    var w3, kids := Say(w2, spec.valueObjects(w2.entity, w2.marked)), ChildrenOf(spec, w2);
    var w4 := RunChildren(spec.home, kids, mode, false, w3).1;
    ChildrenAreRead(spec.home, kids, mode, w3, fired);
    assert CanFlip(spec.rules, spec.children(w2.entity, w2.root.aggregates), mode, w.messages != []) by {
      var b1, b2 := BitsOf(inside, fired), BitsOf(w3, fired);
      var b3 := BitsOf(w4, fired || ChildrenFire(spec.home, kids, mode, w3));
      assert May(spec.rules, mode, false, StartBits(mode, w.messages != []), Done, b1);
      assert MayRaise(Shut(b1), b2) && MayAll(kids, mode, b2, b3);
    }
  }

  /** For every entity whose texts cannot flip, whatever its rules test and say: the pass
      accepts with stops exactly when it accepts with every stop ignored. */
  lemma StopNeverChangesVerdict<S(!new)>(spec: Spec<S>, mode: Mode, service: bool, w: World<S>)
    requires forall s, c :: !CanFlip(spec.rules, spec.children(s, c), mode, w.messages != [])
    ensures Accepts(Validate(spec, mode, service, true, w)) <==> Accepts(Validate(spec, mode, service, false, w))
  {
    StopsOnlyCut(spec, mode, service, w);
    if PassFires(spec, mode, service, w) && Accepts(Validate(spec, mode, service, false, w)) {
      FlipIsRead(spec, mode, service, w);
    }
  }

  /** An entity type with these rules and children that always passes its gates. */
  function Plain<S>(rules: Rule<S>, children: seq<Child<S>>, home: Home<S>, mode: Mode, found: seq<Message>): Spec<S> {
    Spec(rules, home, s => {mode}, s => if mode == InsertMode then None else Some("id"),
         t => true, false, (s, m) => found, (s, c) => children)
  }

  /** With stops the pass of this entity type rejects, without them it accepts. */
  ghost predicate Flipped<S>(
      rules: Rule<S>, children: seq<Child<S>>, home: Home<S>, mode: Mode, found: seq<Message>, w: World<S>)
  {
    var spec := Plain(rules, children, home, mode, found);
    !Accepts(Validate(spec, mode, true, true, w)) && Accepts(Validate(spec, mode, true, false, w))
  }

  /** Where the children of such an entity start. */
  function AfterRules<S>(rules: Rule<S>, home: Home<S>, mode: Mode, found: seq<Message>, w: World<S>): World<S> {
    Say(Close(Exec(rules, Seat(mode, [], false, home), Started(mode, w)).1), found)
  }

  /** Run with stops ignored, its rules and value objects lead to `b'`. */
  ghost predicate RootRuns<S>(rules: Rule<S>, home: Home<S>, mode: Mode, found: seq<Message>, w: World<S>, b': Bits) {
    var seat, start, w1 := Seat(mode, [], false, home), Started(mode, w), AfterRules(rules, home, mode, found, w);
    Exec(rules, seat, start).0 == Done && Blank(w1) && BitsOf(w1, Fires(rules, seat, start)) == b'
  }

  lemma {:induction false} RootReadingIsRun<S>(p: Rule<S>, home: Home<S>, mode: Mode, w: World<S>, b1: Bits, b2: Bits)
    returns (q: Rule<S>, found: seq<Message>)
    requires w.attached == [] && MayRaise(Shut(b1), b2)
    requires May(p, mode, false, StartBits(mode, w.messages != []), Done, b1)
    ensures SameText(p, q) && RootRuns(q, home, mode, found, w, b2)
  {
    var start, seat := Started(mode, w), Seat(mode, [], false, home);
    assert BitsOf(start, false) == StartBits(mode, w.messages != []);
    q := ReadingIsRun(p, seat, start, false, Done, b1);
    found := if b2.held then [Note("", "")] else [];
    CloseRaises(Exec(q, seat, start).1, Fires(q, seat, start), b2, found);
  }

  lemma CloseRaises<S>(w: World<S>, fired: bool, b2: Bits, found: seq<Message>)
    requires Blank(w) && MayRaise(Shut(BitsOf(w, fired)), b2) && (found != [] <==> b2.held)
    ensures var w1 := Say(Close(w), found);
            Blank(w1) && BitsOf(w1, fired) == b2
  {
  }

  lemma {:induction false} FlipIsRun<S>(p: Rule<S>, children: seq<Child<S>>, home: Home<S>, mode: Mode, w: World<S>)
    returns (q: Rule<S>, others: seq<Child<S>>, found: seq<Message>)
    requires w.attached == [] && CanFlip(p, children, mode, w.messages != [])
    ensures SameText(p, q) && SameTexts(children, others) && Flipped(q, others, home, mode, found, w)
  {
    var b1, b2, b3 :| May(p, mode, false, StartBits(mode, w.messages != []), Done, b1) && MayRaise(Shut(b1), b2) &&
                      MayAll(children, mode, b2, b3) && !b3.held && b3.fired;
    q, found := RootReadingIsRun(p, home, mode, w, b1, b2);
    others := ChildReadingsAreRun(home, children, mode, AfterRules(q, home, mode, found, w), b2.fired, b3);
    FlippedPass(q, others, home, mode, found, w, b2, b3);
  }

  lemma {:induction false} FlippedPass<S>(
      q: Rule<S>, children: seq<Child<S>>, home: Home<S>, mode: Mode, found: seq<Message>, w: World<S>,
      b2: Bits, b3: Bits)
    requires RootRuns(q, home, mode, found, w, b2)
    requires AllRun(home, children, mode, AfterRules(q, home, mode, found, w), b2.fired, b3)
    requires !b3.held && b3.fired
    ensures Flipped(q, children, home, mode, found, w)
  {
    var spec := Plain(q, children, home, mode, found);
    var w2 := RunRules(spec, mode, false, w).1;
    assert RootSeat(spec, mode, false) == Seat(mode, [], false, home);
    GatesEmptyIff(spec, mode, w2.entity);
    assert Gated(spec, mode, w2) == w2;
    StopsOnlyCut(spec, mode, true, w);
  }

  /** The condition is exact: some entity type with these texts has a pass whose verdict its
      stops change if and only if the texts can flip. */
  lemma {:induction false} VerdictFlipsIff<S(!new)>(
      p: Rule<S>, children: seq<Child<S>>, home: Home<S>, mode: Mode, w: World<S>)
    requires w.attached == []
    ensures CanFlip(p, children, mode, w.messages != []) <==>
            exists q, others, found :: SameText(p, q) && SameTexts(children, others) &&
              Flipped(q, others, home, mode, found, w)
  {
    if CanFlip(p, children, mode, w.messages != []) {
      var q, others, found := FlipIsRun(p, children, home, mode, w);
    }
    if q, others, found :| SameText(p, q) && SameTexts(children, others) && Flipped(q, others, home, mode, found, w) {
      FlippedCanFlip(q, others, home, mode, found, w);
      SameTextsFlip(p, q, children, others, mode, w.messages != []);
    }
  }

  lemma FlippedCanFlip<S>(
      q: Rule<S>, children: seq<Child<S>>, home: Home<S>, mode: Mode, found: seq<Message>, w: World<S>)
    requires Flipped(q, children, home, mode, found, w)
    ensures CanFlip(q, children, mode, w.messages != [])
  {
    var spec := Plain(q, children, home, mode, found);
    StopsOnlyCut(spec, mode, true, w);
    FlipIsRead(spec, mode, true, w);
  }

  lemma SameTextsFlip<S>(p: Rule<S>, q: Rule<S>, children: seq<Child<S>>, others: seq<Child<S>>, mode: Mode, held: bool)
    requires SameText(p, q) && SameTexts(children, others) && CanFlip(q, others, mode, held)
    ensures CanFlip(p, children, mode, held)
  {
    var b1, b2, b3 :| May(q, mode, false, StartBits(mode, held), Done, b1) && MayRaise(Shut(b1), b2) &&
                      MayAll(others, mode, b2, b3) && !b3.held && b3.fired;
    SameTextReads(p, q, mode, false, StartBits(mode, held), Done, b1);
    SameTextsRead(children, others, mode, b2, b3);
  }

  /** A body that empties its own context behind the barrier flips. */
  lemma {:induction false} ClearingBehindTheBarrierFlips<S>(message: View<S> -> Message, mode: Mode)
    ensures CanFlip(Then(Emit(message), Then(StopIfInvalid, ClearContext)), [], mode, false)
  {
    var b := StartBits(mode, false);
    var p: Rule<S> := Then(StopIfInvalid, ClearContext);
    assert May(Rule<S>.StopIfInvalid, mode, false, b.(held := true), Done, b.(held := true, fired := true));
    assert May(Rule<S>.ClearContext, mode, false, b.(held := true, fired := true), Done, b.(fired := true));
    assert May(p, mode, false, b.(held := true), Done, b.(fired := true));
    assert May(Emit(message), mode, false, b, Done, b.(held := true));
    assert May(Then(Emit(message), p), mode, false, b, Done, b.(fired := true));
    var none: seq<Child<S>> := [];
    assert MayAll(none, mode, Shut(b.(fired := true)), Shut(b.(fired := true)));
  }

  /** ... and one that empties it in front of every stop does not. */
  lemma ClearingBeforeTheBarrierIsHarmless<S>(message: View<S> -> Message, mode: Mode, held: bool)
    ensures !CanFlip(Then(ClearContext, Then(Emit(message), StopIfInvalid)), [], mode, held)
  {
    var tail := Then(Emit(message), StopIfInvalid);
    forall b, b' | May(Then(ClearContext, tail), mode, false, b, Done, b') ensures b'.held {
      var b1 := ThenMeans(ClearContext, tail, mode, b, b');
      var b2 := ThenMeans(Emit(message), StopIfInvalid, mode, b1, b');
    }
  }

  lemma ThenMeans<S>(first: Rule<S>, second: Rule<S>, mode: Mode, b: Bits, b': Bits) returns (b1: Bits)
    requires May(Then(first, second), mode, false, b, Done, b')
    ensures May(first, mode, false, b, Done, b1) && May(second, mode, false, b1, Done, b')
  {
    b1 :| May(first, mode, false, b, Done, b1) && May(second, mode, false, b1, Done, b');
  }

  // ---- the report ----

  /** `a` is `b` with some messages left out. */
  ghost predicate Subsequence<T>(a: seq<T>, b: seq<T>) {
    exists at: seq<nat> :: IsSelection(at, a, b)
  }

  ghost predicate IsSelection<T>(at: seq<nat>, a: seq<T>, b: seq<T>) {
    && |at| == |a|
    && (forall i :: 0 <= i < |at| ==> at[i] < |b| && b[at[i]] == a[i])
    && (forall i, j :: 0 <= i < j < |at| ==> at[i] < at[j])
  }

  lemma {:induction false} SelectionRises(at: seq<nat>, i: nat)
    requires i < |at| && forall i, j :: 0 <= i < j < |at| ==> at[i] < at[j]
    ensures at[i] >= i
  {
    if i > 0 { SelectionRises(at, i - 1); }
  }

  lemma SelectBehind<T>(head: seq<T>, a: seq<T>, b: seq<T>, at: seq<nat>)
    requires IsSelection(at, a, b)
    ensures Subsequence(head + a, head + b)
  {
    var n := |head|;
    var more: seq<nat> := seq(n + |a|, i requires 0 <= i < n + |a| => if i < n then i else at[i - n] + n);
    assert IsSelection(more, head + a, head + b);
  }

  lemma SelectedBehind<T>(head: seq<T>, a: seq<T>, b: seq<T>, at: seq<nat>)
    requires IsSelection(at, head + a, head + b)
    ensures Subsequence(a, b)
  {
    var n := |head|;
    forall k | n <= k < |at| ensures at[k] >= n { SelectionRises(at, k); }
    var tail: seq<nat> := seq(|a|, i requires 0 <= i < |a| => if at[n + i] >= n then at[n + i] - n else 0);
    forall i | 0 <= i < |a| ensures tail[i] < |b| && b[tail[i]] == a[i] {
      var k := n + i;
      assert (head + a)[k] == a[i] && (head + b)[at[k]] == b[at[k] - n];
    }
    forall i, j | 0 <= i < j < |a| ensures tail[i] < tail[j] {
      var k, m := n + i, n + j;
      assert at[k] < at[m];
    }
    assert IsSelection(tail, a, b);
  }

  /** A common beginning takes no part. */
  lemma SubsequenceBehind<T>(head: seq<T>, a: seq<T>, b: seq<T>)
    ensures Subsequence(head + a, head + b) <==> Subsequence(a, b)
  {
    if at: seq<nat> :| IsSelection(at, a, b) { SelectBehind(head, a, b, at); }
    if at: seq<nat> :| IsSelection(at, head + a, head + b) { SelectedBehind(head, a, b, at); }
  }

  lemma PrefixIsSubsequence<T>(a: seq<T>, b: seq<T>)
    requires a <= b
    ensures Subsequence(a, b)
  {
    var none, at: seq<nat> := [], [];
    assert IsSelection(at, none, b[|a|..]);
    SubsequenceBehind(a, [], b[|a|..]);
    assert a + [] == a && a + b[|a|..] == b;
  }

  /** Run on past its stops, a body still holds what the stop saw, unless it empties the
      context behind it. */
  lemma {:induction false} StopSawAPrefix<S>(p: Rule<S>, seat: Seat<S>, w: World<S>)
    requires seat.stops
    ensures Keeps(Exec(p, seat, w).1, Exec(p, Unstopped(seat), w).1)
    decreases p
  {
    match p
    case Then(first, second) =>
      StopsIffFires(first, seat, w);
      StopSawAPrefix(first, seat, w);
      var (e, w1) := Exec(first, seat, w);
      var (e0, w0) := Exec(first, Unstopped(seat), w);
      if e == Done { StopSawAPrefix(second, seat, w1); }
      ExecKeepsMessages(second, Unstopped(seat), w0);
    case When(test, body, otherwise) =>
      StopSawAPrefix(body, seat, w);
      StopSawAPrefix(otherwise, seat, w);
    case InModes(modes, body) => StopSawAPrefix(body, seat, w);
    case _ => StopsIffFires(p, seat, w);
  }

  lemma {:induction false} ChildrenStopSawAPrefix<S>(home: Home<S>, children: seq<Child<S>>, mode: Mode, w: World<S>)
    ensures Keeps(RunChildren(home, children, mode, true, w).1, RunChildren(home, children, mode, false, w).1)
  {
    if children != [] {
      var before, child := children[..|children| - 1], children[|children| - 1];
      ChildrenStopSawAPrefix(home, before, mode, w);
      ChildrenStopIffFire(home, before, mode, w);
      var (e, w1) := RunChildren(home, before, mode, true, w);
      var w0 := RunChildren(home, before, mode, false, w).1;
      if e == Done { ChildStopSawAPrefix(home, child, mode, w1); }
      RunChildKeeps(home, child, mode, false, w0);
    }
  }

  lemma ChildStopSawAPrefix<S>(home: Home<S>, child: Child<S>, mode: Mode, w: World<S>)
    ensures Keeps(RunChild(home, child, mode, true, w).1, RunChild(home, child, mode, false, w).1)
  {
    var seat := ChildSeat(child, mode, true, home);
    assert Unstopped(seat) == ChildSeat(child, mode, false, home);
    StopSawAPrefix(child.rules, seat, OnCopy(child, w));
    StopsIffFires(child.rules, seat, OnCopy(child, w));
  }

  /** When the root's own rules are stopped, the caller gets the messages the barrier
      saw, then the structural gates, and nothing else. */
  lemma StoppedReport<S>(spec: Spec<S>, mode: Mode, service: bool, w: World<S>)
    requires Served(spec, service)
    ensures var (e, w1) := RunRules(spec, mode, true, w);
            e == Stopped ==>
              && w1.messages != []
              && Validate(spec, mode, service, true, w) == (Stopped, Say(w1, Gates(spec, mode, w1.entity)))
  {
    ExecKeeps(spec.rules, RootSeat(spec, mode, true), Started(mode, w));
  }

  /** Nothing empties the context behind the barrier: run on past its stops, the pass empties
      it no more often than it does up to them. */
  ghost predicate NothingLost<S>(spec: Spec<S>, mode: Mode, service: bool, w: World<S>) {
    Count(Validate(spec, mode, service, false, w).1.trace, Cleared) ==
      Count(Validate(spec, mode, service, true, w).1.trace, Cleared)
  }

  /** What a pass stopped in the root reports is what the pass without stops reports with
      messages left out, if and only if the gates it reports are among what that pass
      reports behind the barrier; panics behind the barrier included. */
  lemma StoppedReportIff<S>(spec: Spec<S>, mode: Mode, service: bool, w: World<S>)
    requires NothingLost(spec, mode, service, w) && Served(spec, service) && RunRules(spec, mode, true, w).0 == Stopped
    ensures var with, without := Validate(spec, mode, service, true, w).1, Validate(spec, mode, service, false, w).1;
            var w1 := RunRules(spec, mode, true, w).1;
            && w1.messages <= without.messages
            && (Subsequence(with.messages, without.messages) <==>
                Subsequence(Gates(spec, mode, w1.entity), without.messages[|w1.messages|..]))
  {
    var without := Validate(spec, mode, service, false, w).1;
    var w1 := RunRules(spec, mode, true, w).1;
    StoppedInRoot(spec, mode, service, w);
    SubsequenceBehind(w1.messages, Gates(spec, mode, w1.entity), without.messages[|w1.messages|..]);
    assert w1.messages + without.messages[|w1.messages|..] == without.messages;
  }

  lemma RulesStopSawAPrefix<S>(spec: Spec<S>, mode: Mode, w: World<S>)
    ensures Keeps(RunRules(spec, mode, true, w).1, RunRules(spec, mode, false, w).1)
  {
    var seat := RootSeat(spec, mode, true);
    assert Unstopped(seat) == RootSeat(spec, mode, false);
    StopSawAPrefix(spec.rules, seat, Started(mode, w));
  }

  lemma StoppedInRoot<S>(spec: Spec<S>, mode: Mode, service: bool, w: World<S>)
    requires Served(spec, service)
    ensures Keeps(RunRules(spec, mode, true, w).1, Validate(spec, mode, service, false, w).1)
  {
    RulesStopSawAPrefix(spec, mode, w);
    AutomaticKeeps(spec, mode, false, RunRules(spec, mode, false, w).1);
  }

  /** A pass not stopped in the root reports a beginning of what it reports without stops. */
  lemma UnstoppedRootReport<S>(spec: Spec<S>, mode: Mode, service: bool, w: World<S>)
    requires NothingLost(spec, mode, service, w) &&
             !(Served(spec, service) && RunRules(spec, mode, true, w).0 == Stopped)
    ensures var with, without := Validate(spec, mode, service, true, w).1, Validate(spec, mode, service, false, w).1;
            with.messages <= without.messages && Subsequence(with.messages, without.messages)
  {
    var with, without := Validate(spec, mode, service, true, w).1, Validate(spec, mode, service, false, w).1;
    StopsOnlyCut(spec, mode, service, w);
    if Served(spec, service) {
      var seat := RootSeat(spec, mode, true);
      assert Unstopped(seat) == RootSeat(spec, mode, false);
      StopsIffFires(spec.rules, seat, Started(mode, w));
      var w2 := Gated(spec, mode, RunRules(spec, mode, true, w).1);
      ChildrenStopSawAPrefix(spec.home, ChildrenOf(spec, w2), mode, Say(w2, spec.valueObjects(w2.entity, w2.marked)));
    }
    PrefixIsSubsequence(with.messages, without.messages);
  }

  /** So an entity that passes its gates where it is stopped needs no other condition. */
  lemma GatesPassedReport<S>(spec: Spec<S>, mode: Mode, service: bool, w: World<S>)
    requires NothingLost(spec, mode, service, w)
    requires Gates(spec, mode, RunRules(spec, mode, true, w).1.entity) == []
    ensures var with, without := Validate(spec, mode, service, true, w).1, Validate(spec, mode, service, false, w).1;
            Subsequence(with.messages, without.messages)
  {
    if Served(spec, service) && RunRules(spec, mode, true, w).0 == Stopped {
      StoppedReportIff(spec, mode, service, w);
      var n := |RunRules(spec, mode, true, w).1.messages|;
      PrefixIsSubsequence([], Validate(spec, mode, service, false, w).1.messages[n..]);
    } else {
      UnstoppedRootReport(spec, mode, service, w);
    }
  }

  /** Reports, stops, and empties the context behind the stop. */
  function ReportsThenClears<S>(message: Message): Rule<S> {
    Then(Emit((v: View<S>) => message), Then(StopIfInvalid, ClearContext))
  }

  lemma ReportsThenClearsRuns<S>(message: Message, seat: Seat<S>, w: World<S>)
    ensures var w1 := Say(w, [Prefixed(seat.prefix, message)]);
            Exec(ReportsThenClears(message), seat, w) == if seat.stops then (Stopped, w1) else (Done, Empty(w1))
  {
    var p: Rule<S> := ReportsThenClears(message);
    var w1 := Say(w, [Prefixed(seat.prefix, message)]);
    assert Exec(p.first, seat, w) == (Done, w1);
    assert Exec(p.second.second, seat, w1) == (Done, Empty(w1));
  }

  /** Rules that do so: every gate passed, and the report with stops holds what the report
      without them does not. */
  lemma ClearingRulesLoseTheReport<S>(message: Message, home: Home<S>, mode: Mode, w: World<S>)
    requires w.messages == []
    ensures var spec := Plain(ReportsThenClears(message), [], home, mode, []);
            var with, without := Validate(spec, mode, true, true, w).1, Validate(spec, mode, true, false, w).1;
            && with.messages == [Prefixed([], message)] && without.messages == []
            && !Subsequence(with.messages, without.messages)
  {
    var spec := Plain(ReportsThenClears(message), [], home, mode, []);
    ReportsThenClearsRuns(message, RootSeat(spec, mode, true), Started(mode, w));
    ReportsThenClearsRuns(message, RootSeat(spec, mode, false), Started(mode, w));
    GatesEmptyIff(spec, mode, w.entity);
    var with, without := Validate(spec, mode, true, true, w).1, Validate(spec, mode, true, false, w).1;
    assert without.messages == [];
    LongerIsNoSubsequence(with.messages, without.messages);
  }

  lemma OneChildRuns<S>(home: Home<S>, child: Child<S>, mode: Mode, stops: bool, w: World<S>)
    ensures RunChildren(home, [child], mode, stops, w) == RunChild(home, child, mode, stops, w)
  {
    var kids := [child];
    assert kids[..|kids| - 1] == [];
    assert RunChildren(home, kids[..|kids| - 1], mode, stops, w) == (Done, w);
  }

  lemma ChildReportsThenClears<S>(
      message: Message, child: Child<S>, home: Home<S>, mode: Mode, stops: bool, w: World<S>)
    requires child.rules == ReportsThenClears(message) && child.valueObjects(child.item, []) == [] && w.messages == []
    ensures var r := Validate(Plain(Skip, [child], home, mode, []), mode, true, stops, w);
            r.1.messages == if stops then [Prefixed(child.prefix, message)] else []
  {
    var spec := Plain(Skip, [child], home, mode, []);
    var w1 := RunRules(spec, mode, stops, w).1;
    GatesEmptyIff(spec, mode, w1.entity);
    assert Gated(spec, mode, w1) == w1 && Say(w1, []) == w1;
    OneChildRuns(home, child, mode, stops, w1);
    ReportsThenClearsRuns(message, ChildSeat(child, mode, stops, home), OnCopy(child, w1));
  }

  /** A child that does so, under rules that never stop. */
  lemma ClearingChildLosesTheReport<S>(message: Message, child: Child<S>, home: Home<S>, mode: Mode, w: World<S>)
    requires child.rules == ReportsThenClears(message) && child.valueObjects(child.item, []) == [] && w.messages == []
    ensures var spec := Plain(Skip, [child], home, mode, []);
            var with, without := Validate(spec, mode, true, true, w).1, Validate(spec, mode, true, false, w).1;
            && RunRules(spec, mode, true, w).0 == Done
            && with.messages == [Prefixed(child.prefix, message)] && without.messages == []
            && !Subsequence(with.messages, without.messages)
  {
    ChildReportsThenClears(message, child, home, mode, true, w);
    ChildReportsThenClears(message, child, home, mode, false, w);
    LongerIsNoSubsequence([Prefixed(child.prefix, message)], []);
  }

  /** An entity that is its id, whose rules report, stop and then drop the id. */
  function DropsItsId(): Spec<Option<string>> {
    Spec(Then(Emit((v: View<Option<string>>) => Note("x", "Bad")), Then(StopIfInvalid, Mutate(s => None))),
         Home({}, s => None), s => {InsertMode}, s => s, t => true, false, (s, m) => [], (s, c) => [])
  }

  lemma DroppingTheIdRuns(w: World<Option<string>>, stops: bool)
    requires w.messages == []
    ensures var w1 := Say(Started(InsertMode, w), [Note("x", "Bad")]);
            RunRules(DropsItsId(), InsertMode, stops, w) ==
              if stops then (Stopped, Close(w1)) else (Done, Close(w1.(entity := None)))
  {
    var spec, x := DropsItsId(), Note("x", "Bad");
    var seat, w0 := RootSeat(spec, InsertMode, stops), Started(InsertMode, w);
    assert Prefixed([], x) == x;
    assert Exec(spec.rules.first, seat, w0) == (Done, Say(w0, [x]));
    assert Exec(spec.rules.second.second, seat, Say(w0, [x])) == (Done, Say(w0, [x]).(entity := None));
  }

  lemma LongerIsNoSubsequence<T>(a: seq<T>, b: seq<T>)
    requires |b| < |a|
    ensures !Subsequence(a, b)
  {
    if at: seq<nat> :| IsSelection(at, a, b) { SelectionRises(at, |a| - 1); }
  }

  /** It is stopped with the id still on it, and reports what the full pass never would. */
  lemma MovingTheIdBreaksSubsequence(root: Tracking)
    ensures var w := World(Some("row-1"), None, [], [], [], Unknown, Display, false, root, Start);
            var with := Validate(DropsItsId(), InsertMode, true, true, w).1;
            var without := Validate(DropsItsId(), InsertMode, true, false, w).1;
            && with.messages == [Note("x", "Bad"), Note("id", "UnableToInsertWithID")]
            && without.messages == [Note("x", "Bad")]
            && !Subsequence(with.messages, without.messages)
  {
    var spec, x := DropsItsId(), Note("x", "Bad");
    var w := World(Some("row-1"), None, [], [], [], Unknown, Display, false, root, Start);
    DroppingTheIdRuns(w, true);
    DroppingTheIdRuns(w, false);
    assert Gates(spec, InsertMode, None) == [] &&
      Gates(spec, InsertMode, Some("row-1")) == [Note("id", "UnableToInsertWithID")];
    var without := Validate(spec, InsertMode, true, false, w).1;
    assert without.messages == [x];
    LongerIsNoSubsequence(Validate(spec, InsertMode, true, true, w).1.messages, without.messages);
  }
}
