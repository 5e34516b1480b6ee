/** What can be read off the text of a body without running it: whether it can end with no
    message held although a stop fired on the way (domain/rules.go:221-257). The reading is
    exact: it says so precisely when some body of the same text does it. */
module RuleTexts {
  import opened Options
  import opened AggregateLaws
  import opened Rules

  ghost predicate SameLine<S>(p: Rule<S>, q: Rule<S>)
    requires IsLine(p)
  {
    match p
    case Skip => q.Skip?
    case Emit(_) => q.Emit?
    case StopIfInvalid => q.StopIfInvalid?
    case Mutate(_) => q.Mutate?
    case MarkValueObject(name) => q.MarkValueObject? && q.name == name
    case AttachContext(_) => q.AttachContext?
    case Track(_) => q.Track?
    case CompleteAsArchive => q.CompleteAsArchive?
    case ClearContext => q.ClearContext?
    case CaptureOld => q.CaptureOld?
    case Crash => q.Crash?
  }

  /** The two bodies are the same but for what they test, say, attach, change and track, and
      for what the framework finds in their inner passes. */
  ghost predicate SameText<S>(p: Rule<S>, q: Rule<S>)
    decreases p
  {
    match p
    case Then(first, second) => q.Then? && SameText(first, q.first) && SameText(second, q.second)
    case When(_, body, otherwise) => q.When? && SameText(body, q.body) && SameText(otherwise, q.otherwise)
    case InModes(modes, body) => q.InModes? && q.modes == modes && SameText(body, q.body)
    case Nested(inner, body, _) => q.Nested? && q.inner == inner && SameText(body, q.body)
    case _ => SameLine(p, q)
  }

  lemma {:induction false} SameTextAsItself<S>(p: Rule<S>)
    ensures SameText(p, p)
    decreases p
  {
    match p
    case Then(first, second) => SameTextAsItself(first); SameTextAsItself(second);
    case When(_, body, otherwise) => SameTextAsItself(body); SameTextAsItself(otherwise);
    case InModes(_, body) => SameTextAsItself(body);
    case Nested(_, body, _) => SameTextAsItself(body);
    case _ =>
  }

  lemma {:induction false} SameTextOwn<S>(p: Rule<S>, q: Rule<S>)
    requires SameText(p, q) && OwnOnly(p)
    ensures OwnOnly(q)
    decreases p
  {
    match p
    case Then(first, second) => SameTextOwn(first, q.first); SameTextOwn(second, q.second);
    case When(_, body, otherwise) => SameTextOwn(body, q.body); SameTextOwn(otherwise, q.otherwise);
    case InModes(_, body) => SameTextOwn(body, q.body);
    case _ =>
  }

  // ---- the reading ----

  /** As much of the state as a text can tell: messages are held, an ignored stop fired, the
      window is open, the entity's mode. */
  datatype Bits = Bits(held: bool, fired: bool, window: bool, mode: Mode)

  function BitsOf<S>(w: World<S>, fired: bool): Bits {
    Bits(w.messages != [], fired, w.window, w.mode)
  }

  function EnterBits(inner: Inner, b: Bits): Bits {
    b.(held := b.held && inner.Take?, mode := Display)
  }

  function InsideBits(inner: Inner, b: Bits): Bits {
    EnterBits(inner, b).(mode := InnerMode(inner), window := true)
  }

  /** From `b` the line can end as `e` in `b'`. A stop over messages ends a body whose
      barrier is on, and is noted by one whose barrier is off; a panic is no end. */
  predicate MayLine<S>(p: Rule<S>, stops: bool, b: Bits, e: Ending, b': Bits)
    requires IsLine(p)
  {
    match p
    case Emit(_) => e == Done && b' == b.(held := true)
    case StopIfInvalid =>
      if !b.held then e == Done && b' == b
      else if stops then e == Stopped && b' == b
      else e == Done && b' == b.(fired := true)
    case Track(_) => e == Done && (b' == b || b' == b.(held := true))
    case CompleteAsArchive => b.window && b.mode == UpdateMode && e == Done && b' == b
    case ClearContext => e == Done && b' == b.(held := false)
    case Crash => false
    case _ => e == Done && b' == b
  }

  /** From `b` the text can end as `e` in `b'`. */
  ghost predicate May<S>(p: Rule<S>, mode: Mode, stops: bool, b: Bits, e: Ending, b': Bits)
    decreases p
  {
    match p
    case Then(first, second) =>
      || (e == Stopped && May(first, mode, stops, b, Stopped, b'))
      || exists b1 :: May(first, mode, stops, b, Done, b1) && May(second, mode, stops, b1, e, b')
    case When(_, body, otherwise) => May(body, mode, stops, b, e, b') || May(otherwise, mode, stops, b, e, b')
    case InModes(modes, body) => if mode in modes then May(body, mode, stops, b, e, b') else e == Done && b' == b
    case Nested(inner, body, _) =>
      && e == Done
      && if RunsRules(inner) then
           exists e1, b1 :: May(body, InnerMode(inner), true, InsideBits(inner, b), e1, b1) && MayBehind(e1, b1, b')
         else b' == SkippedBits(inner, b)
    case _ => MayLine(p, stops, b, e, b')
  }

  function SkippedBits(inner: Inner, b: Bits): Bits {
    if InnerMode(inner) == Unknown || InnerMode(inner) == Display then EnterBits(inner, b)
    else EnterBits(inner, b).(mode := InnerMode(inner), held := true)
  }

  /** Behind an inner body the window is closed; a completed pass can leave messages or
      none. */
  predicate MayBehind(e: Ending, b: Bits, b': Bits) {
    match e
    case Crashed => false
    case Stopped => b' == b.(window := false)
    case Done => b' == b.(window := false, held := b'.held)
  }

  // ---- every run is read ----

  function Unstopped<S>(seat: Seat<S>): Seat<S> {
    seat.(stops := false)
  }

  /** Run with its stops ignored, the body meets one that would have fired. */
  predicate Fires<S>(p: Rule<S>, seat: Seat<S>, w: World<S>)
    decreases p
  {
    match p
    case Then(first, second) =>
      Fires(first, seat, w) ||
      var (e, w1) := Exec(first, seat, w);
      e == Done && Fires(second, seat, w1)
    case When(test, body, otherwise) => if test(ViewOf(w)) then Fires(body, seat, w) else Fires(otherwise, seat, w)
    case InModes(modes, body) => seat.mode in modes && Fires(body, seat, w)
    case StopIfInvalid => w.messages != []
    case _ => false
  }

  /** With its stops a body is stopped exactly when one fires, and otherwise does what it
      does without them. */
  lemma {:induction false} StopsIffFires<S>(p: Rule<S>, seat: Seat<S>, w: World<S>)
    requires seat.stops
    ensures Exec(p, seat, w).0 == Stopped <==> Fires(p, Unstopped(seat), w)
    ensures Exec(p, seat, w).0 != Stopped ==> Exec(p, seat, w) == Exec(p, Unstopped(seat), w)
    ensures Exec(p, Unstopped(seat), w).0 != Stopped
    decreases p
  {
    match p
    case Then(first, second) =>
      StopsIffFires(first, seat, w);
      if Exec(first, seat, w).0 == Done { StopsIffFires(second, seat, Exec(first, seat, w).1); }
      ExecKeeps(p, Unstopped(seat), w);
    case When(test, body, otherwise) =>
      StopsIffFires(body, seat, w);
      StopsIffFires(otherwise, seat, w);
    case InModes(modes, body) => StopsIffFires(body, seat, w);
    case _ =>
  }

  lemma {:induction false} RunIsRead<S>(p: Rule<S>, seat: Seat<S>, w: World<S>, fired: bool)
    requires Exec(p, seat, w).0 != Crashed
    ensures var (e, w') := Exec(p, seat, w);
            May(p, seat.mode, seat.stops, BitsOf(w, fired), e, BitsOf(w', fired || (!seat.stops && Fires(p, seat, w))))
    decreases p, 1
  {
    match p
    case Then(first, second) =>
      RunIsRead(first, seat, w, fired);
      var (e, w1) := Exec(first, seat, w);
      if e == Done { RunIsRead(second, seat, w1, fired || (!seat.stops && Fires(first, seat, w))); }
    case When(test, body, otherwise) =>
      if test(ViewOf(w)) { RunIsRead(body, seat, w, fired); } else { RunIsRead(otherwise, seat, w, fired); }
    case InModes(modes, body) => if seat.mode in modes { RunIsRead(body, seat, w, fired); }
    case Nested(_, _, _) => NestedIsRead(p, seat, w, fired);
    case _ => LineIsRead(p, seat, w, fired);
  }

  lemma LineIsRead<S>(p: Rule<S>, seat: Seat<S>, w: World<S>, fired: bool)
    requires IsLine(p) && ExecLine(p, seat, w).0 != Crashed
    ensures var (e, w') := ExecLine(p, seat, w);
            MayLine(p, seat.stops, BitsOf(w, fired), e,
              BitsOf(w', fired || (!seat.stops && p.StopIfInvalid? && w.messages != [])))
  {
  }

  lemma {:induction false} NestedIsRead<S>(p: Rule<S>, seat: Seat<S>, w: World<S>, fired: bool)
    requires p.Nested? && Exec(p, seat, w).0 != Crashed
    ensures Exec(p, seat, w).0 == Done
    ensures May(p, seat.mode, seat.stops, BitsOf(w, fired), Done, BitsOf(Exec(p, seat, w).1, fired))
    decreases p, 0
  {
    if RunsRules(p.inner) {
      var innerSeat, inside := InnerSeat(p.inner, seat.home), Inside(p.inner, seat.home, w);
      var end := Exec(p.body, innerSeat, inside);
      RunIsRead(p.body, innerSeat, inside, fired);
      assert BitsOf(inside, fired) == InsideBits(p.inner, BitsOf(w, fired));
      ExecKeeps(p.body, innerSeat, inside);
      BehindIsRead(p.inner, p.rest, end, w.marked, fired);
    }
  }

  lemma BehindIsRead<S>(inner: Inner, rest: View<S> -> Rest, end: (Ending, World<S>), marked: seq<string>, fired: bool)
    requires Behind(inner, rest, end, marked).0 != Crashed
    requires end.0 == Stopped ==> end.1.messages != []
    ensures Behind(inner, rest, end, marked).0 == Done
    ensures MayBehind(end.0, BitsOf(end.1, fired), BitsOf(Behind(inner, rest, end, marked).1, fired))
  {
  }

  // ---- every reading is run ----

  ghost predicate Blank<S>(w: World<S>) {
    forall i :: 0 <= i < |w.attached| ==> w.attached[i] == []
  }

  /** Run from `w`, the body ends as `e`, as `b'` tells it. */
  ghost predicate Runs<S>(q: Rule<S>, seat: Seat<S>, w: World<S>, fired: bool, e: Ending, b': Bits) {
    var (e', w') := Exec(q, seat, w);
    e' == e && Blank(w') && BitsOf(w', fired || (!seat.stops && Fires(q, seat, w))) == b'
  }

  ghost predicate Follows<S>(p: Rule<S>, q: Rule<S>, seat: Seat<S>, w: World<S>, fired: bool, e: Ending, b': Bits) {
    SameText(p, q) && Runs(q, seat, w, fired, e, b')
  }

  /** Whatever the text can do, some body of the same text does from this very state. */
  lemma {:induction false} ReadingIsRun<S>(p: Rule<S>, seat: Seat<S>, w: World<S>, fired: bool, e: Ending, b': Bits)
     returns (q: Rule<S>)
    requires Blank(w) && May(p, seat.mode, seat.stops, BitsOf(w, fired), e, b')
    ensures Follows(p, q, seat, w, fired, e, b')
    decreases p, 1
  {
    if p.Then? {
      q := ThenIsRun(p, seat, w, fired, e, b');
    } else if p.When? {
      q := WhenIsRun(p, seat, w, fired, e, b');
    } else if p.InModes? {
      q := InModesIsRun(p, seat, w, fired, e, b');
    } else if p.Nested? {
      q := NestedIsRun(p, seat, w, fired, e, b');
    } else {
      q := LineIsRun(p, seat, w, fired, e, b');
    }
  }

  lemma LineIsRun<S>(p: Rule<S>, seat: Seat<S>, w: World<S>, fired: bool, e: Ending, b': Bits) returns (q: Rule<S>)
    requires IsLine(p) && Blank(w) && MayLine(p, seat.stops, BitsOf(w, fired), e, b')
    ensures Follows(p, q, seat, w, fired, e, b')
  {
    if p.Track? {
      q := TrackIsRun(p, seat, w, fired, e, b');
    } else {
      q := if p.AttachContext? then AttachContext(v => []) else p;
      LineRuns(q, seat, w, fired, e, b');
    }
  }

  lemma LineRuns<S>(q: Rule<S>, seat: Seat<S>, w: World<S>, fired: bool, e: Ending, b': Bits)
    requires IsLine(q) && !q.Track? && Blank(w) && MayLine(q, seat.stops, BitsOf(w, fired), e, b')
    requires q.AttachContext? ==> q.context(ViewOf(w)) == []
    ensures Runs(q, seat, w, fired, e, b')
  {
  }

  lemma {:induction false} InModesIsRun<S>(p: Rule<S>, seat: Seat<S>, w: World<S>, fired: bool, e: Ending, b': Bits)
     returns (q: Rule<S>)
    requires p.InModes? && Blank(w) && May(p, seat.mode, seat.stops, BitsOf(w, fired), e, b')
    ensures Follows(p, q, seat, w, fired, e, b')
    decreases p, 0
  {
    q := p;
    SameTextAsItself(p);
    if seat.mode in p.modes {
      var q1 := ReadingIsRun(p.body, seat, w, fired, e, b');
      q := InModes(p.modes, q1);
    }
  }

  lemma {:induction false} ThenIsRun<S>(p: Rule<S>, seat: Seat<S>, w: World<S>, fired: bool, e: Ending, b': Bits)
     returns (q: Rule<S>)
    requires p.Then? && Blank(w) && May(p, seat.mode, seat.stops, BitsOf(w, fired), e, b')
    ensures Follows(p, q, seat, w, fired, e, b')
    decreases p, 0
  {
    var b := BitsOf(w, fired);
    if e == Stopped && May(p.first, seat.mode, seat.stops, b, Stopped, b') {
      var q1 := ReadingIsRun(p.first, seat, w, fired, Stopped, b');
      q := Then(q1, p.second);
      SameTextAsItself(p.second);
    } else {
      var b1 :| May(p.first, seat.mode, seat.stops, b, Done, b1) && May(p.second, seat.mode, seat.stops, b1, e, b');
      var q1 := ReadingIsRun(p.first, seat, w, fired, Done, b1);
      var q2 := ReadingIsRun(p.second, seat, Exec(q1, seat, w).1, fired || (!seat.stops && Fires(q1, seat, w)), e, b');
      q := Then(q1, q2);
    }
  }

  lemma {:induction false} WhenIsRun<S>(p: Rule<S>, seat: Seat<S>, w: World<S>, fired: bool, e: Ending, b': Bits)
     returns (q: Rule<S>)
    requires p.When? && Blank(w) && May(p, seat.mode, seat.stops, BitsOf(w, fired), e, b')
    ensures Follows(p, q, seat, w, fired, e, b')
    decreases p, 0
  {
    SameTextAsItself(p.body);
    SameTextAsItself(p.otherwise);
    if May(p.body, seat.mode, seat.stops, BitsOf(w, fired), e, b') {
      var q1 := ReadingIsRun(p.body, seat, w, fired, e, b');
      q := When(v => true, q1, p.otherwise);
    } else {
      var q1 := ReadingIsRun(p.otherwise, seat, w, fired, e, b');
      q := When(v => false, p.body, q1);
    }
  }

  lemma TrackIsRun<S>(p: Rule<S>, seat: Seat<S>, w: World<S>, fired: bool, e: Ending, b': Bits) returns (q: Rule<S>)
    requires p.Track? && Blank(w) && MayLine(p, seat.stops, BitsOf(w, fired), e, b')
    ensures Follows(p, q, seat, w, fired, e, b')
  {
    q := if b'.held && w.messages == [] then Track(v => AddRoot(None)) else Track(v => ClearRoot(""));
    TrackEitherWay(q, seat, w);
  }

  lemma TrackEitherWay<S>(q: Rule<S>, seat: Seat<S>, w: World<S>)
    requires q.Track? && (q.call(ViewOf(w)) == AddRoot(None) || q.call(ViewOf(w)) == ClearRoot(""))
    ensures var (e, w') := ExecLine(q, seat, w);
            && e == Done && w'.attached == w.attached && w'.window == w.window && w'.mode == w.mode
            && (w'.messages != [] <==> w.messages != [] || q.call(ViewOf(w)).AddRoot?)
  {
  }

  lemma {:induction false} NestedIsRun<S>(p: Rule<S>, seat: Seat<S>, w: World<S>, fired: bool, e: Ending, b': Bits)
     returns (q: Rule<S>)
    requires p.Nested? && Blank(w) && May(p, seat.mode, seat.stops, BitsOf(w, fired), e, b')
    ensures Follows(p, q, seat, w, fired, e, b')
    decreases p, 0
  {
    if !RunsRules(p.inner) {
      q := p;
      SameTextAsItself(p);
      SkippedIsRun(p, seat, w, fired, e, b');
    } else {
      var inside := Inside(p.inner, seat.home, w);
      var e1, b1 :| May(p.body, InnerMode(p.inner), true, InsideBits(p.inner, BitsOf(w, fired)), e1, b1) &&
        MayBehind(e1, b1, b');
      assert BitsOf(inside, fired) == InsideBits(p.inner, BitsOf(w, fired));
      var body := ReadingIsRun(p.body, InnerSeat(p.inner, seat.home), inside, fired, e1, b1);
      q := InnerIsRun(p.inner, body, seat, w, fired, e1, b1, b');
    }
  }

  lemma SkippedIsRun<S>(p: Rule<S>, seat: Seat<S>, w: World<S>, fired: bool, e: Ending, b': Bits)
    requires p.Nested? && Blank(w) && !RunsRules(p.inner) && e == Done && b' == SkippedBits(p.inner, BitsOf(w, fired))
    ensures Runs(p, seat, w, fired, e, b')
  {
  }

  lemma InnerIsRun<S>(
      inner: Inner, body: Rule<S>, seat: Seat<S>, w: World<S>, fired: bool, e1: Ending, b1: Bits, b': Bits)
    returns (q: Rule<S>)
    requires RunsRules(inner) && Runs(body, InnerSeat(inner, seat.home), Inside(inner, seat.home, w), fired, e1, b1)
    requires MayBehind(e1, b1, b')
    ensures q.Nested? && q.inner == inner && q.body == body && Runs(q, seat, w, fired, Done, b')
  {
    var innerSeat, inside := InnerSeat(inner, seat.home), Inside(inner, seat.home, w);
    var rest: View<S> -> Rest := if b'.held then v => Leaves([Note("", "")]) else v => Leaves([]);
    q := Nested(inner, body, rest);
    ExecKeeps(body, innerSeat, inside);
    AroundIsRun(inner, rest, seat.home, w, Exec(body, innerSeat, inside), fired, b');
    InnerRuns(q, seat, w, fired, b');
  }

  lemma InnerRuns<S>(q: Rule<S>, seat: Seat<S>, w: World<S>, fired: bool, b': Bits)
    requires q.Nested?
    requires var innerSeat, inside := InnerSeat(q.inner, seat.home), Inside(q.inner, seat.home, w);
             var (e, w') := Around(q.inner, q.rest, seat.home, w, Exec(q.body, innerSeat, inside));
             e == Done && Blank(w') && BitsOf(w', fired) == b'
    ensures Runs(q, seat, w, fired, Done, b')
  {
  }

  lemma AroundIsRun<S>(
      inner: Inner, rest: View<S> -> Rest, home: Home<S>, w: World<S>, end: (Ending, World<S>), fired: bool,
      b': Bits)
    requires RunsRules(inner) && MayBehind(end.0, BitsOf(end.1, fired), b') && Blank(end.1)
    requires end.0 == Stopped ==> end.1.messages != []
    requires forall v :: rest(v).Leaves? && (rest(v).messages != [] <==> b'.held)
    ensures var (e, w') := Around(inner, rest, home, w, end);
            e == Done && Blank(w') && BitsOf(w', fired) == b'
  {
    BehindIsRun(inner, rest, end, w.marked, fired, b');
  }

  lemma BehindIsRun<S>(
      inner: Inner, rest: View<S> -> Rest, end: (Ending, World<S>), marked: seq<string>, fired: bool, b': Bits)
    requires MayBehind(end.0, BitsOf(end.1, fired), b') && Blank(end.1)
    requires end.0 == Stopped ==> end.1.messages != []
    requires forall v :: rest(v).Leaves? && (rest(v).messages != [] <==> b'.held)
    ensures Behind(inner, rest, end, marked).0 == Done
    ensures Blank(Behind(inner, rest, end, marked).1) && BitsOf(Behind(inner, rest, end, marked).1, fired) == b'
  {
  }

  /** The reading looks at nothing but the text. */
  lemma {:induction false} SameTextReads<S>(
      p: Rule<S>, q: Rule<S>, mode: Mode, stops: bool, b: Bits, e: Ending, b': Bits)
    requires SameText(p, q) && May(q, mode, stops, b, e, b')
    ensures May(p, mode, stops, b, e, b')
    decreases p, 1
  {
    match p
    case Then(_, _) => SameThenReads(p, q, mode, stops, b, e, b');
    case When(_, body, otherwise) =>
      if May(q.body, mode, stops, b, e, b') {
        SameTextReads(body, q.body, mode, stops, b, e, b');
      } else {
        SameTextReads(otherwise, q.otherwise, mode, stops, b, e, b');
      }
    case InModes(modes, body) => if mode in modes { SameTextReads(body, q.body, mode, stops, b, e, b'); }
    case Nested(_, _, _) => SameNestedReads(p, q, mode, stops, b, e, b');
    case _ => assert MayLine(p, stops, b, e, b') <==> MayLine(q, stops, b, e, b');
  }

  lemma {:induction false} SameThenReads<S>(
      p: Rule<S>, q: Rule<S>, mode: Mode, stops: bool, b: Bits, e: Ending, b': Bits)
    requires p.Then? && SameText(p, q) && May(q, mode, stops, b, e, b')
    ensures May(p, mode, stops, b, e, b')
    decreases p, 0
  {
    if e == Stopped && May(q.first, mode, stops, b, Stopped, b') {
      SameTextReads(p.first, q.first, mode, stops, b, Stopped, b');
    } else {
      var b1 :| May(q.first, mode, stops, b, Done, b1) && May(q.second, mode, stops, b1, e, b');
      SameTextReads(p.first, q.first, mode, stops, b, Done, b1);
      SameTextReads(p.second, q.second, mode, stops, b1, e, b');
    }
  }

  lemma {:induction false} SameNestedReads<S>(
      p: Rule<S>, q: Rule<S>, mode: Mode, stops: bool, b: Bits, e: Ending, b': Bits)
    requires p.Nested? && SameText(p, q) && May(q, mode, stops, b, e, b')
    ensures May(p, mode, stops, b, e, b')
    decreases p, 0
  {
    if RunsRules(p.inner) {
      var inside := InsideBits(p.inner, b);
      var e1, b1 :| May(q.body, InnerMode(p.inner), true, inside, e1, b1) && MayBehind(e1, b1, b');
      SameTextReads(p.body, q.body, InnerMode(p.inner), true, inside, e1, b1);
    }
  }

  // ---- asking behind a text ----

  /** Behind this text, completed, an archive can be asked for (or, not heard, cannot). */
  ghost predicate CanAsk<S>(p: Rule<S>, mode: Mode, stops: bool, b: Bits, heard: bool) {
    exists b' :: May(p, mode, stops, b, Done, b') && heard == (b'.window && b'.mode == UpdateMode)
  }

  /** The body completes, and an ask behind it is heard or panics. */
  ghost predicate Asks<S>(q: Rule<S>, seat: Seat<S>, w: World<S>, heard: bool) {
    && Exec(q, seat, w).0 == Done
    && Exec(Then(q, CompleteAsArchive), seat, w).0 == if heard then Done else Crashed
  }

  /** Read off the text: an ask behind it is heard by some body of that text if and only if
      some completed reading leaves the window open in update mode, and panics behind some
      body of it if and only if one does not. */
  lemma AskIsReadIff<S(!new)>(p: Rule<S>, seat: Seat<S>, w: World<S>, heard: bool)
    requires Blank(w)
    ensures CanAsk(p, seat.mode, seat.stops, BitsOf(w, false), heard) <==>
            exists q :: SameText(p, q) && Asks(q, seat, w, heard)
  {
    var b := BitsOf(w, false);
    if CanAsk(p, seat.mode, seat.stops, b, heard) {
      var b' :| May(p, seat.mode, seat.stops, b, Done, b') && heard == (b'.window && b'.mode == UpdateMode);
      var q := ReadingIsRun(p, seat, w, false, Done, b');
      AsksAsRead(q, seat, w, b');
    }
    if q :| SameText(p, q) && Asks(q, seat, w, heard) { AskIsRead(p, q, seat, w, heard); }
  }

  lemma AsksAsRead<S>(q: Rule<S>, seat: Seat<S>, w: World<S>, b': Bits)
    requires Runs(q, seat, w, false, Done, b')
    ensures Asks(q, seat, w, b'.window && b'.mode == UpdateMode)
  {
  }

  lemma AskIsRead<S>(p: Rule<S>, q: Rule<S>, seat: Seat<S>, w: World<S>, heard: bool)
    requires SameText(p, q) && Asks(q, seat, w, heard)
    ensures CanAsk(p, seat.mode, seat.stops, BitsOf(w, false), heard)
  {
    var w' := Exec(q, seat, w).1;
    var b' := BitsOf(w', !seat.stops && Fires(q, seat, w));
    assert Exec(Then(q, CompleteAsArchive), seat, w) == Exec(Rule<S>.CompleteAsArchive, seat, w');
    RunIsRead(q, seat, w, false);
    SameTextReads(p, q, seat.mode, seat.stops, BitsOf(w, false), Done, b');
  }

  // ---- texts of children ----

  function Moved(b: Bits, window: bool, mode: Mode): Bits {
    Bits(b.held, b.fired, window, mode)
  }

  /** A child's text does not depend on window and mode, and leaves them alone. */
  lemma {:induction false} OwnReads<S>(
      p: Rule<S>, mode: Mode, stops: bool, b: Bits, e: Ending, b': Bits, window: bool, m: Mode)
    requires OwnOnly(p) && May(p, mode, stops, b, e, b')
    ensures May(p, mode, stops, Moved(b, window, m), e, Moved(b', window, m))
    decreases p, 1
  {
    match p
    case Then(_, _) => OwnThenReads(p, mode, stops, b, e, b', window, m);
    case When(_, body, otherwise) =>
      if May(body, mode, stops, b, e, b') {
        OwnReads(body, mode, stops, b, e, b', window, m);
      } else {
        OwnReads(otherwise, mode, stops, b, e, b', window, m);
      }
    case InModes(modes, body) => if mode in modes { OwnReads(body, mode, stops, b, e, b', window, m); }
    case _ => assert MayLine(p, stops, Moved(b, window, m), e, Moved(b', window, m));
  }

  lemma {:induction false} OwnThenReads<S>(
      p: Rule<S>, mode: Mode, stops: bool, b: Bits, e: Ending, b': Bits, window: bool, m: Mode)
    requires p.Then? && OwnOnly(p) && May(p, mode, stops, b, e, b')
    ensures May(p, mode, stops, Moved(b, window, m), e, Moved(b', window, m))
    decreases p, 0
  {
    if e == Stopped && May(p.first, mode, stops, b, Stopped, b') {
      OwnReads(p.first, mode, stops, b, Stopped, b', window, m);
    } else {
      var b1 :| May(p.first, mode, stops, b, Done, b1) && May(p.second, mode, stops, b1, e, b');
      OwnReads(p.first, mode, stops, b, Done, b1, window, m);
      OwnReads(p.second, mode, stops, b1, e, b', window, m);
    }
  }
}
