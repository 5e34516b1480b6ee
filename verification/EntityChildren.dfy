/** The tracked children of an entity over its whole life: where the tracker calls made by
    handlers, mutations and rules take them (domain/aggregate_root.go:428-533), and what that
    means for the database. */
module EntityChildren {
  import opened Options
  import opened TrackerReplay
  import opened AggregateRoots
  import opened AggregateLaws
  import opened RootReplay
  import opened Rules
  import opened Validation
  import opened Entity
  import opened EntityLaws

  /** The tracker calls the body makes on its own entity, in order. */
  function Calls<S>(p: Rule<S>, seat: Seat<S>, w: World<S>): seq<TrackCall>
    decreases p
  {
    match p
    case Then(first, second) =>
      var (e, w1) := Exec(first, seat, w);
      Calls(first, seat, w) + if e == Done then Calls(second, seat, w1) else []
    case When(test, body, otherwise) =>
      if test(ViewOf(w)) then Calls(body, seat, w) else Calls(otherwise, seat, w)
    case InModes(modes, body) => if seat.mode in modes then Calls(body, seat, w) else []
    case Nested(inner, body, _) =>
      if RunsRules(inner) then Calls(body, InnerSeat(inner, seat.home), Inside(inner, seat.home, w)) else []
    case Track(call) => [call(ViewOf(w))]
    case _ => []
  }

  lemma {:induction false} RunRootConcat<K, V>(
      r: Root<K, V>, declared: set<string>, a: seq<RootCall<K, V>>, b: seq<RootCall<K, V>>)
    ensures RunRoot(r, declared, a + b) == RunRoot(RunRoot(r, declared, a), declared, b)
    decreases a
  {
    if a == [] {
      assert a + b == b;
    } else {
      assert (a + b)[0] == a[0] && (a + b)[1..] == a[1..] + b;
      RunRootConcat(ApplyRoot(r, declared, a[0]), declared, a[1..], b);
    }
  }

  function Quiet<K, V>(r: Root<K, V>): Root<K, V> {
    r.(messages := [])
  }

  lemma {:induction false} AddChildrenQuiet<K, V>(
      r: Root<K, V>, q: Root<K, V>, declared: set<string>, items: seq<Option<T.Item<K, V>>>)
    requires Quiet(r) == Quiet(q)
    ensures Quiet(AddChildren(r, declared, items)) == Quiet(AddChildren(q, declared, items))
  {
    if items != [] { AddChildrenQuiet(r, q, declared, items[..|items| - 1]); }
  }

  /** What was said steers no call. */
  lemma {:induction false} ApplyQuiet<K, V>(r: Root<K, V>, q: Root<K, V>, declared: set<string>, call: RootCall<K, V>)
    requires Quiet(r) == Quiet(q)
    ensures Quiet(ApplyRoot(r, declared, call)) == Quiet(ApplyRoot(q, declared, call))
  {
    if call.ReplaceRoot? {
      AddChildrenQuiet(ClearType(r, call.typeName), ClearType(q, call.typeName), declared, call.items);
    }
  }

  lemma {:induction false} RunQuiet<K, V>(
      r: Root<K, V>, q: Root<K, V>, declared: set<string>, calls: seq<RootCall<K, V>>)
    requires Quiet(r) == Quiet(q)
    ensures Quiet(RunRoot(r, declared, calls)) == Quiet(RunRoot(q, declared, calls))
    decreases calls
  {
    if calls != [] {
      ApplyQuiet(r, q, declared, calls[0]);
      RunQuiet(ApplyRoot(r, declared, calls[0]), ApplyRoot(q, declared, calls[0]), declared, calls[1..]);
    }
  }

  /** The calls take the tracked children from the one state to the other. */
  ghost predicate Tracked<S>(declared: set<string>, w: World<S>, calls: seq<TrackCall>, v: World<S>) {
    Quiet(v.root) == Quiet(RunRoot(w.root, declared, calls))
  }

  lemma {:induction false} TrackedOn<S>(
      declared: set<string>, w: World<S>, a: seq<TrackCall>, v: World<S>, b: seq<TrackCall>, u: World<S>)
    requires Tracked(declared, w, a, v) && Tracked(declared, v, b, u)
    ensures Tracked(declared, w, a + b, u)
  {
    RunRootConcat(w.root, declared, a, b);
    RunQuiet(v.root, RunRoot(w.root, declared, a), declared, b);
  }

  lemma {:induction false} OneTracked<S>(declared: set<string>, call: TrackCall, w: World<S>)
    ensures Tracked(declared, w, [call], DoTrack(declared, call, w))
  {
    ApplyQuiet(Quiet(w.root), w.root, declared, call);
    assert RunRoot(w.root, declared, [call]) == RunRoot(ApplyRoot(w.root, declared, call), declared, []);
  }

  lemma {:induction false} NoneTracked<S>(declared: set<string>, w: World<S>, v: World<S>)
    requires v.root == w.root
    ensures Tracked(declared, w, [], v)
  {
  }

  /** Whatever a body does, its tracked children are where its calls take them. */
  lemma {:induction false} ExecTracks<S>(p: Rule<S>, seat: Seat<S>, w: World<S>)
    ensures Tracked(seat.home.declared, w, Calls(p, seat, w), Exec(p, seat, w).1)
    decreases p
  {
    var declared := seat.home.declared;
    match p
    case Then(first, second) =>
      var (e, w1) := Exec(first, seat, w);
      ExecTracks(first, seat, w);
      if e == Done {
        ExecTracks(second, seat, w1);
        TrackedOn(declared, w, Calls(first, seat, w), w1, Calls(second, seat, w1), Exec(second, seat, w1).1);
      } else {
        assert Calls(first, seat, w) + [] == Calls(first, seat, w);
      }
    case When(test, body, otherwise) =>
      ExecTracks(body, seat, w);
      ExecTracks(otherwise, seat, w);
    case InModes(modes, body) => ExecTracks(body, seat, w);
    case Nested(inner, body, rest) =>
      var innerSeat, inside := InnerSeat(inner, seat.home), Inside(inner, seat.home, w);
      ExecTracks(body, innerSeat, inside);
      AroundTracks(inner, rest, seat.home, w, Exec(body, innerSeat, inside));
    case _ => LineTracks(p, seat, w);
  }

  lemma {:induction false} LineTracks<S>(p: Rule<S>, seat: Seat<S>, w: World<S>)
    requires IsLine(p)
    ensures Tracked(seat.home.declared, w, Calls(p, seat, w), ExecLine(p, seat, w).1)
  {
    if p.Track? { OneTracked(seat.home.declared, p.call(ViewOf(w)), w); }
  }

  lemma {:induction false} AroundTracks<S>(
      inner: Inner, rest: View<S> -> Rest, home: Home<S>, w: World<S>, end: (Ending, World<S>))
    ensures Inside(inner, home, w).root == w.root
    ensures Around(inner, rest, home, w, end).1.root == if RunsRules(inner) then end.1.root else w.root
  {
  }

  /** A pass tracks what its rules call; its children call nothing. */
  lemma {:induction false} ValidateTracks<S>(spec: Spec<S>, mode: Mode, service: bool, stops: bool, w: World<S>)
    ensures Tracked(spec.home.declared, w, PassCalls(spec, mode, service, stops, w),
                    Validate(spec, mode, service, stops, w).1)
  {
    ExecTracks(spec.rules, RootSeat(spec, mode, stops), Started(mode, w));
    var w2 := Gated(spec, mode, RunRules(spec, mode, stops, w).1);
    RunChildrenFrame(spec.home, ChildrenOf(spec, w2), mode, stops, Say(w2, spec.valueObjects(w2.entity, w2.marked)));
  }

  function PassCalls<S>(spec: Spec<S>, mode: Mode, service: bool, stops: bool, w: World<S>): seq<TrackCall> {
    if Served(spec, service) then Calls(spec.rules, RootSeat(spec, mode, stops), Started(mode, w)) else []
  }

  /** The tracker calls behind one call on the entity: its own, its mutation's, its rules'. */
  function CallsOf<S>(spec: Spec<S>, w: World<S>, call: Call<S>): seq<TrackCall> {
    match call
    case GetCall(verb, apply, service) =>
      MutationCalls(spec, w, verb, apply) +
      if !Reaches(spec, w, verb, apply) then []
      else PassCalls(spec, ModeOf(verb), service, true, StartOf(spec, w, verb, apply))
    case IsValidCall(mode, service) =>
      if mode == Unknown || mode == Display then [] else PassCalls(spec, mode, service, true, Reset(Empty(w)))
    case TrackerCall(call) => [call]
    case _ => []
  }

  function MutationCalls<S>(spec: Spec<S>, w: World<S>, verb: Verb, apply: Apply<S>): seq<TrackCall> {
    var w0 := Capture(spec.home.clone, w);
    if verb.Updatable? && apply.Apply? then Calls(apply.body, ApplySeat(spec, w0), w0) else []
  }

  lemma {:induction false} EnteredTracks<S>(spec: Spec<S>, w: World<S>, verb: Verb, apply: Apply<S>)
    ensures Tracked(spec.home.declared, w, MutationCalls(spec, w, verb, apply), Entered(spec, w, verb, apply).1)
  {
    var w0 := Capture(spec.home.clone, w);
    if apply.Apply? { ExecTracks(apply.body, ApplySeat(spec, w0), w0); }
  }

  lemma {:induction false} GetTracks<S>(spec: Spec<S>, w: World<S>, verb: Verb, apply: Apply<S>, service: bool)
    ensures Tracked(spec.home.declared, w, CallsOf(spec, w, GetCall(verb, apply, service)),
                    Get(spec, w, verb, apply, service).0)
  {
    var start := StartOf(spec, w, verb, apply);
    var before := MutationCalls(spec, w, verb, apply);
    EnteredTracks(spec, w, verb, apply);
    if Reaches(spec, w, verb, apply) {
      ValidateTracks(spec, ModeOf(verb), service, true, start);
      var end := Pass(spec, start, ModeOf(verb), service);
      assert Verdict(spec, end, verb).0.root == end.1.root;
      TrackedOn(spec.home.declared, w, before, start, PassCalls(spec, ModeOf(verb), service, true, start), end.1);
    } else {
      assert before + [] == before;
    }
  }

  lemma {:induction false} StepTracks<S>(spec: Spec<S>, w: World<S>, call: Call<S>)
    ensures Tracked(spec.home.declared, w, CallsOf(spec, w, call), Step(spec, w, call).0)
  {
    match call
    case GetCall(verb, apply, service) => GetTracks(spec, w, verb, apply, service);
    case IsValidCall(mode, service) => ValidateTracks(spec, mode, service, true, Reset(Empty(w)));
    case TrackerCall(call) => OneTracked(spec.home.declared, call, w);
    case _ => NoneTracked(spec.home.declared, w, Step(spec, w, call).0);
  }

  function AllCalls<S>(spec: Spec<S>, w: World<S>, calls: seq<Call<S>>): seq<TrackCall> {
    if calls == [] then []
    else
      var before := calls[..|calls| - 1];
      AllCalls(spec, w, before) + CallsOf(spec, History(spec, w, before), calls[|calls| - 1])
  }

  /** Over every history of an entity: its tracked children are exactly where the tracker
      calls made on the way, by handlers, mutations and rules, take them. */
  lemma {:induction false} HistoryTracks<S>(spec: Spec<S>, w: World<S>, calls: seq<Call<S>>)
    ensures Tracked(spec.home.declared, w, AllCalls(spec, w, calls), History(spec, w, calls))
  {
    if calls != [] {
      var before, last := calls[..|calls| - 1], calls[|calls| - 1];
      var w1 := History(spec, w, before);
      HistoryTracks(spec, w, before);
      StepTracks(spec, w1, last);
      TrackedOn(spec.home.declared, w, AllCalls(spec, w, before), w1, CallsOf(spec, w1, last), Step(spec, w1, last).0);
    }
  }

  /** Load the children, then let anything happen to the entity: for every child type the
      derived operations, replayed onto the rows loaded for it, leave exactly the current
      children. */
  lemma {:induction false} EntityReplayYieldsCurrent<S>(
      spec: Spec<S>, loaded: S, items: seq<Option<T.Item<Key, Fields>>>, calls: seq<Call<S>>, typeName: string)
    ensures var w := LoadForWrite(spec, loaded, LoadItems(Fresh(), items));
            var list := ListOf(History(spec, w, calls).root.aggregates, typeName);
            Replay(LoadedRows(OfType(items, typeName)), list) == CurrentRows(list)
  {
    var w := LoadForWrite(spec, loaded, LoadItems(Fresh(), items));
    HistoryTracks(spec, w, calls);
    RootReplayYieldsCurrent(items, spec.home.declared, AllCalls(spec, w, calls), typeName);
  }
}
