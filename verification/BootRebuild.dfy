/** The boot-rebuild goroutine (bootstrap/bootstrap.go:397-486) and the readiness gate it
    opens (bootstrap/bootstrap.go:1358-1372), as the trace of what it did. */
module BootRebuild {
  import opened Options
  import opened ViewOrder

  /** How one rebuild ends: flipped, driven by another instance, failed, or cut short by
      the context. */
  datatype Outcome = Success | LockHeld | Fatal | Cancelled

  datatype Event =
    | Deferred(view: string, source: string)
    | Attempt(view: string, index: nat)
    | Rebuilt(view: string)
    | Followed(view: string)
    | Reported(view: string)
    | Aborted(view: string)
    | SubscribersStarted
    | EngineStarted
    | ReadinessOpened
    | ReconcileStarted

  predicate StartsConsumers(e: Event) {
    e.SubscribersStarted? || e.EngineStarted? || e.ReadinessOpened? || e.ReconcileStarted?
  }

  /** The first source this run did not bring to a flip. */
  method BlockedEmbedSource(v: View, notRebuilt: set<string>) returns (blocked: Option<string>)
    ensures blocked.None? <==> forall s :: s in v.sources ==> s !in notRebuilt
    ensures blocked.Some? ==>
              && blocked.value in notRebuilt
              && exists i :: && 0 <= i < |v.sources| && v.sources[i] == blocked.value
                             && forall j :: 0 <= j < i ==> v.sources[j] !in notRebuilt
  {
    if notRebuilt == {} { return None; }
    for i := 0 to |v.sources|
      invariant forall j :: 0 <= j < i ==> v.sources[j] !in notRebuilt
    {
      if v.sources[i] in notRebuilt { return Some(v.sources[i]); }
    }
    blocked := None;
  }

  /** Plan `j` materializes the planned view `s`. */
  ghost predicate Embeds(plans: seq<View>, j: nat, s: string) {
    j < |plans| && s in plans[j].sources && s in Names(plans)
  }

  /** Every attempt came after all planned direct sources of the view were rebuilt. */
  ghost predicate SourcesRebuiltFirst(plans: seq<View>, trace: seq<Event>) {
    forall k, j, s ::
      (&& 0 <= k < |trace| && 0 <= j < |plans| && Embeds(plans, j, s)
       && trace[k].Attempt? && trace[k].view == plans[j].name) ==>
      Rebuilt(s) in trace[..k]
  }

  /** Every rebuilt view was attempted before. */
  ghost predicate RebuiltWasAttempted(trace: seq<Event>) {
    forall k :: 0 <= k < |trace| && trace[k].Rebuilt? ==> Attempted(trace[..k], trace[k].view)
  }

  /** The plan was dealt with: rebuilt here, or left to the instance that drives it. */
  ghost predicate Handled(trace: seq<Event>, name: string) {
    exists k :: && 0 <= k < |trace| && (trace[k].Rebuilt? || trace[k].Deferred? || trace[k].Followed?)
                && trace[k].view == name
  }

  ghost predicate NoConsumers(trace: seq<Event>) {
    forall k :: 0 <= k < |trace| ==> !StartsConsumers(trace[k])
  }

  ghost predicate NoFailure(trace: seq<Event>) {
    forall k :: 0 <= k < |trace| ==> !trace[k].Reported? && !trace[k].Aborted?
  }

  /** The view was left unrebuilt by this run. */
  ghost predicate LeftOut(trace: seq<Event>, name: string) {
    exists k :: 0 <= k < |trace| && (trace[k].Deferred? || trace[k].Followed?) && trace[k].view == name
  }

  /** A view is deferred only over a direct source this run left out before. */
  ghost predicate DeferralsJustified(plans: seq<View>, trace: seq<Event>) {
    forall k :: 0 <= k < |trace| && trace[k].Deferred? ==>
      && LeftOut(trace[..k], trace[k].source)
      && exists j :: 0 <= j < |plans| && plans[j].name == trace[k].view && trace[k].source in plans[j].sources
  }

  /** What the loop knows about the plans it has passed. */
  ghost predicate Passed(plans: seq<View>, i: nat, notRebuilt: set<string>, trace: seq<Event>)
    requires i <= |plans|
  {
    && (forall j :: 0 <= j < i ==> Handled(trace, plans[j].name))
    && (forall j :: 0 <= j < i && plans[j].name !in notRebuilt ==> Rebuilt(plans[j].name) in trace)
    && (forall n :: n in notRebuilt ==> LeftOut(trace, n))
  }

  lemma HandledGrows(trace: seq<Event>, e: Event, name: string)
    ensures Handled(trace, name) ==> Handled(trace + [e], name)
    ensures (e.Rebuilt? || e.Deferred? || e.Followed?) && e.view == name ==> Handled(trace + [e], name)
  {
    var more := trace + [e];
    assert more[|trace|] == e;
    if k :| && 0 <= k < |trace| && (trace[k].Rebuilt? || trace[k].Deferred? || trace[k].Followed?)
            && trace[k].view == name
    {
      assert more[k] == trace[k];
    }
  }

  lemma PassedGrows(plans: seq<View>, i: nat, notRebuilt: set<string>, more: set<string>, trace: seq<Event>, e: Event)
    requires i <= |plans| && Passed(plans, i, notRebuilt, trace)
    requires notRebuilt <= more <= notRebuilt + (if e.Deferred? || e.Followed? then {e.view} else {})
    ensures Passed(plans, i, more, trace + [e])
  {
    forall j | 0 <= j < i ensures Handled(trace + [e], plans[j].name) { HandledGrows(trace, e, plans[j].name); }
    forall n | n in more ensures LeftOut(trace + [e], n) { LeftOutGrows(trace, e, n); }
  }

  lemma LeftOutGrows(trace: seq<Event>, e: Event, name: string)
    ensures LeftOut(trace, name) || ((e.Deferred? || e.Followed?) && e.view == name) ==> LeftOut(trace + [e], name)
  {
    var more := trace + [e];
    assert more[|trace|] == e;
    if k :| 0 <= k < |trace| && (trace[k].Deferred? || trace[k].Followed?) && trace[k].view == name {
      assert more[k] == trace[k];
    }
  }

  lemma DeferralsGrow(plans: seq<View>, notRebuilt: set<string>, trace: seq<Event>, e: Event)
    requires DeferralsJustified(plans, trace) && forall n :: n in notRebuilt ==> LeftOut(trace, n)
    requires e.Deferred? ==>
               && e.source in notRebuilt
               && exists j :: 0 <= j < |plans| && plans[j].name == e.view && e.source in plans[j].sources
    ensures DeferralsJustified(plans, trace + [e])
  {
    var more := trace + [e];
    forall k | 0 <= k < |more| && more[k].Deferred?
      ensures LeftOut(more[..k], more[k].source)
      ensures exists j :: 0 <= j < |plans| && plans[j].name == more[k].view && more[k].source in plans[j].sources
    {
      assert more[..k] == trace[..k];
      assert trace[..|trace|] == trace;
      if k < |trace| { assert more[k] == trace[k]; }
    }
  }

  /** What every event of the trace keeps. */
  ghost predicate TraceOk(plans: seq<View>, trace: seq<Event>) {
    SourcesRebuiltFirst(plans, trace) && RebuiltWasAttempted(trace) && DeferralsJustified(plans, trace)
  }

  ghost predicate Attempted(trace: seq<Event>, name: string) {
    exists i :: 0 <= i < |trace| && trace[i].Attempt? && trace[i].view == name
  }

  lemma AttemptsGrow(plans: seq<View>, trace: seq<Event>, e: Event)
    requires SourcesRebuiltFirst(plans, trace) && RebuiltWasAttempted(trace)
    requires e.Attempt? ==>
               forall j, s :: 0 <= j < |plans| && Embeds(plans, j, s) && e.view == plans[j].name ==> Rebuilt(s) in trace
    requires e.Rebuilt? ==> Attempted(trace, e.view)
    ensures SourcesRebuiltFirst(plans, trace + [e]) && RebuiltWasAttempted(trace + [e])
  {
    var more := trace + [e];
    forall k, j, s | && 0 <= k < |more| && 0 <= j < |plans| && Embeds(plans, j, s)
                     && more[k].Attempt? && more[k].view == plans[j].name
      ensures Rebuilt(s) in more[..k]
    {
      assert more[..k] == trace[..k];
      assert trace[..|trace|] == trace;
    }
    forall k | 0 <= k < |more| && more[k].Rebuilt? ensures Attempted(more[..k], more[k].view) {
      assert more[..k] == trace[..k];
      assert trace[..|trace|] == trace;
    }
  }

  lemma TraceGrows(plans: seq<View>, notRebuilt: set<string>, trace: seq<Event>, e: Event)
    requires TraceOk(plans, trace) && forall n :: n in notRebuilt ==> LeftOut(trace, n)
    requires e.Attempt? ==>
               forall j, s :: 0 <= j < |plans| && Embeds(plans, j, s) && e.view == plans[j].name ==> Rebuilt(s) in trace
    requires e.Rebuilt? ==> Attempted(trace, e.view)
    requires e.Deferred? ==>
               && e.source in notRebuilt
               && exists j :: 0 <= j < |plans| && plans[j].name == e.view && e.source in plans[j].sources
    ensures TraceOk(plans, trace + [e])
  {
    AttemptsGrow(plans, trace, e);
    DeferralsGrow(plans, notRebuilt, trace, e);
  }

  /** The event a rebuild leaves, by how it ended. */
  function EndOf(o: Outcome, name: string): Event {
    match o
    case Success => Rebuilt(name)
    case LockHeld => Followed(name)
    case Fatal => Reported(name)
    case Cancelled => Aborted(name)
  }

  predicate IsEnd(e: Event) {
    e.Rebuilt? || e.Followed? || e.Reported? || e.Aborted?
  }

  /** Every attempt names its plan and is followed at once by what its outcome calls for,
      and nothing is rebuilt, left to another instance, reported or aborted otherwise. */
  ghost predicate Honoured(plans: seq<View>, outcome: nat -> Outcome, trace: seq<Event>) {
    && (forall k :: 0 <= k < |trace| && trace[k].Attempt? ==> AttemptHonoured(plans, outcome, trace, k))
    && (forall k :: 0 <= k < |trace| && IsEnd(trace[k]) ==> k > 0 && trace[k - 1].Attempt?)
  }

  ghost predicate AttemptHonoured(plans: seq<View>, outcome: nat -> Outcome, trace: seq<Event>, k: nat)
    requires k < |trace| && trace[k].Attempt?
  {
    var i := trace[k].index;
    && 0 < i <= |plans| && trace[k].view == plans[i - 1].name
    && k + 1 < |trace| && trace[k + 1] == EndOf(outcome(i - 1), trace[k].view)
  }

  /** Plans are attempted in their order, each at most once. */
  ghost predicate InOrder(trace: seq<Event>, bound: nat) {
    && (forall k :: 0 <= k < |trace| && trace[k].Attempt? ==> trace[k].index <= bound)
    && (forall k, m :: 0 <= k < m < |trace| && trace[k].Attempt? && trace[m].Attempt? ==>
        trace[k].index < trace[m].index)
  }

  lemma HonouredPair(plans: seq<View>, outcome: nat -> Outcome, i: nat, trace: seq<Event>)
    requires i < |plans| && Honoured(plans, outcome, trace) && InOrder(trace, i)
    ensures var more := trace + [Attempt(plans[i].name, i + 1)] + [EndOf(outcome(i), plans[i].name)];
            Honoured(plans, outcome, more) && InOrder(more, i + 1)
  {
  }

  lemma HonouredOne(plans: seq<View>, outcome: nat -> Outcome, bound: nat, trace: seq<Event>, e: Event)
    requires Honoured(plans, outcome, trace) && InOrder(trace, bound) && !e.Attempt? && !IsEnd(e)
    ensures Honoured(plans, outcome, trace + [e]) && InOrder(trace + [e], bound + 1) && InOrder(trace + [e], bound)
  {
  }

  /** What the loop keeps while plans are left. */
  ghost predicate Going(plans: seq<View>, outcome: nat -> Outcome, i: nat, trace: seq<Event>) {
    TraceOk(plans, trace) && NoConsumers(trace) && Honoured(plans, outcome, trace) && InOrder(trace, i)
  }

  /** What starts after the last plan. */
  ghost predicate StartedAsConfigured(trace: seq<Event>, hasTransport: bool, reconcile: bool) {
    && (EngineStarted in trace <==> ReadinessOpened in trace && hasTransport)
    && (ReconcileStarted in trace <==> ReadinessOpened in trace && hasTransport && reconcile)
  }

  ghost predicate StartOrder(trace: seq<Event>, hasTransport: bool) {
    forall k :: 0 <= k < |trace| ==> MayStart(trace[..k], trace[k], hasTransport)
  }

  /** Subscribers come first, the gate opens last but for the reconcile loop. */
  predicate MayStart(before: seq<Event>, e: Event, hasTransport: bool) {
    && (e.EngineStarted? || e.ReadinessOpened? ==> SubscribersStarted in before)
    && (e.ReadinessOpened? && hasTransport ==> EngineStarted in before)
    && (e.ReconcileStarted? ==> ReadinessOpened in before)
  }

  /** The goroutine. `outcome` says how the rebuild of each plan would end. */
  method RunBoot(plans: seq<View>, outcome: nat -> Outcome, hasTransport: bool, reconcile: bool)
     returns (trace: seq<Event>)
    requires DistinctNames(plans) && DependencyOrdered(plans)
    ensures TraceOk(plans, trace)
    ensures ConsumersWait(plans, trace)
    ensures NoFailure(trace) <==> ReadinessOpened in trace
    ensures Honoured(plans, outcome, trace) && InOrder(trace, |plans|)
    ensures StartedAsConfigured(trace, hasTransport, reconcile) && StartOrder(trace, hasTransport)
  {
    trace := [];
    var notRebuilt: set<string> := {};
    for i := 0 to |plans|
      invariant Going(plans, outcome, i, trace) && Passed(plans, i, notRebuilt, trace) && NoFailure(trace)
    {
      var blocked := BlockedEmbedSource(plans[i], notRebuilt);
      if blocked.Some? {
        HonouredOne(plans, outcome, i, trace, Deferred(plans[i].name, blocked.value));
        trace, notRebuilt := Handle(plans, i, notRebuilt, trace, Deferred(plans[i].name, blocked.value));
        continue;
      }
      var goOn;
      trace, notRebuilt, goOn := Rebuild(plans, i, outcome, notRebuilt, trace);
      if !goOn { return; }
    }
    trace := StartConsumers(plans, outcome, trace, hasTransport, reconcile);
  }

  /** One attempt: whether the loop goes on, and with what. */
  method Rebuild(plans: seq<View>, i: nat, outcome: nat -> Outcome, notRebuilt: set<string>, trace: seq<Event>)
    returns (trace': seq<Event>, notRebuilt': set<string>, goOn: bool)
    requires DistinctNames(plans) && DependencyOrdered(plans) && i < |plans|
    requires Going(plans, outcome, i, trace) && Passed(plans, i, notRebuilt, trace) && NoFailure(trace)
    requires forall s :: s in plans[i].sources ==> s !in notRebuilt
    ensures Going(plans, outcome, i + 1, trace')
    ensures if goOn then Passed(plans, i + 1, notRebuilt', trace') && NoFailure(trace') else !NoFailure(trace')
  {
    var name := plans[i].name;
    HonouredPair(plans, outcome, i, trace);
    trace' := Begin(plans, i, notRebuilt, trace);
    match outcome(i)
    case Success =>
      trace', notRebuilt' := Handle(plans, i, notRebuilt, trace', Rebuilt(name));
      goOn := true;
    case LockHeld =>
      trace', notRebuilt' := Handle(plans, i, notRebuilt, trace', Followed(name));
      goOn := true;
    case Cancelled =>
      trace' := GiveUp(plans, trace', Aborted(name));
      notRebuilt', goOn := notRebuilt, false;
    case Fatal =>
      trace' := GiveUp(plans, trace', Reported(name));
      notRebuilt', goOn := notRebuilt, false;
  }

  /** Consumers and the readiness gate come after every plan was dealt with, and never in
      a run that failed or was cancelled. */
  ghost predicate ConsumersWait(plans: seq<View>, trace: seq<Event>) {
    forall k :: 0 <= k < |trace| && StartsConsumers(trace[k]) ==> AllHandled(plans, trace[..k]) && NoFailure(trace)
  }

  ghost predicate AllHandled(plans: seq<View>, trace: seq<Event>) {
    forall j :: 0 <= j < |plans| ==> Handled(trace, plans[j].name)
  }

  /** Record the start of a rebuild. */
  method Begin(plans: seq<View>, i: nat, notRebuilt: set<string>, trace: seq<Event>) returns (trace': seq<Event>)
    requires DistinctNames(plans) && DependencyOrdered(plans) && i < |plans| && Passed(plans, i, notRebuilt, trace)
    requires TraceOk(plans, trace) && NoConsumers(trace) && NoFailure(trace)
    requires forall s :: s in plans[i].sources ==> s !in notRebuilt
    ensures trace' == trace + [Attempt(plans[i].name, i + 1)] && Attempted(trace', plans[i].name)
    ensures TraceOk(plans, trace') && NoConsumers(trace') && NoFailure(trace') && Passed(plans, i, notRebuilt, trace')
  {
    var e := Attempt(plans[i].name, i + 1);
    SourcesAreRebuilt(plans, i, notRebuilt, trace);
    TraceGrows(plans, {}, trace, e);
    PassedGrows(plans, i, notRebuilt, notRebuilt, trace, e);
    trace' := trace + [e];
    assert trace'[|trace|] == e;
  }

  /** Record how a plan was dealt with. */
  method Handle(plans: seq<View>, i: nat, notRebuilt: set<string>, trace: seq<Event>, e: Event)
    returns (trace': seq<Event>, notRebuilt': set<string>)
    requires i < |plans| && Passed(plans, i, notRebuilt, trace)
    requires TraceOk(plans, trace) && NoConsumers(trace) && NoFailure(trace)
    requires (e.Rebuilt? || e.Deferred? || e.Followed?) && e.view == plans[i].name
    requires e.Rebuilt? ==> Attempted(trace, e.view)
    requires e.Deferred? ==> e.source in notRebuilt && e.source in plans[i].sources
    ensures trace' == trace + [e] && notRebuilt' == if e.Rebuilt? then notRebuilt else notRebuilt + {e.view}
    ensures TraceOk(plans, trace') && NoConsumers(trace') && NoFailure(trace') &&
            Passed(plans, i + 1, notRebuilt', trace')
  {
    trace' := trace + [e];
    notRebuilt' := if e.Rebuilt? then notRebuilt else notRebuilt + {e.view};
    TraceGrows(plans, notRebuilt, trace, e);
    PassesOne(plans, i, notRebuilt, trace, e);
  }

  lemma PassesOne(plans: seq<View>, i: nat, notRebuilt: set<string>, trace: seq<Event>, e: Event)
    requires i < |plans| && Passed(plans, i, notRebuilt, trace)
    requires (e.Rebuilt? || e.Deferred? || e.Followed?) && e.view == plans[i].name
    ensures Passed(plans, i + 1, if e.Rebuilt? then notRebuilt else notRebuilt + {e.view}, trace + [e])
  {
    PassedGrows(plans, i, notRebuilt, if e.Rebuilt? then notRebuilt else notRebuilt + {e.view}, trace, e);
    HandledGrows(trace, e, e.view);
    assert (trace + [e])[|trace|] == e;
  }

  /** Record the failure the goroutine returns on. */
  method GiveUp(plans: seq<View>, trace: seq<Event>, e: Event) returns (trace': seq<Event>)
    requires TraceOk(plans, trace) && NoConsumers(trace) && (e.Reported? || e.Aborted?)
    ensures trace' == trace + [e] && TraceOk(plans, trace') && NoConsumers(trace') && !NoFailure(trace')
  {
    TraceGrows(plans, {}, trace, e);
    trace' := trace + [e];
    assert trace'[|trace|] == e;
  }

  /** A view that is not blocked has every planned source rebuilt already. */
  lemma SourcesAreRebuilt(plans: seq<View>, i: nat, notRebuilt: set<string>, trace: seq<Event>)
    requires DistinctNames(plans) && DependencyOrdered(plans) && i < |plans| && Passed(plans, i, notRebuilt, trace)
    requires forall s :: s in plans[i].sources ==> s !in notRebuilt
    ensures forall j, s :: 0 <= j < |plans| && Embeds(plans, j, s) && plans[i].name == plans[j].name ==>
            Rebuilt(s) in trace
  {
  }

  /** What is so once every plan was dealt with. */
  ghost predicate Starting(plans: seq<View>, outcome: nat -> Outcome, hasTransport: bool, trace: seq<Event>) {
    && TraceOk(plans, trace) && Honoured(plans, outcome, trace) && InOrder(trace, |plans|)
    && NoFailure(trace) && AllHandled(plans, trace) && ConsumersWait(plans, trace) && StartOrder(trace, hasTransport)
  }

  /** After the last plan: subscribers, then the consumer if there is a broker, then the
      gate. */
  method StartConsumers(
      plans: seq<View>, outcome: nat -> Outcome, trace: seq<Event>, hasTransport: bool, reconcile: bool)
     returns (trace': seq<Event>)
    requires Going(plans, outcome, |plans|, trace) && NoFailure(trace) && AllHandled(plans, trace)
    ensures Starting(plans, outcome, hasTransport, trace') && ReadinessOpened in trace'
    ensures StartedAsConfigured(trace', hasTransport, reconcile)
  {
    NothingStarted(plans, outcome, hasTransport, trace);
    trace' := StartSubscribers(plans, outcome, hasTransport, trace);
    if hasTransport {
      trace' := StartBroker(plans, outcome, trace', reconcile);
    } else {
      trace' := OpenGate(plans, outcome, trace');
    }
  }

  method StartSubscribers(plans: seq<View>, outcome: nat -> Outcome, hasTransport: bool, trace: seq<Event>)
    returns (trace': seq<Event>)
    requires Starting(plans, outcome, hasTransport, trace) && EngineStarted !in trace && ReconcileStarted !in trace
    ensures Starting(plans, outcome, hasTransport, trace') && SubscribersStarted in trace'
    ensures EngineStarted !in trace' && ReconcileStarted !in trace'
  {
    trace' := StartOne(plans, outcome, hasTransport, trace, SubscribersStarted);
  }

  method OpenGate(plans: seq<View>, outcome: nat -> Outcome, trace: seq<Event>) returns (trace': seq<Event>)
    requires Starting(plans, outcome, false, trace) && SubscribersStarted in trace
    requires EngineStarted !in trace && ReconcileStarted !in trace
    ensures Starting(plans, outcome, false, trace') && ReadinessOpened in trace'
    ensures EngineStarted !in trace' && ReconcileStarted !in trace'
  {
    trace' := StartOne(plans, outcome, false, trace, ReadinessOpened);
  }

  lemma NothingStarted(plans: seq<View>, outcome: nat -> Outcome, hasTransport: bool, trace: seq<Event>)
    requires Going(plans, outcome, |plans|, trace) && NoFailure(trace) && AllHandled(plans, trace)
    ensures Starting(plans, outcome, hasTransport, trace)
    ensures EngineStarted !in trace && ReadinessOpened !in trace && ReconcileStarted !in trace
  {
  }

  method StartBroker(plans: seq<View>, outcome: nat -> Outcome, trace: seq<Event>, reconcile: bool)
     returns (trace': seq<Event>)
    requires Starting(plans, outcome, true, trace) && SubscribersStarted in trace && ReconcileStarted !in trace
    ensures Starting(plans, outcome, true, trace')
    ensures EngineStarted in trace' && ReadinessOpened in trace' && (ReconcileStarted in trace' <==> reconcile)
  {
    trace' := StartOne(plans, outcome, true, trace, EngineStarted);
    trace' := StartOne(plans, outcome, true, trace', ReadinessOpened);
    if reconcile { trace' := StartOne(plans, outcome, true, trace', ReconcileStarted); }
  }

  method StartOne(plans: seq<View>, outcome: nat -> Outcome, hasTransport: bool, trace: seq<Event>, e: Event)
     returns (trace': seq<Event>)
    requires Starting(plans, outcome, hasTransport, trace) && StartsConsumers(e) && MayStart(trace, e, hasTransport)
    ensures Starting(plans, outcome, hasTransport, trace') && trace' == trace + [e]
  {
    trace' := trace + [e];
    TraceGrows(plans, {}, trace, e);
    HonouredOne(plans, outcome, |plans|, trace, e);
    StillHandled(plans, trace, trace');
    StartsInOrder(plans, hasTransport, trace, e);
  }

  lemma StartsInOrder(plans: seq<View>, hasTransport: bool, trace: seq<Event>, e: Event)
    requires NoFailure(trace) && AllHandled(plans, trace) && ConsumersWait(plans, trace) &&
             StartOrder(trace, hasTransport)
    requires StartsConsumers(e) && MayStart(trace, e, hasTransport)
    ensures ConsumersWait(plans, trace + [e]) && StartOrder(trace + [e], hasTransport)
  {
    var more := trace + [e];
    forall k | 0 <= k < |more|
      ensures StartsConsumers(more[k]) ==> AllHandled(plans, more[..k])
      ensures MayStart(more[..k], more[k], hasTransport)
    {
      assert more[..k] == if k < |trace| then trace[..k] else trace;
    }
  }

  lemma StillHandled(plans: seq<View>, trace: seq<Event>, more: seq<Event>)
    requires AllHandled(plans, trace) && trace <= more
    ensures AllHandled(plans, more)
  {
  }

  // ---- chains of embeds ----

  /** `path` follows embeds from planned view to planned view. */
  ghost predicate EmbedChain(plans: seq<View>, path: seq<string>) {
    && (forall i :: 0 <= i < |path| ==> path[i] in Names(plans))
    && (forall i :: 0 <= i < |path| - 1 ==> Link(plans, path[i], path[i + 1]))
  }

  ghost predicate Link(plans: seq<View>, name: string, source: string) {
    exists j :: 0 <= j < |plans| && plans[j].name == name && source in plans[j].sources
  }

  lemma ChainTail(plans: seq<View>, path: seq<string>)
    requires EmbedChain(plans, path) && |path| > 0
    ensures EmbedChain(plans, path[1..])
  {
  }

  /** An attempt comes after every view it embeds through any chain of planned views was
      rebuilt in this run. */
  lemma {:induction false} AttemptAfterWholeChain(plans: seq<View>, trace: seq<Event>, k: nat, path: seq<string>)
    requires TraceOk(plans, trace)
    requires k < |trace| && trace[k].Attempt? && |path| > 1 && path[0] == trace[k].view && EmbedChain(plans, path)
    ensures Rebuilt(path[|path| - 1]) in trace[..k]
    decreases |path|
  {
    assert Link(plans, path[0], path[0 + 1]);
    var j :| 0 <= j < |plans| && plans[j].name == path[0] && path[1] in plans[j].sources;
    assert path[1] in Names(plans);
    assert Embeds(plans, j, path[1]);
    assert Rebuilt(path[1]) in trace[..k];
    if |path| > 2 {
      var m :| 0 <= m < k && trace[m] == Rebuilt(path[1]);
      assert Attempted(trace[..m], path[1]);
      var i :| 0 <= i < m && trace[..m][i].Attempt? && trace[..m][i].view == path[1];
      ChainTail(plans, path);
      AttemptAfterWholeChain(plans, trace, i, path[1..]);
      assert trace[..i] <= trace[..k];
    }
  }

  // ---- the probe ----

  datatype Ready = Ok | Draining | Initializing(view: Option<(string, nat)>) | StoreDown

  /** The view under work: the last attempt of the trace. */
  function Progress(trace: seq<Event>): Option<(string, nat)> {
    if trace == [] then None
    else
      var last := trace[|trace| - 1];
      if last.Attempt? then Some((last.view, last.index)) else Progress(trace[..|trace| - 1])
  }

  /** The readiness check at a moment when the goroutine has done `sofar`. */
  function Check(draining: bool, sofar: seq<Event>, storesUp: bool): Ready {
    if draining then Draining
    else if ReadinessOpened !in sofar then Initializing(Progress(sofar))
    else if !storesUp then StoreDown
    else Ok
  }

  /** Draining goes first, then the rebuild, then the stores; only past all three is it
      ready. */
  lemma CheckSays(draining: bool, sofar: seq<Event>, storesUp: bool)
    ensures var r, rebuilt := Check(draining, sofar, storesUp), ReadinessOpened in sofar;
            && (r == Ok <==> !draining && rebuilt && storesUp)
            && (r == Draining <==> draining)
            && (r.Initializing? <==> !draining && !rebuilt)
            && (r == StoreDown <==> !draining && rebuilt && !storesUp)
  {
  }

  /** Whenever the probe of a run says ready, every plan is rebuilt or left to another
      instance, and nothing failed or was cancelled. */
  lemma ReadyMeansRebuilt(plans: seq<View>, trace: seq<Event>, moment: nat, storesUp: bool)
    requires moment <= |trace| && ConsumersWait(plans, trace)
    requires Check(false, trace[..moment], storesUp) == Ok
    ensures NoFailure(trace) && AllHandled(plans, trace[..moment])
  {
  }
}
