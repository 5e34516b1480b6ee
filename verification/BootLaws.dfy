/** What a boot run does with each plan, from the outcomes alone
    (bootstrap/bootstrap.go:397-470): which plans are attempted, rebuilt, followed, deferred
    or given up, and when the run opens readiness. */
module BootLaws {
  import opened Options
  import opened ViewOrder
  import opened BootRebuild

  /** What RunBoot promises of its trace. */
  ghost predicate BootTrace(plans: seq<View>, outcome: nat -> Outcome, trace: seq<Event>) {
    && DistinctNames(plans)
    && TraceOk(plans, trace) && ConsumersWait(plans, trace) && (NoFailure(trace) <==> ReadinessOpened in trace)
    && Honoured(plans, outcome, trace) && InOrder(trace, |plans|)
  }

  // ---- attempts and how they end ----

  /** The attempt an end belongs to. */
  lemma EndOfAttempt(plans: seq<View>, outcome: nat -> Outcome, trace: seq<Event>, k: nat) returns (i: nat)
    requires Honoured(plans, outcome, trace) && k < |trace| && IsEnd(trace[k])
    ensures i < |plans| && Attempted(trace[..k], plans[i].name) && trace[k] == EndOf(outcome(i), plans[i].name)
  {
    var m := k - 1;
    assert trace[m].Attempt? && AttemptHonoured(plans, outcome, trace, m);
    i := trace[m].index - 1;
    assert trace[..k][m] == trace[m];
  }

  lemma EndOfNamed(plans: seq<View>, outcome: nat -> Outcome, trace: seq<Event>, e: Event, i: nat)
    requires DistinctNames(plans) && Honoured(plans, outcome, trace) && i < |plans|
    requires IsEnd(e) && e.view == plans[i].name && e in trace
    ensures Attempted(trace, plans[i].name) && e == EndOf(outcome(i), plans[i].name)
  {
    var k :| 0 <= k < |trace| && trace[k] == e;
    var j := EndOfAttempt(plans, outcome, trace, k);
    assert plans[j].name == e.view;
    var m :| 0 <= m < k && trace[..k][m].Attempt? && trace[..k][m].view == plans[j].name;
    assert trace[m].Attempt?;
  }

  lemma AttemptEnds(plans: seq<View>, outcome: nat -> Outcome, trace: seq<Event>, i: nat)
    requires DistinctNames(plans) && Honoured(plans, outcome, trace) && i < |plans| && Attempted(trace, plans[i].name)
    ensures EndOf(outcome(i), plans[i].name) in trace
  {
    var k :| 0 <= k < |trace| && trace[k].Attempt? && trace[k].view == plans[i].name;
    assert AttemptHonoured(plans, outcome, trace, k);
    assert trace[k + 1] in trace;
  }

  /** A plan is rebuilt, left to another instance, reported or aborted exactly when it was
      attempted and its rebuild ended that way. */
  lemma EndsIff(plans: seq<View>, outcome: nat -> Outcome, trace: seq<Event>, i: nat)
    requires BootTrace(plans, outcome, trace) && i < |plans|
    ensures var name := plans[i].name;
            && (Rebuilt(name) in trace <==> Attempted(trace, name) && outcome(i) == Success)
            && (Followed(name) in trace <==> Attempted(trace, name) && outcome(i) == LockHeld)
            && (Reported(name) in trace <==> Attempted(trace, name) && outcome(i) == Fatal)
            && (Aborted(name) in trace <==> Attempted(trace, name) && outcome(i) == Cancelled)
  {
    var name := plans[i].name;
    if Attempted(trace, name) { AttemptEnds(plans, outcome, trace, i); }
    if Rebuilt(name) in trace { EndOfNamed(plans, outcome, trace, Rebuilt(name), i); }
    if Followed(name) in trace { EndOfNamed(plans, outcome, trace, Followed(name), i); }
    if Reported(name) in trace { EndOfNamed(plans, outcome, trace, Reported(name), i); }
    if Aborted(name) in trace { EndOfNamed(plans, outcome, trace, Aborted(name), i); }
  }

  // ---- chains to a view held elsewhere ----

  /** A chain of planned embeds leads from plan `j` to plan `i`. */
  ghost predicate Leads(plans: seq<View>, path: seq<string>, j: nat, i: nat) {
    && j < |plans| && i < |plans| && |path| > 1 && EmbedChain(plans, path)
    && path[0] == plans[j].name && path[|path| - 1] == plans[i].name
  }

  /** An attempted plan has every view it embeds through any chain rebuilt here, so their
      rebuilds succeeded. */
  lemma ChainSucceeded(plans: seq<View>, outcome: nat -> Outcome, trace: seq<Event>, path: seq<string>, j: nat, i: nat)
    requires BootTrace(plans, outcome, trace) && Leads(plans, path, j, i) && Attempted(trace, plans[j].name)
    ensures outcome(i) == Success
  {
    var k :| 0 <= k < |trace| && trace[k].Attempt? && trace[k].view == plans[j].name;
    AttemptAfterWholeChain(plans, trace, k, path);
    assert Rebuilt(plans[i].name) in trace;
    EndsIff(plans, outcome, trace, i);
  }

  /** The plan embeds, through some chain, a view another instance is rebuilding. */
  ghost predicate HeldElsewhere(plans: seq<View>, outcome: nat -> Outcome, j: nat) {
    exists path, i :: Leads(plans, path, j, i) && outcome(i) == LockHeld
  }

  ghost predicate IsDeferred(trace: seq<Event>, name: string) {
    exists k :: 0 <= k < |trace| && trace[k].Deferred? && trace[k].view == name
  }

  lemma NamedIs(plans: seq<View>, i: nat, n: string)
    requires i < |plans| && plans[i].name == n
    ensures n in Names(plans)
  {
  }

  lemma LinkChain(plans: seq<View>, j: nat, i: nat)
    requires j < |plans| && i < |plans| && plans[i].name in plans[j].sources
    ensures Leads(plans, [plans[j].name, plans[i].name], j, i)
  {
    var path := [plans[j].name, plans[i].name];
    NamedIs(plans, j, path[0]);
    NamedIs(plans, i, path[1]);
    assert Link(plans, path[0], path[0 + 1]);
  }

  lemma LongerChain(plans: seq<View>, j: nat, m: nat, path: seq<string>, i: nat)
    requires j < |plans| && Leads(plans, path, m, i) && plans[m].name in plans[j].sources
    ensures Leads(plans, [plans[j].name] + path, j, i)
  {
    var more := [plans[j].name] + path;
    NamedIs(plans, j, more[0]);
    assert Link(plans, plans[j].name, path[0]);
    forall k | 0 <= k < |more| - 1 ensures Link(plans, more[k], more[k + 1]) {
      if k > 0 {
        var l := k - 1;
        assert Link(plans, path[l], path[l + 1]);
      }
    }
  }

  /** Every deferral goes back to a view held elsewhere. */
  lemma {:induction false} DeferredIsHeld(plans: seq<View>, outcome: nat -> Outcome, trace: seq<Event>, k: nat, j: nat)
    requires BootTrace(plans, outcome, trace) && k < |trace| && trace[k].Deferred?
    requires j < |plans| && trace[k].view == plans[j].name
    ensures HeldElsewhere(plans, outcome, j)
    decreases k
  {
    var s := trace[k].source;
    assert s in plans[j].sources;
    var m :| 0 <= m < k && (trace[..k][m].Deferred? || trace[..k][m].Followed?) && trace[..k][m].view == s;
    var e := trace[m];
    assert e == trace[..k][m];
    if e.Followed? {
      var i := EndOfAttempt(plans, outcome, trace, m);
      assert plans[i].name == s && outcome(i) == LockHeld;
      LinkChain(plans, j, i);
    } else {
      var i :| 0 <= i < |plans| && plans[i].name == e.view && e.source in plans[i].sources;
      DeferredIsHeld(plans, outcome, trace, m, i);
      var path, l :| Leads(plans, path, i, l) && outcome(l) == LockHeld;
      LongerChain(plans, j, i, path, l);
    }
  }

  lemma HandledHow(plans: seq<View>, outcome: nat -> Outcome, trace: seq<Event>, i: nat)
    requires BootTrace(plans, outcome, trace) && i < |plans| && Handled(trace, plans[i].name)
    ensures IsDeferred(trace, plans[i].name) || (Attempted(trace, plans[i].name) && outcome(i) in {Success, LockHeld})
  {
    var name := plans[i].name;
    var k :| && 0 <= k < |trace| && (trace[k].Rebuilt? || trace[k].Deferred? || trace[k].Followed?)
             && trace[k].view == name;
    if !trace[k].Deferred? {
      assert trace[k] in trace;
      EndOfNamed(plans, outcome, trace, trace[k], i);
      EndsIff(plans, outcome, trace, i);
    }
  }

  /** In a run that opens readiness a plan is deferred exactly when it embeds, through some
      chain, a view another instance is rebuilding; every other plan is attempted. */
  lemma DeferredIff(plans: seq<View>, outcome: nat -> Outcome, trace: seq<Event>, j: nat)
    requires BootTrace(plans, outcome, trace) && ReadinessOpened in trace && j < |plans|
    ensures IsDeferred(trace, plans[j].name) <==> HeldElsewhere(plans, outcome, j)
    ensures Attempted(trace, plans[j].name) <==> !HeldElsewhere(plans, outcome, j)
  {
    AllHandledAtLast(plans, trace);
    HandledHow(plans, outcome, trace, j);
    if k :| 0 <= k < |trace| && trace[k].Deferred? && trace[k].view == plans[j].name {
      DeferredIsHeld(plans, outcome, trace, k, j);
    }
    if HeldElsewhere(plans, outcome, j) && Attempted(trace, plans[j].name) {
      var path, i :| Leads(plans, path, j, i) && outcome(i) == LockHeld;
      ChainSucceeded(plans, outcome, trace, path, j, i);
    }
  }

  lemma AllHandledAtLast(plans: seq<View>, trace: seq<Event>)
    requires ConsumersWait(plans, trace) && ReadinessOpened in trace
    ensures AllHandled(plans, trace)
  {
    var k :| 0 <= k < |trace| && trace[k] == ReadinessOpened;
    assert StartsConsumers(trace[k]);
    StillHandled(plans, trace[..k], trace);
  }

  ghost predicate Fails(outcome: nat -> Outcome, i: nat) {
    outcome(i) == Fatal || outcome(i) == Cancelled
  }

  /** The run opens readiness exactly when every plan whose rebuild would fail or be cut
      short is one it never comes to attempt. */
  lemma ReadyIff(plans: seq<View>, outcome: nat -> Outcome, trace: seq<Event>)
    requires BootTrace(plans, outcome, trace)
    ensures ReadinessOpened in trace <==>
            forall i :: 0 <= i < |plans| && Fails(outcome, i) ==> HeldElsewhere(plans, outcome, i)
  {
    if ReadinessOpened in trace {
      forall i | 0 <= i < |plans| && Fails(outcome, i) ensures HeldElsewhere(plans, outcome, i) {
        DeferredIff(plans, outcome, trace, i);
        AllHandledAtLast(plans, trace);
        HandledHow(plans, outcome, trace, i);
      }
    } else {
      FailureIsDue(plans, outcome, trace);
    }
  }

  lemma FailureIsDue(plans: seq<View>, outcome: nat -> Outcome, trace: seq<Event>)
    requires BootTrace(plans, outcome, trace) && !NoFailure(trace)
    ensures exists i :: 0 <= i < |plans| && Fails(outcome, i) && !HeldElsewhere(plans, outcome, i)
  {
    var k :| 0 <= k < |trace| && (trace[k].Reported? || trace[k].Aborted?);
    var i := EndOfAttempt(plans, outcome, trace, k);
    assert trace[k] in trace;
    EndOfNamed(plans, outcome, trace, trace[k], i);
    EndsIff(plans, outcome, trace, i);
    if path, l :| Leads(plans, path, i, l) && outcome(l) == LockHeld {
      ChainSucceeded(plans, outcome, trace, path, i, l);
    }
    assert Fails(outcome, i) && !HeldElsewhere(plans, outcome, i);
  }

  // ---- the probe of a run ----

  /** The last attempt of a trace. */
  ghost predicate LastAttempt(trace: seq<Event>, k: nat) {
    k < |trace| && trace[k].Attempt? && forall l :: k < l < |trace| ==> !trace[l].Attempt?
  }

  lemma {:induction false} ProgressIsLast(trace: seq<Event>)
    ensures Progress(trace).None? <==> forall k :: 0 <= k < |trace| ==> !trace[k].Attempt?
    ensures forall k: nat :: LastAttempt(trace, k) ==> Progress(trace) == Some((trace[k].view, trace[k].index))
  {
    if trace != [] {
      var n := |trace| - 1;
      var before := trace[..n];
      ProgressIsLast(before);
      assert forall k :: 0 <= k < n ==> before[k] == trace[k];
      if !trace[n].Attempt? {
        forall k: nat | LastAttempt(trace, k) ensures Progress(trace) == Some((trace[k].view, trace[k].index)) {
          assert LastAttempt(before, k);
        }
      }
    }
  }

  lemma {:induction false} LastAttemptExists(trace: seq<Event>) returns (k: nat)
    requires Progress(trace).Some?
    ensures LastAttempt(trace, k)
  {
    var n := |trace| - 1;
    k := n;
    if !trace[n].Attempt? {
      k := LastAttemptExists(trace[..n]);
      assert forall l :: 0 <= l < n ==> trace[..n][l] == trace[l];
    }
  }

  /** Until it is ready the probe of a run names the plan under work, with its place among
      the plans. */
  lemma ProbeNamesPlan(plans: seq<View>, outcome: nat -> Outcome, trace: seq<Event>, moment: nat, storesUp: bool)
    requires BootTrace(plans, outcome, trace) && moment <= |trace|
    ensures var r := Check(false, trace[..moment], storesUp);
            r.Initializing? && r.view.Some? ==>
              var (name, index) := r.view.value;
              && 1 <= index <= |plans| && plans[index - 1].name == name
              && Attempted(trace[..moment], name)
  {
    var sofar := trace[..moment];
    if Progress(sofar).Some? {
      ProgressIsLast(sofar);
      var k := LastAttemptExists(sofar);
      assert sofar[k] == trace[k];
      assert AttemptHonoured(plans, outcome, trace, k);
    }
  }

  /** Once ready, a run stays ready for as long as its stores are up and it is not draining. */
  lemma ProbeStaysReady(trace: seq<Event>, moment: nat, later: nat)
    requires moment <= later <= |trace| && Check(false, trace[..moment], true) == Ok
    ensures Check(false, trace[..later], true) == Ok
  {
    var k :| 0 <= k < moment && trace[..moment][k] == ReadinessOpened;
    assert trace[..later][k] == ReadinessOpened;
  }
}
