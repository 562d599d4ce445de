/** What decides the outcome of a ConnectTo or LoadServerInfo call: told by the steps of the run. */
module ProtoHistory {
  import opened Text
  import opened ProtoLifecycle
  import opened Runs
  import C = ClientLifecycle

  /** The step is one of call p, or a Disconnect that finds it active. */
  predicate Touches(s: Proto, step: Step, p: nat)
  {
    match step
    case ReadReady(q) => q == p
    case BootstrapDone(q, _) => q == p
    case CheckBefore(q) => q == p
    case CallConnect(q) => q == p
    case ConnectReturned(q) => q == p
    case CheckAfter(q) => q == p
    case Finish(q) => q == p
    case RunDeferred(q) => q == p
    case ClosingReturned(q) => q == p
    case DisconnectCancels => s.active == Some(p)
    case _ => false
  }

  lemma Untouched(s: Proto, step: Step, p: nat)
    requires Enabled(s, step) && p < |s.attempts| && !Touches(s, step, p)
    ensures |s.attempts| <= |Perform(s, step).attempts| && Perform(s, step).attempts[p] == s.attempts[p]
  {
  }

  predicate Booted(steps: seq<Step>, i: nat, p: nat, ok: bool)
  {
    Happened(steps, i, BootstrapDone(p, ok))
  }

  predicate Quiet(steps: seq<Step>, i: nat, p: nat)
  {
    !Booted(steps, i, p, true) && !Booted(steps, i, p, false)
  }

  predicate Ends(t: Attempt, ok: bool)
  {
    t.phase == Returning(ok) || t.phase == Done(ok)
  }

  /** A bootstrap is decided at most once; one that failed ends the call, before it has touched the embedded client. */
  predicate Explained(steps: seq<Step>, i: nat, p: nat, t: Attempt)
  {
    && !(Booted(steps, i, p, true) && Booted(steps, i, p, false))
    && (t.phase.Started? || t.phase.Bootstrapping? ==> Quiet(steps, i, p))
    && (Booted(steps, i, p, false) ==> t.inner.None? && Ends(t, false))
    && (t.kind.LoadServerInfo? && Ends(t, true) ==> Booted(steps, i, p, true))
  }

  ghost predicate AllExplained(steps: seq<Step>, i: nat, attempts: seq<Attempt>)
  {
    && (forall p :: 0 <= p < |attempts| ==> Explained(steps, i, p, attempts[p]))
    && (forall p :: p >= |attempts| ==> Quiet(steps, i, p))
  }

  lemma OneExplained(steps: seq<Step>, i: nat, s: Proto, p: nat)
    requires i < |steps| && Inv(s) && Enabled(s, steps[i]) && p < |s.attempts| && Explained(steps, i, p, s.attempts[p])
    ensures Explained(steps, i + 1, p, Perform(s, steps[i]).attempts[p])
  {
    assert CallFits(s.client, s.active, p, s.attempts[p]);
    HappenedNext(steps, i, BootstrapDone(p, true));
    HappenedNext(steps, i, BootstrapDone(p, false));
    if !Touches(s, steps[i], p) {
      Untouched(s, steps[i], p);
    } else if steps[i].BootstrapDone? {
      BootstrapStep(s, p, steps[i].ok);
    } else {
      OtherStep(s, steps[i], p);
    }
  }

  lemma BootstrapStep(s: Proto, p: nat, ok: bool)
    requires Enabled(s, BootstrapDone(p, ok)) && CallFits(s.client, s.active, p, s.attempts[p])
    ensures var t := Perform(s, BootstrapDone(p, ok)).attempts[p];
      t.inner.None? && !t.phase.Started? && !t.phase.Bootstrapping? && (!ok ==> Ends(t, false))
  {
  }

  lemma OtherStep(s: Proto, step: Step, p: nat)
    requires Enabled(s, step) && p < |s.attempts| && Touches(s, step, p) && !step.BootstrapDone?
    requires CallFits(s.client, s.active, p, s.attempts[p])
    ensures var t, t' := s.attempts[p], Perform(s, step).attempts[p];
      && (t'.phase.Started? || t'.phase.Bootstrapping? ==> t.phase.Started? || t.phase.Bootstrapping?)
      && (t.inner.None? && Ends(t, false) ==> t'.inner.None? && Ends(t', false))
      && t'.kind == t.kind && (t.kind.LoadServerInfo? && Ends(t', true) ==> Ends(t, true))
  {
  }

  lemma StepExplains(steps: seq<Step>, i: nat, s: Proto)
    requires i < |steps| && Inv(s) && Enabled(s, steps[i]) && AllExplained(steps, i, s.attempts)
    ensures AllExplained(steps, i + 1, Perform(s, steps[i]).attempts)
  {
    var s', n := Perform(s, steps[i]), i + 1;
    forall p | 0 <= p < |s'.attempts|
      ensures Explained(steps, n, p, s'.attempts[p])
    {
      if p < |s.attempts| {
        OneExplained(steps, i, s, p);
      } else {
        QuietNext(steps, i, s, p);
      }
    }
    forall p: nat | p >= |s'.attempts|
      ensures Quiet(steps, n, p)
    {
      QuietNext(steps, i, s, p);
    }
  }

  lemma QuietNext(steps: seq<Step>, i: nat, s: Proto, p: nat)
    requires i < |steps| && Enabled(s, steps[i]) && AllExplained(steps, i, s.attempts) && p >= |s.attempts|
    ensures Quiet(steps, i + 1, p)
  {
    assert Quiet(steps, i, p);
    HappenedNext(steps, i, BootstrapDone(p, true));
    HappenedNext(steps, i, BootstrapDone(p, false));
  }

  lemma {:induction false} CallsExplained(run: seq<Proto>, steps: seq<Step>, i: nat)
    requires IsRun(run, steps) && i < |run|
    ensures AllExplained(steps, i, run[i].attempts)
  {
    if i > 0 {
      CallsExplained(run, steps, i - 1);
      RunsKeepInvariant(run, steps, i - 1);
      StepExplains(steps, i - 1, run[i - 1]);
    }
  }

  /** A call whose bootstrap failed returns an error and never enters the embedded client. */
  lemma FailedBootstrapEnds(run: seq<Proto>, steps: seq<Step>, i: nat, p: nat)
    requires IsRun(run, steps) && i < |run| && Booted(steps, i, p, false)
    ensures In(run[i], p) && run[i].attempts[p].inner.None? && Ends(run[i].attempts[p], false)
  {
    CallsExplained(run, steps, i);
    BootedIn(steps, i, run[i].attempts, p);
  }

  lemma BootedIn(steps: seq<Step>, i: nat, attempts: seq<Attempt>, p: nat)
    requires AllExplained(steps, i, attempts) && !Quiet(steps, i, p)
    ensures p < |attempts| && Explained(steps, i, p, attempts[p])
  {
  }

  /** A LoadServerInfo that returns well has bootstrapped. */
  lemma LoadedMeansBooted(run: seq<Proto>, steps: seq<Step>, i: nat, p: nat)
    requires IsRun(run, steps) && i < |run| && In(run[i], p)
    requires run[i].attempts[p].kind == LoadServerInfo && Ends(run[i].attempts[p], true)
    ensures Booted(steps, i, p, true) && !Booted(steps, i, p, false)
  {
    CallsExplained(run, steps, i);
    assert Explained(steps, i, p, run[i].attempts[p]);
  }

  // Cancellation

  predicate SeenBefore(run: seq<Proto>, steps: seq<Step>, i: nat, p: nat)
  {
    exists j :: 0 <= j < i && j < |steps| && j < |run| && SeesAt(run, steps, j, p)
  }

  predicate SeesAt(run: seq<Proto>, steps: seq<Step>, j: nat, p: nat)
    requires j < |steps| && j < |run|
  {
    steps[j] == DisconnectCancels && run[j].active == Some(p)
  }

  lemma SeenNext(run: seq<Proto>, steps: seq<Step>, i: nat, p: nat)
    requires i < |steps| && i < |run|
    ensures SeenBefore(run, steps, i + 1, p) <==> SeenBefore(run, steps, i, p) || SeesAt(run, steps, i, p)
  {
    if SeenBefore(run, steps, i + 1, p) {
      var j :| 0 <= j < i + 1 && j < |steps| && j < |run| && SeesAt(run, steps, j, p);
      assert j < i || SeesAt(run, steps, i, p);
    }
    if SeenBefore(run, steps, i, p) {
      var j :| 0 <= j < i && j < |steps| && j < |run| && SeesAt(run, steps, j, p);
      assert j < i + 1;
    }
  }

  lemma CancelStep(s: Proto, step: Step, p: nat)
    requires Enabled(s, step) && p < |s.attempts| && CallFits(s.client, s.active, p, s.attempts[p])
    ensures var s' := Perform(s, step);
      && p < |s'.attempts|
      && (s'.active == Some(p) ==>
            s.active == Some(p) && (s'.attempts[p].cancelled <==> s.attempts[p].cancelled || step == DisconnectCancels))
  {
    if !Touches(s, step, p) { Untouched(s, step, p); }
  }

  lemma NewCall(s: Proto, step: Step, p: nat)
    requires Enabled(s, step) && |s.attempts| <= p < |Perform(s, step).attempts|
    ensures var t := Perform(s, step).attempts[p]; !t.cancelled && t.phase == Started
  {
  }

  /** While a call is active its context is done exactly when a Disconnect has found it. */
  lemma {:induction false} CancelledExactly(run: seq<Proto>, steps: seq<Step>, i: nat, p: nat)
    requires IsRun(run, steps) && i < |run|
    ensures SeenBefore(run, steps, i, p) ==> p < |run[i].attempts|
    ensures run[i].active == Some(p) ==>
      In(run[i], p) && (run[i].attempts[p].cancelled <==> SeenBefore(run, steps, i, p))
  {
    RunsKeepInvariant(run, steps, i);
    if i > 0 {
      CancelledExactly(run, steps, i - 1, p);
      RunsKeepInvariant(run, steps, i - 1);
      SeenNext(run, steps, i - 1, p);
      if p < |run[i - 1].attempts| {
        assert CallFits(run[i - 1].client, run[i - 1].active, p, run[i - 1].attempts[p]);
        CancelStep(run[i - 1], steps[i - 1], p);
      } else if p < |run[i].attempts| {
        NewCall(run[i - 1], steps[i - 1], p);
      }
    }
  }

  // Success

  predicate WentWell(run: seq<Proto>, steps: seq<Step>, i: nat, p: nat)
  {
    exists j :: 0 <= j < i && j < |steps| && j < |run| && FinishesWellAt(run, steps, j, p)
  }

  predicate FinishesWellAt(run: seq<Proto>, steps: seq<Step>, j: nat, p: nat)
    requires j < |steps| && j < |run|
  {
    steps[j] == Finish(p) && In(run[j], p) && !run[j].attempts[p].cancelled
  }

  lemma WellNext(run: seq<Proto>, steps: seq<Step>, i: nat, p: nat)
    requires i < |steps| && i < |run|
    ensures WentWell(run, steps, i + 1, p) <==> WentWell(run, steps, i, p) || FinishesWellAt(run, steps, i, p)
  {
    if WentWell(run, steps, i + 1, p) {
      var j :| 0 <= j < i + 1 && j < |steps| && j < |run| && FinishesWellAt(run, steps, j, p);
      assert j < i || FinishesWellAt(run, steps, i, p);
    }
    if WentWell(run, steps, i, p) {
      var j :| 0 <= j < i && j < |steps| && j < |run| && FinishesWellAt(run, steps, j, p);
      assert j < i + 1;
    }
  }

  lemma EndStep(s: Proto, step: Step, p: nat)
    requires Enabled(s, step) && p < |s.attempts| && CallFits(s.client, s.active, p, s.attempts[p])
    ensures var s' := Perform(s, step);
      && p < |s'.attempts| && s'.attempts[p].kind == s.attempts[p].kind
      && (s.attempts[p].kind == LoadServerInfo ==> step != Finish(p))
      && (s.attempts[p].kind == ConnectTo ==>
            (Ends(s'.attempts[p], true) <==>
              Ends(s.attempts[p], true) || (step == Finish(p) && !s.attempts[p].cancelled)))
  {
    if !Touches(s, step, p) { Untouched(s, step, p); }
  }

  /** A ConnectTo ends well exactly when it reaches its finish without having been cancelled. */
  lemma {:induction false} SuccessExactly(run: seq<Proto>, steps: seq<Step>, i: nat, p: nat)
    requires IsRun(run, steps) && i < |run|
    ensures WentWell(run, steps, i, p) ==> In(run[i], p) && run[i].attempts[p].kind == ConnectTo
    ensures In(run[i], p) && run[i].attempts[p].kind == ConnectTo ==>
      (Ends(run[i].attempts[p], true) <==> WentWell(run, steps, i, p))
  {
    if i > 0 {
      SuccessExactly(run, steps, i - 1, p);
      RunsKeepInvariant(run, steps, i - 1);
      WellNext(run, steps, i - 1, p);
      if p < |run[i - 1].attempts| {
        assert CallFits(run[i - 1].client, run[i - 1].active, p, run[i - 1].attempts[p]);
        EndStep(run[i - 1], steps[i - 1], p);
      } else if p < |run[i].attempts| {
        NewCall(run[i - 1], steps[i - 1], p);
      }
    }
  }

  /** What each stop on the way of a call decides, from what the call finds there. */
  predicate Decided(s: Proto, step: Step, s': Proto)
    requires Enabled(s, step)
  {
    match step
    case Begin(kind) =>
      if s.active.Some? || s.client.current.Some? then s' == s
      else && s'.active == Some(|s.attempts|) && |s'.attempts| == |s.attempts| + 1
           && s'.attempts[|s.attempts|].kind == kind && s'.attempts[|s.attempts|].phase == Started
    case ReadReady(p) =>
      PhaseAfter(s', p, if s.attempts[p].kind == ConnectTo && s.ready then Checking else Bootstrapping)
    case BootstrapDone(p, ok) =>
      if ok && !s.attempts[p].cancelled
      then s'.ready && PhaseAfter(s', p, if s.attempts[p].kind == ConnectTo then Checking else Returning(true))
      else s'.ready == s.ready && PhaseAfter(s', p, Returning(false))
    case CheckBefore(p) => PhaseAfter(s', p, if s.attempts[p].cancelled then Returning(false) else Entering)
    case CallConnect(p) =>
      if s.client.current.Some? || s.client.attempt.Some? then PhaseAfter(s', p, Returning(false)) &&
        s'.client == s.client
      else PhaseAfter(s', p, Calling(|s.client.attempts|)) && s'.client.attempt == Some(|s.client.attempts|)
    case ConnectReturned(p) =>
      (match s.client.attempts[s.attempts[p].phase.a].phase.gen
       case None => PhaseAfter(s', p, Returning(false))
       case Some(g) => PhaseAfter(s', p, Holding(g)))
    case CheckAfter(p) =>
      PhaseAfter(s', p, if s.attempts[p].cancelled then Dropping(s.attempts[p].phase.g)
        else Reading(s.attempts[p].phase.g))
    case Finish(p) =>
      PhaseAfter(s', p, if s.attempts[p].cancelled then Closing(s.attempts[p].phase.g) else Returning(true))
    case RunDeferred(p) => PhaseAfter(s', p, Done(s.attempts[p].phase.ok))
    case _ => true
  }

  predicate PhaseAfter(s: Proto, p: nat, phase: Phase)
  {
    In(s, p) && s.attempts[p].phase == phase
  }

  /** In every run, each call goes where what it finds sends it, and nowhere else. */
  lemma RunsDecide(run: seq<Proto>, steps: seq<Step>, i: nat)
    requires IsRun(run, steps) && i < |steps|
    ensures Enabled(run[i], steps[i]) && Decided(run[i], steps[i], run[i + 1])
  {
    RunsKeepInvariant(run, steps, i);
    StepDecides(run[i], steps[i]);
  }

  lemma StepDecides(s: Proto, step: Step)
    requires Inv(s) && Enabled(s, step)
    ensures Decided(s, step, Perform(s, step))
  {
    if step.BootstrapDone? || step.Finish? { assert CallFits(s.client, s.active, step.p, s.attempts[step.p]); }
  }

  /** The call ends with an error without having entered the embedded client. */
  predicate EndsUnconnected(s: Proto, p: nat)
  {
    In(s, p) && s.attempts[p].inner.None? && Ends(s.attempts[p], false)
  }

  lemma UnconnectedStays(s: Proto, step: Step, p: nat)
    requires Enabled(s, step) && EndsUnconnected(s, p)
    ensures EndsUnconnected(Perform(s, step), p)
  {
    if !Touches(s, step, p) { Untouched(s, step, p); }
  }

  lemma CancelledAtCheck(s: Proto, p: nat)
    requires Inv(s) && Enabled(s, CheckBefore(p)) && s.attempts[p].cancelled
    ensures EndsUnconnected(Perform(s, CheckBefore(p)), p)
  {
    assert CallFits(s.client, s.active, p, s.attempts[p]);
  }

  lemma ActiveAtCheck(s: Proto, p: nat)
    requires Inv(s) && Enabled(s, CheckBefore(p))
    ensures s.active == Some(p)
  {
    assert CallFits(s.client, s.active, p, s.attempts[p]);
  }

  /** A call that is cancelled before it connects never enters the embedded client, and ends with an error. */
  lemma {:induction false} CancelledEarlyNeverConnects(run: seq<Proto>, steps: seq<Step>, i: nat, j: nat, p: nat)
    requires IsRun(run, steps) && i < |steps| && i < j < |run| && steps[i] == CheckBefore(p)
    requires SeenBefore(run, steps, i, p)
    ensures EndsUnconnected(run[j], p)
  {
    if j == i + 1 {
      RunsKeepInvariant(run, steps, i);
      ActiveAtCheck(run[i], p);
      CancelledExactly(run, steps, i, p);
      CancelledAtCheck(run[i], p);
    } else {
      CancelledEarlyNeverConnects(run, steps, i, j - 1, p);
      UnconnectedStays(run[j - 1], steps[j - 1], p);
    }
  }

  // Readiness

  predicate MakesReady(run: seq<Proto>, steps: seq<Step>, j: nat)
    requires j < |steps| && j < |run|
  {
    || steps[j] == LoadInfo
    || (steps[j].BootstrapDone? && steps[j].ok && In(run[j], steps[j].p) && !run[j].attempts[steps[j].p].cancelled)
  }

  /** The client knows its protocol exactly when it was loaded, or some bootstrap went well and was not cancelled. */
  lemma {:induction false} ReadyExactly(run: seq<Proto>, steps: seq<Step>, i: nat)
    requires IsRun(run, steps) && i < |run|
    ensures run[i].ready <==> exists j :: 0 <= j < i && MakesReady(run, steps, j)
  {
    if i > 0 {
      ReadyExactly(run, steps, i - 1);
      RunsKeepInvariant(run, steps, i - 1);
      ReadyStep(run[i - 1], steps[i - 1]);
      assert run[i].ready <==> run[i - 1].ready || MakesReady(run, steps, i - 1);
    }
  }

  lemma ReadyStep(s: Proto, step: Step)
    requires Inv(s) && Enabled(s, step)
    ensures Perform(s, step).ready <==>
      s.ready || step == LoadInfo || (step.BootstrapDone? && step.ok && !s.attempts[step.p].cancelled)
  {
    if step.BootstrapDone? { assert CallFits(s.client, s.active, step.p, s.attempts[step.p]); }
  }
}
