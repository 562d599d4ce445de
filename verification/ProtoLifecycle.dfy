/**
 Connecting and disconnecting a ProtoClient, on top of the client it embeds. A ConnectTo or
 LoadServerInfo call moves from phase to phase; every step of the embedded client, and any
 number of other callers, may come in between.
 */
module ProtoLifecycle {
  import opened Text
  import C = ClientLifecycle

  datatype Kind = ConnectTo | LoadServerInfo

  /** Where a call stands. Generations named here were returned by connectToContext. */
  datatype Phase =
    | Started
    | Bootstrapping
    | Checking
    | Entering
    | Calling(a: nat)          // inside connectToContext, as attempt a of the embedded client
    | Holding(g: nat)
    | Reading(g: nat)          // its reader has been started
    | Dropping(g: nat)         // found cancelled: finish first, disconnect after
    | Returning(ok: bool)      // past its return statement, before the deferred closure
    | Closing(g: nat)          // finished as cancelled, now in disconnectGeneration
    | Done(ok: bool)

  datatype Attempt = Attempt(
    kind: Kind,
    phase: Phase,
    attemptFinished: bool,     // the flag the deferred closure of ConnectTo looks at
    cancelled: bool,           // its context is done
    seen: bool,                // some Disconnect found it active
    doneCloses: nat,           // times its done channel was closed
    inner: Option<nat>,        // its attempt on the embedded client
    gen: Option<nat>)          // the generation that attempt returned

  datatype Proto = Proto(
    client: C.Client,
    active: Option<nat>,
    attempts: seq<Attempt>,
    ready: bool,
    closers: map<nat, nat>)    // generation to the call whose goroutine closes it and runs its callback

  const FRESH := Proto(C.FRESH, None, [], false, map[])

  datatype Step =
    | Begin(kind: Kind)
    | LoadInfo
    | ReadReady(p: nat)
    | BootstrapDone(p: nat, ok: bool)     // with commitBootstrap when it went well
    | CheckBefore(p: nat)
    | CallConnect(p: nat)
    | ConnectReturned(p: nat)
    | CheckAfter(p: nat)                  // with startGenerationReader when not cancelled
    | Finish(p: nat)                      // finishConnectAttempt in the body of ConnectTo
    | RunDeferred(p: nat)                 // the deferred closure, on every return
    | StartClosing(p: nat)                // the call's goroutine is first in closeOnce
    | ClosingReturned(p: nat)
    | DisconnectCancels                   // the locked part of Disconnect
    | ClientStep(step: C.Step)            // anything the embedded client does by other hands

  predicate In(s: Proto, p: nat)
  {
    p < |s.attempts|
  }

  predicate Enabled(s: Proto, step: Step)
  {
    match step
    case Begin(_) => true
    case LoadInfo => true
    case ReadReady(p) => In(s, p) && s.attempts[p].phase == Started
    case BootstrapDone(p, _) => In(s, p) && s.attempts[p].phase == Bootstrapping
    case CheckBefore(p) => In(s, p) && s.attempts[p].phase == Checking
    case CallConnect(p) => In(s, p) && s.attempts[p].phase == Entering
    case ConnectReturned(p) =>
      && In(s, p) && s.attempts[p].phase.Calling? && s.attempts[p].phase.a < |s.client.attempts|
      && s.client.attempts[s.attempts[p].phase.a].phase.Returned?
    case CheckAfter(p) => In(s, p) && s.attempts[p].phase.Holding?
    case Finish(p) => In(s, p) && (s.attempts[p].phase.Dropping? || s.attempts[p].phase.Reading?)
    case RunDeferred(p) => In(s, p) && s.attempts[p].phase.Returning?
    case StartClosing(p) =>
      In(s, p) && s.attempts[p].phase.Closing? && C.Enabled(s.client, C.CloseTable(s.attempts[p].phase.g))
    case ClosingReturned(p) =>
      In(s, p) && s.attempts[p].phase.Closing? && C.AtStage(s.client, s.attempts[p].phase.g, C.Released)
    case DisconnectCancels => true
    case ClientStep(step) => C.Enabled(s.client, step)
  }

  function Move(s: Proto, p: nat, phase: Phase): Proto
    requires In(s, p)
  {
    s.(attempts := s.attempts[p := s.attempts[p].(phase := phase)])
  }

  /** finishConnectAttempt: the attempt, otherwise as in t, is cancelled, no longer active, and its `done` closed. */
  function FinishAttempt(s: Proto, p: nat, t: Attempt): Proto
    requires In(s, p)
  {
    s.(active := if s.active == Some(p) then None else s.active, attempts := s.attempts[p := WithDoneClosed(t)])
  }

  function WithDoneClosed(t: Attempt): Attempt
  {
    t.(cancelled := true, doneCloses := t.doneCloses + 1)
  }

  /** Where ConnectTo goes from a finish in its body: it disconnects when it finds itself cancelled. */
  function AfterFinish(t: Attempt): Attempt
    requires t.phase.Dropping? || t.phase.Reading?
  {
    var next := if t.phase.Dropping? || t.cancelled then Closing(t.phase.g) else Returning(true);
    t.(phase := next, attemptFinished := true)
  }

  function Perform(s: Proto, step: Step): Proto
    requires Enabled(s, step)
  {
    match step
    case Begin(kind) =>
      if s.active.Some? || s.client.connected then s
      else
        s.(active := Some(|s.attempts|),
           attempts := s.attempts + [Attempt(kind, Started, false, false, false, 0, None, None)])
    case LoadInfo => s.(ready := true)
    case ReadReady(p) =>
      Move(s, p, if s.attempts[p].kind.ConnectTo? && s.ready then Checking else Bootstrapping)
    case BootstrapDone(p, ok) =>
      if !ok || s.active != Some(p) || s.attempts[p].cancelled then Move(s, p, Returning(false))
      else Move(s, p, if s.attempts[p].kind.ConnectTo? then Checking else Returning(true)).(ready := true)
    case CheckBefore(p) =>
      Move(s, p, if s.attempts[p].cancelled then Returning(false) else Entering)
    case CallConnect(p) =>
      if s.client.state != C.Idle then Move(s, p, Returning(false))
      else
        var a := |s.client.attempts|;
        s.(client := C.Perform(s.client, C.BeginConnect),
           attempts := s.attempts[p := s.attempts[p].(phase := Calling(a), inner := Some(a))])
    case ConnectReturned(p) =>
      var gen := s.client.attempts[s.attempts[p].phase.a].phase.gen;
      if gen.None? then Move(s, p, Returning(false))
      else s.(attempts := s.attempts[p := s.attempts[p].(phase := Holding(gen.value), gen := gen)])
    case CheckAfter(p) =>
      var g := s.attempts[p].phase.g;
      Move(s, p, if s.attempts[p].cancelled then Dropping(g) else Reading(g))
    case Finish(p) => FinishAttempt(s, p, AfterFinish(s.attempts[p]))
    case RunDeferred(p) =>
      var t := s.attempts[p].(phase := Done(s.attempts[p].phase.ok));
      if t.attemptFinished then s.(attempts := s.attempts[p := t]) else FinishAttempt(s, p, t)
    case StartClosing(p) =>
      var g := s.attempts[p].phase.g;
      s.(client := C.Perform(s.client, C.CloseTable(g)), closers := s.closers[g := p])
    case ClosingReturned(p) => Move(s, p, Returning(false))
    case DisconnectCancels =>
      if s.active.None? || !In(s, s.active.value) then s
      else s.(attempts := s.attempts[s.active.value := s.attempts[s.active.value].(cancelled := true, seen := true)])
    case ClientStep(step) => s.(client := C.Perform(s.client, step))
  }

  // The invariant, call by call

  /** `done` is open exactly while the call is the active one, which it is until its flag is set or it has returned. */
  predicate Finished(t: Attempt, isActive: bool)
  {
    && t.doneCloses == (if isActive then 0 else 1)
    && (isActive <==> !t.attemptFinished && !t.phase.Done?)
    && (t.attemptFinished ==> t.kind.ConnectTo? && (t.phase.Closing? || t.phase.Returning? || t.phase.Done?))
    && (t.phase.Closing? ==> t.attemptFinished)
  }

  /** A ConnectTo that a Disconnect has seen cannot end well. */
  predicate Truthful(t: Attempt)
  {
    && (t.seen ==> t.cancelled)
    && (t.phase.Dropping? ==> t.cancelled)
    && (t.kind.ConnectTo? && (t.phase == Returning(true) || t.phase == Done(true)) ==>
          t.attemptFinished && t.gen.Some? && !t.seen)
    && (t.kind.LoadServerInfo? ==>
      t.inner.None? && (t.phase.Started? || t.phase.Bootstrapping? || t.phase.Returning? || t.phase.Done?))
  }

  function PhaseGen(phase: Phase): Option<nat>
  {
    match phase
    case Holding(g) => Some(g)
    case Reading(g) => Some(g)
    case Dropping(g) => Some(g)
    case Closing(g) => Some(g)
    case _ => None
  }

  /** The generation a call returned is the one its inner attempt published, and a failed call has seen it closed. */
  predicate Tracks(client: C.Client, t: Attempt)
  {
    && (t.inner.Some? ==> t.inner.value < |client.attempts|)
    && (t.inner.None? ==> t.gen.None?)
    && (t.phase.Calling? <==> t.inner.Some? && t.gen.None? && !t.phase.Returning? && !t.phase.Done?)
    && (t.phase.Calling? ==> t.inner == Some(t.phase.a))
    && (t.inner.Some? && !t.phase.Calling? ==> client.attempts[t.inner.value].phase == C.Returned(t.gen))
    && (PhaseGen(t.phase).Some? ==> t.gen == PhaseGen(t.phase))
    && (t.gen.Some? ==> PhaseGen(t.phase).Some? || t.attemptFinished)
    && ((t.phase == Returning(false) || t.phase == Done(false)) && t.gen.Some? ==>
      C.AtStage(client, t.gen.value, C.Released))
  }

  predicate CallFits(client: C.Client, active: Option<nat>, p: nat, t: Attempt)
  {
    Finished(t, active == Some(p)) && Truthful(t) && Tracks(client, t)
  }

  ghost predicate CallsFit(s: Proto)
  {
    && (s.active.Some? ==> s.active.value < |s.attempts|)
    && forall p :: 0 <= p < |s.attempts| ==> CallFits(s.client, s.active, p, s.attempts[p])
  }

  /** Whoever closes a generation on behalf of a call has finished that call's attempt. */
  ghost predicate ClosersFinished(s: Proto)
  {
    forall g :: g in s.closers ==>
      s.closers[g] < |s.attempts| && s.attempts[s.closers[g]].gen == Some(g) && s.active != Some(s.closers[g])
  }

  ghost predicate Inv(s: Proto)
  {
    C.Inv(s.client) && CallsFit(s) && ClosersFinished(s)
  }

  // Steps of the embedded client

  /** Attempts that have returned and generations that are released stay so. */
  ghost predicate Progress(c: C.Client, c': C.Client)
  {
    && |c.attempts| <= |c'.attempts| && |c.gens| <= |c'.gens|
    && (forall a :: 0 <= a < |c.attempts| && c.attempts[a].phase.Returned? ==>
      c'.attempts[a].phase == c.attempts[a].phase)
    && (forall g :: 0 <= g < |c.gens| && c.gens[g].stage == C.Released ==> c'.gens[g].stage == C.Released)
  }

  lemma ClientProgresses(c: C.Client, step: C.Step)
    requires C.Enabled(c, step)
    ensures Progress(c, C.Perform(c, step))
  {
  }

  lemma ProgressKeepsCalls(s: Proto, client': C.Client)
    requires CallsFit(s) && Progress(s.client, client')
    ensures CallsFit(s.(client := client'))
  {
    forall p | 0 <= p < |s.attempts|
      ensures CallFits(client', s.active, p, s.attempts[p])
    {
      assert CallFits(s.client, s.active, p, s.attempts[p]);
    }
  }

  lemma ClientStepKeeps(s: Proto, step: C.Step)
    requires Inv(s) && C.Enabled(s.client, step)
    ensures Inv(s.(client := C.Perform(s.client, step)))
  {
    C.StepKeeps(s.client, step);
    ClientProgresses(s.client, step);
    ProgressKeepsCalls(s, C.Perform(s.client, step));
  }

  // Steps of a call

  /** Replacing one call by one that fits, with the same say about its generation. */
  lemma CallMoves(s: Proto, p: nat, t': Attempt)
    requires Inv(s) && In(s, p) && CallFits(s.client, s.active, p, t')
    requires s.attempts[p].gen.Some? ==> t'.gen == s.attempts[p].gen
    ensures Inv(s.(attempts := s.attempts[p := t']))
  {
    var s' := s.(attempts := s.attempts[p := t']);
    forall q | 0 <= q < |s'.attempts|
      ensures CallFits(s'.client, s'.active, q, s'.attempts[q])
    {
      assert CallFits(s.client, s.active, q, s.attempts[q]);
    }
  }

  /** The active call stops being active. */
  lemma CallFinishes(s: Proto, p: nat, t': Attempt)
    requires Inv(s) && s.active == Some(p) && CallFits(s.client, None, p, t') && t'.gen == s.attempts[p].gen
    ensures Inv(s.(active := None, attempts := s.attempts[p := t']))
  {
    var s' := s.(active := None, attempts := s.attempts[p := t']);
    forall q | 0 <= q < |s'.attempts|
      ensures CallFits(s'.client, s'.active, q, s'.attempts[q])
    {
      assert CallFits(s.client, s.active, q, s.attempts[q]);
    }
  }

  lemma FinishFits(client: C.Client, p: nat, t: Attempt)
    requires CallFits(client, Some(p), p, t) && (t.phase.Dropping? || t.phase.Reading?)
    ensures CallFits(client, None, p, WithDoneClosed(AfterFinish(t)))
  {
  }

  lemma FinishKeeps(s: Proto, p: nat)
    requires Inv(s) && Enabled(s, Finish(p))
    ensures Inv(FinishAttempt(s, p, AfterFinish(s.attempts[p])))
  {
    assert CallFits(s.client, s.active, p, s.attempts[p]);
    FinishFits(s.client, p, s.attempts[p]);
    CallFinishes(s, p, WithDoneClosed(AfterFinish(s.attempts[p])));
  }

  lemma DeferredFits(client: C.Client, p: nat, t: Attempt)
    requires CallFits(client, Some(p), p, t) && t.phase.Returning?
    ensures CallFits(client, None, p, WithDoneClosed(t.(phase := Done(t.phase.ok))))
  {
  }

  /** The closure finishes the attempt exactly when the body has not. */
  lemma DeferredKeeps(s: Proto, p: nat)
    requires Inv(s) && Enabled(s, RunDeferred(p))
    ensures s.active == Some(p) <==> !s.attempts[p].attemptFinished
    ensures Inv(Perform(s, RunDeferred(p)))
  {
    var t := s.attempts[p];
    assert CallFits(s.client, s.active, p, t);
    if t.attemptFinished {
      CallMoves(s, p, t.(phase := Done(t.phase.ok)));
    } else {
      DeferredFits(s.client, p, t);
      CallFinishes(s, p, WithDoneClosed(t.(phase := Done(t.phase.ok))));
    }
  }

  lemma BeginKeeps(s: Proto, kind: Kind)
    requires Inv(s)
    ensures Inv(Perform(s, Begin(kind)))
  {
    var s' := Perform(s, Begin(kind));
    forall q | 0 <= q < |s'.attempts|
      ensures CallFits(s'.client, s'.active, q, s'.attempts[q])
    {
      if q < |s.attempts| { assert CallFits(s.client, s.active, q, s.attempts[q]); }
    }
  }

  lemma CallConnectKeeps(s: Proto, p: nat)
    requires Inv(s) && Enabled(s, CallConnect(p))
    ensures Inv(Perform(s, CallConnect(p)))
  {
    assert CallFits(s.client, s.active, p, s.attempts[p]);
    if s.client.state == C.Idle {
      ClientStepKeeps(s, C.BeginConnect);
      var s1 := s.(client := C.Perform(s.client, C.BeginConnect));
      CallMoves(s1, p, Perform(s, CallConnect(p)).attempts[p]);
    } else {
      CallMoves(s, p, s.attempts[p].(phase := Returning(false)));
    }
  }

  lemma StartClosingKeeps(s: Proto, p: nat)
    requires Inv(s) && Enabled(s, StartClosing(p))
    ensures Inv(Perform(s, StartClosing(p)))
  {
    var g := s.attempts[p].phase.g;
    assert CallFits(s.client, s.active, p, s.attempts[p]);
    ClientStepKeeps(s, C.CloseTable(g));
    CloserJoins(s.(client := C.Perform(s.client, C.CloseTable(g))), p, g);
  }

  lemma CloserJoins(s: Proto, p: nat, g: nat)
    requires ClosersFinished(s) && In(s, p) && s.attempts[p].gen == Some(g) && s.active != Some(p)
    ensures ClosersFinished(s.(closers := s.closers[g := p]))
  {
  }

  /** A call that has not entered the embedded client moves on or gives up. */
  lemma EarlyMove(s: Proto, p: nat, phase: Phase)
    requires Inv(s) && In(s, p)
    requires var t := s.attempts[p]; t.phase.Started? || t.phase.Bootstrapping? || t.phase.Checking?
    requires var t := s.attempts[p];
      || phase == Bootstrapping || phase == Returning(false)
      || (t.kind.ConnectTo? && (phase == Checking || phase == Entering))
      || (t.kind.LoadServerInfo? && phase == Returning(true))
    ensures Inv(Move(s, p, phase))
  {
    assert CallFits(s.client, s.active, p, s.attempts[p]);
    CallMoves(s, p, s.attempts[p].(phase := phase));
  }

  lemma EarlyStepKeeps(s: Proto, step: Step)
    requires Inv(s) && Enabled(s, step) && (step.ReadReady? || step.BootstrapDone? || step.CheckBefore?)
    ensures Inv(Perform(s, step))
  {
    assert CallFits(s.client, s.active, step.p, s.attempts[step.p]);
    EarlyMove(s, step.p, Perform(s, step).attempts[step.p].phase);
  }

  lemma ConnectReturnedKeeps(s: Proto, p: nat)
    requires Inv(s) && Enabled(s, ConnectReturned(p))
    ensures Inv(Perform(s, ConnectReturned(p)))
  {
    assert CallFits(s.client, s.active, p, s.attempts[p]);
    var gen := s.client.attempts[s.attempts[p].phase.a].phase.gen;
    if gen.None? {
      CallMoves(s, p, s.attempts[p].(phase := Returning(false)));
    } else {
      CallMoves(s, p, s.attempts[p].(phase := Holding(gen.value), gen := gen));
    }
  }

  lemma CheckAfterKeeps(s: Proto, p: nat)
    requires Inv(s) && Enabled(s, CheckAfter(p))
    ensures Inv(Perform(s, CheckAfter(p)))
  {
    assert CallFits(s.client, s.active, p, s.attempts[p]);
    CallMoves(s, p, Perform(s, CheckAfter(p)).attempts[p]);
  }

  lemma ClosingReturnedKeeps(s: Proto, p: nat)
    requires Inv(s) && Enabled(s, ClosingReturned(p))
    ensures Inv(Perform(s, ClosingReturned(p)))
  {
    assert CallFits(s.client, s.active, p, s.attempts[p]);
    CallMoves(s, p, s.attempts[p].(phase := Returning(false)));
  }

  lemma DisconnectKeeps(s: Proto)
    requires Inv(s)
    ensures Inv(Perform(s, DisconnectCancels))
  {
    if s.active.Some? {
      var p := s.active.value;
      assert CallFits(s.client, s.active, p, s.attempts[p]);
      CallMoves(s, p, s.attempts[p].(cancelled := true, seen := true));
    }
  }

  lemma StepKeeps(s: Proto, step: Step)
    requires Inv(s) && Enabled(s, step)
    ensures Inv(Perform(s, step))
  {
    match step
    case Begin(kind) => BeginKeeps(s, kind);
    case LoadInfo =>
    case CallConnect(p) => CallConnectKeeps(s, p);
    case Finish(p) => FinishKeeps(s, p);
    case RunDeferred(p) => DeferredKeeps(s, p);
    case StartClosing(p) => StartClosingKeeps(s, p);
    case DisconnectCancels => DisconnectKeeps(s);
    case ClientStep(cs) => ClientStepKeeps(s, cs);
    case ConnectReturned(p) => ConnectReturnedKeeps(s, p);
    case CheckAfter(p) => CheckAfterKeeps(s, p);
    case ClosingReturned(p) => ClosingReturnedKeeps(s, p);
    case _ => EarlyStepKeeps(s, step);
  }

  // Runs

  ghost predicate IsRun(run: seq<Proto>, steps: seq<Step>)
  {
    && |run| == |steps| + 1 && run[0] == FRESH
    && forall i :: 0 <= i < |steps| ==> Enabled(run[i], steps[i]) && run[i + 1] == Perform(run[i], steps[i])
  }

  lemma {:induction false} RunsKeepInvariant(run: seq<Proto>, steps: seq<Step>, i: nat)
    requires IsRun(run, steps) && i < |run|
    ensures Inv(run[i])
  {
    if i > 0 {
      RunsKeepInvariant(run, steps, i - 1);
      StepKeeps(run[i - 1], steps[i - 1]);
    }
  }

  /**
   `done` is closed exactly once, by the body or by the deferred closure: not while the call is
   active, and once for good after.
   */
  lemma DoneClosedOnce(run: seq<Proto>, steps: seq<Step>, i: nat, p: nat)
    requires IsRun(run, steps) && i < |run| && p < |run[i].attempts|
    ensures run[i].attempts[p].doneCloses == if run[i].active == Some(p) then 0 else 1
    ensures run[i].attempts[p].phase.Done? ==> run[i].attempts[p].doneCloses == 1
  {
    RunsKeepInvariant(run, steps, i);
    assert CallFits(run[i].client, run[i].active, p, run[i].attempts[p]);
  }

  /** A returned ConnectTo that failed left none of its generations current, and all of them closed. */
  lemma FailedConnectLeavesNothing(run: seq<Proto>, steps: seq<Step>, i: nat, p: nat, g: nat)
    requires IsRun(run, steps) && i < |run| && p < |run[i].attempts| && run[i].attempts[p].phase == Done(false)
    requires g < |run[i].client.gens| && run[i].attempts[p].inner == Some(run[i].client.gens[g].owner)
    ensures run[i].client.gens[g].stage == C.Released && run[i].client.current != Some(g)
  {
    RunsKeepInvariant(run, steps, i);
    assert C.Owned(run[i].client.attempts, run[i].client.gens, g);
    assert CallFits(run[i].client, run[i].active, p, run[i].attempts[p]);
  }

  predicate Seen(s: Proto, p: nat)
  {
    In(s, p) && s.attempts[p].seen && s.attempts[p].kind == ConnectTo
  }

  lemma SeenStays(s: Proto, step: Step, p: nat)
    requires Seen(s, p) && Enabled(s, step)
    ensures Seen(Perform(s, step), p)
  {
  }

  lemma {:induction false} SeenEverAfter(run: seq<Proto>, steps: seq<Step>, i: nat, j: nat, p: nat)
    requires IsRun(run, steps) && i < |steps| && steps[i].DisconnectCancels? && i < j < |run|
    requires run[i].active == Some(p) && In(run[i], p) && run[i].attempts[p].kind == ConnectTo
    ensures Seen(run[j], p)
  {
    if j > i + 1 {
      SeenEverAfter(run, steps, i, j - 1, p);
      SeenStays(run[j - 1], steps[j - 1], p);
    }
  }

  /**
   If a Disconnect finds a ConnectTo active, that call cannot return without an error, and once
   it has returned no generation it made is current.
   */
  lemma SeenConnectFails(run: seq<Proto>, steps: seq<Step>, i: nat, j: nat, p: nat)
    requires IsRun(run, steps) && i < |steps| && steps[i].DisconnectCancels? && i < j < |run|
    requires run[i].active == Some(p) && In(run[i], p) && run[i].attempts[p].kind == ConnectTo
    ensures In(run[j], p)
    ensures run[j].attempts[p].phase.Done? ==>
      && !run[j].attempts[p].phase.ok
      && forall g :: 0 <= g < |run[j].client.gens| && run[j].attempts[p].inner == Some(run[j].client.gens[g].owner) ==>
           run[j].client.current != Some(g)
  {
    SeenEverAfter(run, steps, i, j, p);
    RunsKeepInvariant(run, steps, j);
    assert CallFits(run[j].client, run[j].active, p, run[j].attempts[p]);
    if run[j].attempts[p].phase.Done? {
      forall g | 0 <= g < |run[j].client.gens| && run[j].attempts[p].inner == Some(run[j].client.gens[g].owner)
        ensures run[j].client.current != Some(g)
      {
        FailedConnectLeavesNothing(run, steps, j, p, g);
      }
    }
  }

  /**
   The goroutine of a ConnectTo only ever closes a generation, and so runs the disconnect
   callback, after its own attempt has stopped being the active one and its `done` is closed:
   the callback's wait for the active attempt is never a wait for itself.
   */
  lemma CallbackNeverWaitsForItself(run: seq<Proto>, steps: seq<Step>, i: nat, g: nat)
    requires IsRun(run, steps) && i < |run| && g in run[i].closers
    ensures In(run[i], run[i].closers[g]) && run[i].active != Some(run[i].closers[g])
    ensures run[i].attempts[run[i].closers[g]].doneCloses == 1
  {
    RunsKeepInvariant(run, steps, i);
    DoneClosedOnce(run, steps, i, run[i].closers[g]);
  }

  /**
   Call p, in disconnectGeneration, waits for call q: until q, first in closeOnce, has released the
   generation; or, released by p itself, in the callback, for the attempt that is active.
   */
  predicate WaitsOn(s: Proto, p: nat, q: nat)
  {
    && In(s, p) && s.attempts[p].phase.Closing?
    && var g := s.attempts[p].phase.g;
       && g in s.closers
       && if C.AtStage(s.client, g, C.Released) then s.closers[g] == p && s.active == Some(q)
          else s.closers[g] == q && q != p
  }

  /** Whoever is waited for waits for nobody, so waits never form a cycle. */
  lemma NobodyWaitsForAWaiter(run: seq<Proto>, steps: seq<Step>, i: nat, p: nat, q: nat, r: nat)
    requires IsRun(run, steps) && i < |run| && WaitsOn(run[i], p, q)
    ensures p != q && !WaitsOn(run[i], q, r)
  {
    RunsKeepInvariant(run, steps, i);
    if C.AtStage(run[i].client, run[i].attempts[p].phase.g, C.Released) {
      ActiveNeverWaits(run, steps, i, q, r);
      ActiveNeverWaits(run, steps, i, q, q);
    } else {
      CloserNeverWaits(run[i], p, q, r);
    }
  }

  lemma CloserNeverWaits(s: Proto, p: nat, q: nat, r: nat)
    requires CallsFit(s) && ClosersFinished(s) && WaitsOn(s, p, q)
    requires !C.AtStage(s.client, s.attempts[p].phase.g, C.Released)
    ensures !WaitsOn(s, q, r)
  {
    assert CallFits(s.client, s.active, q, s.attempts[q]);
  }

  /** Nor does an active attempt wait for a call, whoever waits for its `done`, be it a Disconnect or a callback. */
  lemma ActiveNeverWaits(run: seq<Proto>, steps: seq<Step>, i: nat, q: nat, r: nat)
    requires IsRun(run, steps) && i < |run| && run[i].active == Some(q)
    ensures !WaitsOn(run[i], q, r)
  {
    RunsKeepInvariant(run, steps, i);
    assert CallFits(run[i].client, run[i].active, q, run[i].attempts[q]);
  }
}
