/** The locked sections of Client and ProtoClient as methods, each tied to its lifecycle step. */
module ClientObjects {
  import opened Text
  import C = ClientLifecycle
  import P = ProtoLifecycle

  datatype ConnectError = AlreadyConnected | ConnectInProgress | ConnectionClosed

  class Client {
    var state: C.ConnState
    var connected: bool
    var attempt: Option<nat>
    var current: Option<nat>
    var attempts: seq<C.Attempt>
    var gens: seq<C.Generation>
    ghost var fired: seq<nat>

    ghost function State(): C.Client
      reads this
    {
      C.Client(state, connected, attempt, current, attempts, gens, fired)
    }

    constructor ()
      ensures State() == C.FRESH
    {
      state, connected, attempt, current := C.Idle, false, None, None;
      attempts, gens, fired := [], [], [];
    }

    method BeginConnect() returns (err: Option<ConnectError>)
      requires C.Inv(State())
      modifies this`state, this`attempt, this`attempts
      ensures State() == old(C.Perform(State(), C.BeginConnect))
      ensures err == if old(current).Some? then Some(AlreadyConnected)
        else if old(attempt).Some? then Some(ConnectInProgress) else None
    {
      match state {
        case Connected => return Some(AlreadyConnected);
        case Connecting => return Some(ConnectInProgress);
        case Idle =>
      }
      attempt := Some(|attempts|);
      attempts := attempts + [C.Attempt(C.Dialing, false, false)];
      state := C.Connecting;
      return None;
    }

    /** The section after a successful dial. */
    method StoreConnection(a: nat) returns (ok: bool)
      requires C.Enabled(State(), C.DialDone(a, true))
      modifies this`attempts
      ensures State() == old(C.Perform(State(), C.DialDone(a, true)))
      ensures old(C.Inv(State())) ==> ok
    {
      ok := attempt == Some(a) && state == C.Connecting;
      attempts := attempts[a := attempts[a].(phase := if ok then C.Handshaking else C.Returned(None))];
    }

    method PublishGeneration(a: nat) returns (gen: Option<nat>)
      requires C.Enabled(State(), C.Publish(a))
      modifies this`state, this`connected, this`attempt, this`current, this`attempts, this`gens
      ensures State() == old(C.Perform(State(), C.Publish(a)))
      ensures old(C.Inv(State())) ==> (gen.None? <==> old(attempts)[a].ctxDone)
      ensures gen.Some? ==> current == gen && !old(attempts)[a].ctxDone
    {
      if attempt != Some(a) || state != C.Connecting || attempts[a].ctxDone {
        attempts := attempts[a := attempts[a].(phase := C.Failing)];
        return None;
      }
      gen := Some(|gens|);
      attempts := attempts[a := attempts[a].(phase := C.Returned(gen))];
      gens := gens + [C.Generation(a, C.Open)];
      current, connected, state, attempt := gen, true, C.Connected, None;
    }

    /** In every reachable state the failing attempt is the one on record, and the client ends idle. */
    method FailConnectAttempt(a: nat)
      requires C.Enabled(State(), C.FailAttempt(a))
      modifies this`state, this`connected, this`attempt, this`attempts
      ensures State() == old(C.Perform(State(), C.FailAttempt(a)))
      ensures old(C.Inv(State())) ==> old(attempt) == Some(a) && attempt.None? && current.None? && state == C.Idle
    {
      attempts := attempts[a := attempts[a].(phase := C.Returned(None))];
      if attempt == Some(a) {
        attempt, state, connected := None, C.Idle, false;
      }
    }

    /** The locked part of Disconnect: an attempt to cancel and wait for, or a generation to close. */
    method BeginDisconnect() returns (waitFor: Option<nat>, gen: Option<nat>)
      requires C.Inv(State())
      modifies this`attempts
      ensures State() == old(C.Perform(State(), C.Disconnect))
      ensures waitFor == attempt && gen == current
      ensures waitFor.Some? ==> C.Cancelled(State(), waitFor.value)
    {
      if state == C.Connecting && attempt.Some? {
        var a := attempt.value;
        attempts := attempts[a := attempts[a].(ctxDone := true, cancelledByDisconnect := true)];
        return attempt, None;
      }
      return None, current;
    }

    /** The connMutex section of disconnectGeneration; in every reachable state it takes the callback. */
    method ReleaseGeneration(g: nat) returns (fire: bool)
      requires C.Enabled(State(), C.Release(g))
      modifies this`state, this`connected, this`current, this`gens, this`fired
      ensures State() == old(C.Perform(State(), C.Release(g)))
      ensures fire <==> old(current) == Some(g)
      ensures old(C.Inv(State())) ==> fire
    {
      gens := gens[g := gens[g].(stage := C.Released)];
      fire := current == Some(g);
      if fire {
        current, state, connected := None, C.Idle, false;
        fired := fired + [g];
      }
    }
  }

  class ProtoClient {
    const client: Client
    var activeAttempt: Option<nat>
    var attempts: seq<P.Attempt>
    var ready: bool
    ghost var closers: map<nat, nat>

    ghost function State(): P.Proto
      reads this, client
    {
      P.Proto(client.State(), activeAttempt, attempts, ready, closers)
    }

    constructor ()
      ensures State() == P.FRESH && fresh(client)
    {
      client := new Client();
      activeAttempt, attempts, ready, closers := None, [], false, map[];
    }

    /** In every reachable state an attempt starts exactly when all earlier ones are done and nothing is connected. */
    method BeginConnectAttempt(kind: P.Kind) returns (err: Option<ConnectError>)
      modifies this`activeAttempt, this`attempts
      ensures State() == old(P.Perform(State(), P.Begin(kind)))
      ensures err == if old(activeAttempt).Some? then Some(ConnectInProgress)
        else if client.connected then Some(AlreadyConnected) else None
      ensures err.Some? ==> State() == old(State())
      ensures old(P.Inv(State())) ==>
        (err.None? <==> client.current.None? && forall p :: 0 <= p < |old(attempts)| ==>
          old(attempts)[p].doneCloses == 1)
    {
      ghost var before := State();
      if P.Inv(before) {
        assert forall p :: 0 <= p < |attempts| ==> P.CallFits(client.State(), activeAttempt, p, attempts[p]);
      }
      if activeAttempt.Some? {
        assert P.Inv(before) ==> attempts[activeAttempt.value].doneCloses == 0;
        return Some(ConnectInProgress);
      }
      if client.connected {
        return Some(AlreadyConnected);
      }
      activeAttempt := Some(|attempts|);
      attempts := attempts + [P.Attempt(kind, P.Started, false, false, false, 0, None, None)];
      return None;
    }

    method FinishConnectAttempt(p: nat) returns (cancelled: bool)
      requires P.In(State(), p)
      modifies this`activeAttempt, this`attempts
      ensures State() == old(P.FinishAttempt(State(), p, attempts[p]))
      ensures cancelled == old(attempts[p].cancelled)
    {
      cancelled := attempts[p].cancelled;
      if activeAttempt == Some(p) {
        activeAttempt := None;
      }
      attempts := attempts[p := attempts[p].(cancelled := true, doneCloses := attempts[p].doneCloses + 1)];
    }

    /** The finish in the body of ConnectTo, which sets the flag: `done` is closed and the attempt is not active. */
    method FinishInBody(p: nat) returns (cancelled: bool)
      requires P.Inv(State()) && P.Enabled(State(), P.Finish(p))
      modifies this`activeAttempt, this`attempts
      ensures State() == old(P.Perform(State(), P.Finish(p))) && P.Inv(State())
      ensures activeAttempt.None? && attempts[p].doneCloses == 1
      ensures old(attempts[p].phase.Dropping?) || cancelled <==> attempts[p].phase.Closing?
    {
      P.FinishKeeps(State(), p);
      assert P.CallFits(client.State(), activeAttempt, p, attempts[p]);
      ghost var t := attempts[p];
      var dropping, g := attempts[p].phase.Dropping?, attempts[p].phase.g;
      cancelled := FinishConnectAttempt(p);
      var next := if dropping || cancelled then P.Closing(g) else P.Returning(true);
      attempts := attempts[p := attempts[p].(attemptFinished := true, phase := next)];
      assert attempts[p] == P.WithDoneClosed(P.AfterFinish(t));
    }

    /** The deferred closure: on every return `done` ends up closed once, whether or not the body closed it. */
    method RunDeferred(p: nat)
      requires P.Inv(State()) && P.Enabled(State(), P.RunDeferred(p))
      modifies this`activeAttempt, this`attempts
      ensures State() == old(P.Perform(State(), P.RunDeferred(p))) && P.Inv(State())
      ensures attempts[p].doneCloses == 1 && activeAttempt != Some(p) && attempts[p].phase.Done?
    {
      P.DeferredKeeps(State(), p);
      assert P.CallFits(client.State(), activeAttempt, p, attempts[p]);
      ghost var t := attempts[p];
      if !attempts[p].attemptFinished {
        var _ := FinishConnectAttempt(p);
      }
      attempts := attempts[p := attempts[p].(phase := P.Done(attempts[p].phase.ok))];
      assert attempts[p] == (if t.attemptFinished then t else P.WithDoneClosed(t)).(phase := P.Done(t.phase.ok));
    }

    /** A bootstrap that went well counts only for the attempt that is still active and not cancelled. */
    method CommitBootstrap(p: nat) returns (ok: bool)
      requires P.Enabled(State(), P.BootstrapDone(p, true))
      modifies this`attempts, this`ready
      ensures State() == old(P.Perform(State(), P.BootstrapDone(p, true)))
      ensures old(P.Inv(State())) ==> (ok <==> !old(attempts)[p].cancelled)
    {
      ok := activeAttempt == Some(p) && !attempts[p].cancelled;
      if ok {
        ready := true;
        var next := if attempts[p].kind.ConnectTo? then P.Checking else P.Returning(true);
        attempts := attempts[p := attempts[p].(phase := next)];
      } else {
        attempts := attempts[p := attempts[p].(phase := P.Returning(false))];
      }
      assert old(P.Inv(State())) ==> old(P.CallFits(client.State(), activeAttempt, p, attempts[p]));
    }

    /** The locked part of Disconnect. The attempt it will wait for has its `done` still open. */
    method BeginDisconnect() returns (waitFor: Option<nat>)
      requires P.Inv(State())
      modifies this`attempts
      ensures State() == old(P.Perform(State(), P.DisconnectCancels)) && P.Inv(State())
      ensures waitFor.Some? ==>
        P.In(State(), waitFor.value) && attempts[waitFor.value].doneCloses == 0 && attempts[waitFor.value].seen
      ensures waitFor.None? ==> forall p :: 0 <= p < |attempts| ==> attempts[p].doneCloses == 1
    {
      P.DisconnectKeeps(State());
      assert forall p :: 0 <= p < |attempts| ==> P.CallFits(client.State(), activeAttempt, p, attempts[p]);
      waitFor := activeAttempt;
      if waitFor.Some? {
        var p := waitFor.value;
        attempts := attempts[p := attempts[p].(cancelled := true, seen := true)];
      }
    }
  }
}
