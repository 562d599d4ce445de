/**
 Connecting and disconnecting a client. Connect attempts, disconnects and the closing of
 connection generations run concurrently; each step below is one section under connMutex,
 or one action of an attempt or of a generation's closeOnce between two such sections.
 */
module ClientLifecycle {
  import opened Text

  datatype ConnState = Idle | Connecting | Connected

  /** How far a connect attempt has come; `Returned(Some(g))` published generation g. */
  datatype Phase = Dialing | Handshaking | Shaken | Failing | Returned(gen: Option<nat>)

  datatype Attempt = Attempt(phase: Phase, ctxDone: bool, cancelledByDisconnect: bool)

  /** How far the one closing of a generation has come. */
  datatype Stage = Open | Closed | Signalled | Released

  datatype Generation = Generation(owner: nat, stage: Stage)

  datatype Client = Client(
    state: ConnState,
    connected: bool,
    attempt: Option<nat>,
    current: Option<nat>,
    attempts: seq<Attempt>,
    gens: seq<Generation>,
    fired: seq<nat>)          // generations whose closing took the disconnect callback

  const FRESH := Client(Idle, false, None, None, [], [], [])

  datatype Step =
    | BeginConnect
    | CancelContext(a: nat)               // timeout, or the caller's context
    | DialDone(a: nat, ok: bool)
    | HandshakeDone(a: nat, ok: bool)
    | Publish(a: nat)
    | FailAttempt(a: nat)
    | Disconnect                          // the locked part, finding an attempt or nothing to cancel
    | CloseTable(g: nat)                  // first caller of closeOnce: closed = true, table emptied
    | SignalClosed(g: nat)                // closeCh and the connection are closed
    | Release(g: nat)                     // the connMutex section of disconnectGeneration

  predicate InPhase(c: Client, a: nat, phase: Phase)
  {
    a < |c.attempts| && c.attempts[a].phase == phase
  }

  predicate AtStage(c: Client, g: nat, stage: Stage)
  {
    g < |c.gens| && c.gens[g].stage == stage
  }

  predicate Enabled(c: Client, step: Step)
  {
    match step
    case BeginConnect => true
    case CancelContext(a) => a < |c.attempts|
    case DialDone(a, _) => InPhase(c, a, Dialing)
    case HandshakeDone(a, _) => InPhase(c, a, Handshaking)
    case Publish(a) => InPhase(c, a, Shaken)
    case FailAttempt(a) => InPhase(c, a, Failing)
    case Disconnect => true
    case CloseTable(g) => AtStage(c, g, Open)
    case SignalClosed(g) => AtStage(c, g, Closed)
    case Release(g) => AtStage(c, g, Signalled)
  }

  function Enter(c: Client, a: nat, phase: Phase): Client
    requires a < |c.attempts|
  {
    c.(attempts := c.attempts[a := c.attempts[a].(phase := phase)])
  }

  function Stand(c: Client, g: nat, stage: Stage): Client
    requires g < |c.gens|
  {
    c.(gens := c.gens[g := c.gens[g].(stage := stage)])
  }

  function Perform(c: Client, step: Step): Client
    requires Enabled(c, step)
  {
    match step
    case BeginConnect =>
      if c.state != Idle then c
      else
        c.(state := Connecting, attempt := Some(|c.attempts|),
           attempts := c.attempts + [Attempt(Dialing, false, false)])
    case CancelContext(a) =>
      c.(attempts := c.attempts[a := c.attempts[a].(ctxDone := true)])
    case DialDone(a, ok) =>
      if !ok then Enter(c, a, Failing)
      else if c.attempt != Some(a) || c.state != Connecting then Enter(c, a, Returned(None))
      else Enter(c, a, Handshaking)
    case HandshakeDone(a, ok) =>
      Enter(c, a, if ok && !c.attempts[a].ctxDone then Shaken else Failing)
    case Publish(a) =>
      if c.attempt != Some(a) || c.state != Connecting || c.attempts[a].ctxDone then Enter(c, a, Failing)
      else Enter(c, a, Returned(Some(|c.gens|))).(
             state := Connected, connected := true, attempt := None, current := Some(|c.gens|),
             gens := c.gens + [Generation(a, Open)])
    case FailAttempt(a) =>
      var failed := Enter(c, a, Returned(None));
      if c.attempt == Some(a) then failed.(attempt := None, state := Idle, connected := false) else failed
    case Disconnect =>
      if c.state == Connecting && c.attempt.Some? && c.attempt.value < |c.attempts| then
        var a := c.attempt.value;
        c.(attempts := c.attempts[a := c.attempts[a].(ctxDone := true, cancelledByDisconnect := true)])
      else c
    case CloseTable(g) => Stand(c, g, Closed)
    case SignalClosed(g) => Stand(c, g, Signalled)
    case Release(g) =>
      var released := Stand(c, g, Released);
      if c.current != Some(g) then released
      else released.(current := None, state := Idle, connected := false, fired := c.fired + [g])
  }

  // The invariant

  /** The three ways of saying where the client stands agree. */
  predicate StatesAgree(c: Client)
  {
    && (c.connected <==> c.state == Connected)
    && (c.state == Connected <==> c.current.Some?)
    && (c.state == Connecting <==> c.attempt.Some?)
  }

  /** The attempt on record is the one that has not returned. */
  ghost predicate OneAttempt(attempt: Option<nat>, attempts: seq<Attempt>)
  {
    && (attempt.Some? ==> attempt.value < |attempts|)
    && forall a :: 0 <= a < |attempts| ==> (attempts[a].phase.Returned? <==> attempt != Some(a))
  }

  /** The current generation is the one whose closing has not been completed. */
  ghost predicate OneGeneration(current: Option<nat>, gens: seq<Generation>)
  {
    && (current.Some? ==> current.value < |gens|)
    && forall g :: 0 <= g < |gens| ==> (gens[g].stage == Released <==> current != Some(g))
  }

  /** Every completed closing took the callback, once. */
  ghost predicate FiredOnce(gens: seq<Generation>, fired: seq<nat>)
  {
    && (forall i, j :: 0 <= i < j < |fired| ==> fired[i] != fired[j])
    && (forall g :: g in fired ==> g < |gens|)
    && (forall g :: 0 <= g < |gens| ==> (g in fired <==> gens[g].stage == Released))
  }

  /**
   A generation was published by the attempt that owns it, and no attempt that a Disconnect
   cancelled published one.
   */
  ghost predicate Published(attempts: seq<Attempt>, gens: seq<Generation>)
  {
    && (forall a :: 0 <= a < |attempts| ==> Reported(attempts, gens, a))
    && (forall g :: 0 <= g < |gens| ==> Owned(attempts, gens, g))
  }

  predicate Reported(attempts: seq<Attempt>, gens: seq<Generation>, a: nat)
    requires a < |attempts|
  {
    && Honest(attempts[a])
    && (attempts[a].phase.Returned? && attempts[a].phase.gen.Some? ==>
          attempts[a].phase.gen.value < |gens| && gens[attempts[a].phase.gen.value].owner == a)
  }

  predicate Owned(attempts: seq<Attempt>, gens: seq<Generation>, g: nat)
    requires g < |gens|
  {
    gens[g].owner < |attempts| && attempts[gens[g].owner].phase == Returned(Some(g))
  }

  predicate Honest(a: Attempt)
  {
    a.cancelledByDisconnect ==> a.ctxDone && (a.phase.Returned? ==> a.phase.gen.None?)
  }

  ghost predicate Inv(c: Client)
  {
    && StatesAgree(c)
    && OneAttempt(c.attempt, c.attempts)
    && OneGeneration(c.current, c.gens)
    && FiredOnce(c.gens, c.fired)
    && Published(c.attempts, c.gens)
  }

  /** An attempt that published nothing before takes another form. */
  lemma AttemptBecomes(attempts: seq<Attempt>, gens: seq<Generation>, a: nat, moved: Attempt)
    requires Published(attempts, gens) && a < |attempts| && Honest(moved)
    requires if attempts[a].phase.Returned? then moved.phase == attempts[a].phase
      else moved.phase == Returned(None) || !moved.phase.Returned?
    ensures Published(attempts[a := moved], gens)
  {
    var attempts' := attempts[a := moved];
    forall b | 0 <= b < |attempts'| ensures Reported(attempts', gens, b) { assert Reported(attempts, gens, b); }
    forall g | 0 <= g < |gens| ensures Owned(attempts', gens, g) { assert Owned(attempts, gens, g); }
  }

  /** Changing an attempt without making it return. */
  lemma AttemptMoves(attempt: Option<nat>, attempts: seq<Attempt>, gens: seq<Generation>, a: nat, moved: Attempt)
    requires OneAttempt(attempt, attempts) && Published(attempts, gens) && a < |attempts| && Honest(moved)
    requires if attempts[a].phase.Returned? then moved.phase == attempts[a].phase else !moved.phase.Returned?
    ensures OneAttempt(attempt, attempts[a := moved]) && Published(attempts[a := moved], gens)
  {
    AttemptBecomes(attempts, gens, a, moved);
  }

  lemma AttemptFails(attempt: Option<nat>, attempts: seq<Attempt>, gens: seq<Generation>, a: nat)
    requires OneAttempt(attempt, attempts) && Published(attempts, gens) && a < |attempts|
    requires !attempts[a].phase.Returned?
    ensures var attempts' := attempts[a := attempts[a].(phase := Returned(None))];
      attempt == Some(a) && OneAttempt(None, attempts') && Published(attempts', gens)
  {
    assert Reported(attempts, gens, a);
    AttemptBecomes(attempts, gens, a, attempts[a].(phase := Returned(None)));
  }

  lemma AttemptPublishes(attempts: seq<Attempt>, gens: seq<Generation>, a: nat)
    requires OneAttempt(Some(a), attempts) && Published(attempts, gens) && !attempts[a].ctxDone
    ensures var attempts' := attempts[a := attempts[a].(phase := Returned(Some(|gens|)))];
      OneAttempt(None, attempts') && Published(attempts', gens + [Generation(a, Open)])
  {
    var attempts', gens' := attempts[a := attempts[a].(phase := Returned(Some(|gens|)))], gens + [Generation(a, Open)];
    forall b | 0 <= b < |attempts'| ensures Reported(attempts', gens', b) { assert Reported(attempts, gens, b); }
    forall g | 0 <= g < |gens'|
      ensures Owned(attempts', gens', g)
    {
      if g < |gens| { assert Owned(attempts, gens, g); }
    }
  }

  /** Moving a generation to a stage short of release. */
  lemma GenerationMoves(c: Client, g: nat, stage: Stage)
    requires Inv(c) && g < |c.gens| && c.gens[g].stage != Released && stage != Released
    ensures Inv(Stand(c, g, stage))
  {
    StagePublished(c.attempts, c.gens, g, stage);
  }

  lemma StagePublished(attempts: seq<Attempt>, gens: seq<Generation>, g: nat, stage: Stage)
    requires Published(attempts, gens) && g < |gens|
    ensures Published(attempts, gens[g := gens[g].(stage := stage)])
  {
    var gens' := gens[g := gens[g].(stage := stage)];
    forall a | 0 <= a < |attempts| ensures Reported(attempts, gens', a) { assert Reported(attempts, gens, a); }
    forall h | 0 <= h < |gens'| ensures Owned(attempts, gens', h) { assert Owned(attempts, gens, h); }
  }

  lemma ReleasedFiredOnce(gens: seq<Generation>, fired: seq<nat>, g: nat)
    requires FiredOnce(gens, fired) && g < |gens| && gens[g].stage != Released
    ensures FiredOnce(gens[g := gens[g].(stage := Released)], fired + [g])
  {
    var fired' := fired + [g];
    assert forall h :: h in fired' <==> h in fired || h == g;
  }

  lemma ReleasedOneGeneration(gens: seq<Generation>, g: nat)
    requires OneGeneration(Some(g), gens)
    ensures OneGeneration(None, gens[g := gens[g].(stage := Released)])
  {
  }

  /** A generation whose closing has got this far is the current one. */
  lemma SignalledIsCurrent(c: Client, g: nat)
    requires Inv(c) && AtStage(c, g, Signalled)
    ensures c.current == Some(g) && c.state == Connected && c.attempt.None?
  {
  }

  function Cleared(c: Client, g: nat): Client
    requires g < |c.gens|
  {
    Client(Idle, false, c.attempt, None, c.attempts, c.gens[g := c.gens[g].(stage := Released)], c.fired + [g])
  }

  lemma ReleaseKeeps(c: Client, g: nat)
    requires Inv(c) && AtStage(c, g, Signalled)
    ensures Inv(Cleared(c, g)) && Perform(c, Release(g)) == Cleared(c, g)
  {
    SignalledIsCurrent(c, g);
    StagePublished(c.attempts, c.gens, g, Released);
    ReleasedFiredOnce(c.gens, c.fired, g);
    ReleasedOneGeneration(c.gens, g);
  }

  lemma StepKeeps(c: Client, step: Step)
    requires Inv(c) && Enabled(c, step)
    ensures Inv(Perform(c, step))
  {
    match step
    case BeginConnect => if c.state == Idle { AttemptBegins(c); }
    case CloseTable(g) => GenerationMoves(c, g, Closed);
    case SignalClosed(g) => GenerationMoves(c, g, Signalled);
    case Release(g) => ReleaseKeeps(c, g);
    case CancelContext(a) =>
      assert Reported(c.attempts, c.gens, a);
      AttemptMoves(c.attempt, c.attempts, c.gens, a, c.attempts[a].(ctxDone := true));
    case Disconnect =>
      if c.attempt.Some? {
        var a := c.attempt.value;
        AttemptMoves(c.attempt, c.attempts, c.gens, a, c.attempts[a].(ctxDone := true, cancelledByDisconnect := true));
      }
    case _ => AttemptStepKeeps(c, step);
  }

  lemma AttemptBegins(c: Client)
    requires Inv(c) && c.state == Idle
    ensures Inv(Perform(c, BeginConnect))
  {
    var attempts' := c.attempts + [Attempt(Dialing, false, false)];
    forall a | 0 <= a < |attempts'|
      ensures Reported(attempts', c.gens, a)
    {
      if a < |c.attempts| { assert Reported(c.attempts, c.gens, a); }
    }
    forall g | 0 <= g < |c.gens| ensures Owned(attempts', c.gens, g) { assert Owned(c.attempts, c.gens, g); }
  }

  lemma AttemptStepKeeps(c: Client, step: Step)
    requires Inv(c) && Enabled(c, step)
    requires step.DialDone? || step.HandshakeDone? || step.Publish? || step.FailAttempt?
    ensures Inv(Perform(c, step))
  {
    if step.FailAttempt? {
      AttemptFails(c.attempt, c.attempts, c.gens, step.a);
    } else if step.Publish? && !c.attempts[step.a].ctxDone {
      PublishKeeps(c, step.a);
    } else {
      MovingStepKeeps(c, step);
    }
  }

  lemma PublishKeeps(c: Client, a: nat)
    requires Inv(c) && InPhase(c, a, Shaken) && !c.attempts[a].ctxDone
    ensures Inv(Perform(c, Publish(a)))
  {
    assert c.attempt == Some(a);
    AttemptPublishes(c.attempts, c.gens, a);
  }

  lemma MovingStepKeeps(c: Client, step: Step)
    requires Inv(c) && Enabled(c, step)
    requires step.DialDone? || step.HandshakeDone? || (step.Publish? && c.attempts[step.a].ctxDone)
    ensures Inv(Perform(c, step))
  {
    assert c.attempt == Some(step.a) && Reported(c.attempts, c.gens, step.a);
    AttemptMoves(c.attempt, c.attempts, c.gens, step.a, Perform(c, step).attempts[step.a]);
  }

  // Runs

  ghost predicate IsRun(run: seq<Client>, steps: seq<Step>)
  {
    && |run| == |steps| + 1 && run[0] == FRESH
    && forall i :: 0 <= i < |steps| ==> Enabled(run[i], steps[i]) && run[i + 1] == Perform(run[i], steps[i])
  }

  lemma {:induction false} RunsKeepInvariant(run: seq<Client>, steps: seq<Step>, i: nat)
    requires IsRun(run, steps) && i < |run|
    ensures Inv(run[i])
  {
    if i > 0 {
      RunsKeepInvariant(run, steps, i - 1);
      StepKeeps(run[i - 1], steps[i - 1]);
    }
  }

  /** Every generation but the current one is fully closed, and each of those took the callback exactly once. */
  lemma ClosedGenerationsFiredOnce(run: seq<Client>, steps: seq<Step>, i: nat, g: nat)
    requires IsRun(run, steps) && i < |run| && g < |run[i].gens|
    ensures run[i].current != Some(g) <==> run[i].gens[g].stage == Released
    ensures multiset(run[i].fired)[g] == if run[i].gens[g].stage == Released then 1 else 0
  {
    RunsKeepInvariant(run, steps, i);
    CountOfDistinct(run[i].fired, g);
  }

  lemma {:induction false} CountOfDistinct(s: seq<nat>, x: nat)
    requires forall i, j :: 0 <= i < j < |s| ==> s[i] != s[j]
    ensures multiset(s)[x] == if x in s then 1 else 0
  {
    if s != [] {
      var n := |s| - 1;
      CountOfDistinct(s[..n], x);
      assert s == s[..n] + [s[n]];
    }
  }

  /** Completing the closing of a generation never touches a newer one: the one it clears is itself. */
  lemma ReleaseClearsItself(run: seq<Client>, steps: seq<Step>, i: nat)
    requires IsRun(run, steps) && i < |steps| && steps[i].Release?
    ensures run[i].current == Some(steps[i].g) && run[i + 1].current == None
    ensures forall g :: 0 <= g < |run[i].gens| && g != steps[i].g ==> run[i + 1].gens[g] == run[i].gens[g]
  {
    RunsKeepInvariant(run, steps, i);
    SignalledIsCurrent(run[i], steps[i].g);
  }

  /** An attempt that a Disconnect found connecting is never published, now or later. */
  lemma {:induction false} CancelledNeverPublished(run: seq<Client>, steps: seq<Step>, i: nat, j: nat, a: nat)
    requires IsRun(run, steps) && i < |steps| && i < j < |run|
    requires steps[i].Disconnect? && run[i].state == Connecting && run[i].attempt == Some(a)
    ensures Cancelled(run[j], a)
    ensures run[j].attempts[a].phase.Returned? ==> run[j].attempts[a].phase.gen.None?
    ensures forall g :: 0 <= g < |run[j].gens| ==> run[j].gens[g].owner != a
  {
    RunsKeepInvariant(run, steps, i);
    if j > i + 1 {
      CancelledNeverPublished(run, steps, i, j - 1, a);
      CancelledStays(run[j - 1], steps[j - 1], a);
    }
    RunsKeepInvariant(run, steps, j);
    NoneForCancelled(run[j], a);
  }

  predicate Cancelled(c: Client, a: nat)
  {
    a < |c.attempts| && c.attempts[a].cancelledByDisconnect
  }

  lemma CancelledStays(c: Client, step: Step, a: nat)
    requires Cancelled(c, a) && Enabled(c, step)
    ensures Cancelled(Perform(c, step), a)
  {
  }

  lemma NoneForCancelled(c: Client, a: nat)
    requires Inv(c) && Cancelled(c, a)
    ensures c.attempts[a].phase.Returned? ==> c.attempts[a].phase.gen.None?
    ensures forall g :: 0 <= g < |c.gens| ==> c.gens[g].owner != a
  {
    assert Reported(c.attempts, c.gens, a);
    forall g | 0 <= g < |c.gens| ensures c.gens[g].owner != a { assert Owned(c.attempts, c.gens, g); }
  }
}
