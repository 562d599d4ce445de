/** Why a connect attempt, or a generation, is where it is: told by the steps of the run that led there. */
module ClientHistory {
  import opened Text
  import opened ClientLifecycle
  import opened Runs

  predicate Dialed(steps: seq<Step>, i: nat, a: nat, ok: bool)
  {
    Happened(steps, i, DialDone(a, ok))
  }

  predicate Shook(steps: seq<Step>, i: nat, a: nat, ok: bool)
  {
    Happened(steps, i, HandshakeDone(a, ok))
  }

  /** The outcomes of dial and handshake, each known at most once and in this order, that fit the phase. */
  predicate Explained(steps: seq<Step>, i: nat, a: nat, attempt: Attempt)
  {
    && !(Dialed(steps, i, a, true) && Dialed(steps, i, a, false))
    && !(Shook(steps, i, a, true) && Shook(steps, i, a, false))
    && (Shook(steps, i, a, true) || Shook(steps, i, a, false) ==> Dialed(steps, i, a, true))
    && match attempt.phase
       case Dialing => !Dialed(steps, i, a, true) && !Dialed(steps, i, a, false)
       case Handshaking => Dialed(steps, i, a, true) && !Shook(steps, i, a, true) && !Shook(steps, i, a, false)
       case Shaken => Shook(steps, i, a, true)
       case Returned(Some(_)) => Shook(steps, i, a, true)
       case _ => Dialed(steps, i, a, false) || Shook(steps, i, a, false) || attempt.ctxDone
  }

  ghost predicate AllExplained(steps: seq<Step>, i: nat, attempts: seq<Attempt>)
  {
    && (forall a :: 0 <= a < |attempts| ==> Explained(steps, i, a, attempts[a]))
    && (forall a :: a >= |attempts| ==> Quiet(steps, i, a))
  }

  predicate Quiet(steps: seq<Step>, i: nat, a: nat)
  {
    !Dialed(steps, i, a, true) && !Dialed(steps, i, a, false) && !Shook(steps, i, a, true) && !Shook(steps, i, a, false)
  }

  lemma Unmoved(steps: seq<Step>, i: nat, a: nat, attempt: Attempt)
    requires i < |steps| && Explained(steps, i, a, attempt)
    requires forall ok: bool :: steps[i] != DialDone(a, ok) && steps[i] != HandshakeDone(a, ok)
    ensures Explained(steps, i + 1, a, attempt)
    ensures forall ok: bool ::
      (Dialed(steps, i + 1, a, ok) <==> Dialed(steps, i, a, ok)) &&
        (Shook(steps, i + 1, a, ok) <==> Shook(steps, i, a, ok))
  {
    forall ok: bool
      ensures Dialed(steps, i + 1, a, ok) <==> Dialed(steps, i, a, ok)
      ensures Shook(steps, i + 1, a, ok) <==> Shook(steps, i, a, ok)
    {
      HappenedNext(steps, i, DialDone(a, ok));
      HappenedNext(steps, i, HandshakeDone(a, ok));
    }
  }

  lemma Moved(steps: seq<Step>, i: nat, a: nat, c: Client)
    requires i < |steps| && Inv(c) && Enabled(c, steps[i]) && a < |c.attempts| && Explained(steps, i, a, c.attempts[a])
    requires exists ok: bool :: steps[i] == DialDone(a, ok) || steps[i] == HandshakeDone(a, ok)
    ensures Explained(steps, i + 1, a, Perform(c, steps[i]).attempts[a])
  {
    assert c.attempt == Some(a);
    HappenedNext(steps, i, DialDone(a, true));
    HappenedNext(steps, i, DialDone(a, false));
    HappenedNext(steps, i, HandshakeDone(a, true));
    HappenedNext(steps, i, HandshakeDone(a, false));
  }

  lemma {:induction false} PhasesExplained(run: seq<Client>, steps: seq<Step>, i: nat)
    requires IsRun(run, steps) && i < |run|
    ensures AllExplained(steps, i, run[i].attempts)
  {
    if i > 0 {
      PhasesExplained(run, steps, i - 1);
      RunsKeepInvariant(run, steps, i - 1);
      StepExplains(steps, i - 1, run[i - 1]);
    }
  }

  lemma StepExplains(steps: seq<Step>, i: nat, c: Client)
    requires i < |steps| && Inv(c) && Enabled(c, steps[i]) && AllExplained(steps, i, c.attempts)
    ensures AllExplained(steps, i + 1, Perform(c, steps[i]).attempts)
  {
    var c' := Perform(c, steps[i]);
    forall a | 0 <= a < |c'.attempts|
      ensures Explained(steps, i + 1, a, c'.attempts[a])
    {
      OneExplained(steps, i, c, a);
    }
    var n := i + 1;
    forall a: nat | a >= |c'.attempts|
      ensures Quiet(steps, n, a)
    {
      assert Quiet(steps, i, a);
      HappenedNext(steps, i, DialDone(a, true));
      HappenedNext(steps, i, DialDone(a, false));
      HappenedNext(steps, i, HandshakeDone(a, true));
      HappenedNext(steps, i, HandshakeDone(a, false));
    }
  }

  lemma OneExplained(steps: seq<Step>, i: nat, c: Client, a: nat)
    requires i < |steps| && Inv(c) && Enabled(c, steps[i]) && AllExplained(steps, i, c.attempts)
    requires a < |Perform(c, steps[i]).attempts|
    ensures Explained(steps, i + 1, a, Perform(c, steps[i]).attempts[a])
  {
    if a >= |c.attempts| {
      NewExplained(steps, i, c, a);
    } else if steps[i] == DialDone(a, true) || steps[i] == DialDone(a, false) || steps[i] == HandshakeDone(a, true)
      || steps[i] == HandshakeDone(a, false) {
      Moved(steps, i, a, c);
    } else {
      Unmoved(steps, i, a, c.attempts[a]);
      if steps[i] == Publish(a) { assert c.attempt == Some(a); }
    }
  }

  lemma NewExplained(steps: seq<Step>, i: nat, c: Client, a: nat)
    requires i < |steps| && Enabled(c, steps[i]) && AllExplained(steps, i, c.attempts)
    requires |c.attempts| <= a < |Perform(c, steps[i]).attempts|
    ensures Explained(steps, i + 1, a, Perform(c, steps[i]).attempts[a])
  {
    assert Quiet(steps, i, a);
    HappenedNext(steps, i, DialDone(a, true));
    HappenedNext(steps, i, DialDone(a, false));
    HappenedNext(steps, i, HandshakeDone(a, true));
    HappenedNext(steps, i, HandshakeDone(a, false));
  }

  // Contexts

  /** The context was cancelled, from outside or by a Disconnect that found the attempt connecting. */
  predicate CancelledBefore(run: seq<Client>, steps: seq<Step>, i: nat, a: nat)
  {
    exists j :: 0 <= j < i && j < |steps| && j < |run| && CancelsAt(run, steps, j, a)
  }

  predicate CancelsAt(run: seq<Client>, steps: seq<Step>, j: nat, a: nat)
    requires j < |steps| && j < |run|
  {
    steps[j] == CancelContext(a) || (steps[j] == Disconnect && run[j].state == Connecting && run[j].attempt == Some(a))
  }

  lemma {:induction false} ContextsExactly(run: seq<Client>, steps: seq<Step>, i: nat, a: nat)
    requires IsRun(run, steps) && i < |run|
    ensures CancelledBefore(run, steps, i, a) ==> a < |run[i].attempts|
    ensures a < |run[i].attempts| ==> (run[i].attempts[a].ctxDone <==> CancelledBefore(run, steps, i, a))
  {
    if i > 0 {
      ContextsExactly(run, steps, i - 1, a);
      RunsKeepInvariant(run, steps, i - 1);
      ContextStep(run[i - 1], steps[i - 1], a);
      CancelledNext(run, steps, i - 1, a);
    }
  }

  lemma CancelledNext(run: seq<Client>, steps: seq<Step>, i: nat, a: nat)
    requires i < |steps| && i < |run|
    ensures CancelledBefore(run, steps, i + 1, a) <==> CancelledBefore(run, steps, i, a) || CancelsAt(run, steps, i, a)
  {
    if CancelledBefore(run, steps, i + 1, a) {
      var j :| 0 <= j < i + 1 && j < |steps| && j < |run| && CancelsAt(run, steps, j, a);
      assert j < i || CancelsAt(run, steps, i, a);
    }
    if CancelledBefore(run, steps, i, a) {
      var j :| 0 <= j < i && j < |steps| && j < |run| && CancelsAt(run, steps, j, a);
      assert j < i + 1;
    }
  }

  lemma ContextStep(c: Client, step: Step, a: nat)
    requires Inv(c) && Enabled(c, step)
    ensures |c.attempts| <= |Perform(c, step).attempts|
    ensures var cancels := step ==
      CancelContext(a) || (step == Disconnect && c.state == Connecting && c.attempt == Some(a));
      && (cancels ==> a < |c.attempts|)
      && (a < |c.attempts| ==> (Perform(c, step).attempts[a].ctxDone <==> c.attempts[a].ctxDone || cancels))
      && (|c.attempts| <= a < |Perform(c, step).attempts| ==> !Perform(c, step).attempts[a].ctxDone)
  {
  }

  // What the steps decide

  lemma OutcomeExplained(run: seq<Client>, steps: seq<Step>, i: nat, a: nat)
    requires IsRun(run, steps) && i < |run| && !Quiet(steps, i, a)
    ensures a < |run[i].attempts| && Explained(steps, i, a, run[i].attempts[a])
  {
    PhasesExplained(run, steps, i);
  }

  /**
   A dial or handshake that failed is never followed by a generation: the attempt is failing or has
   returned without one, and no generation is its own.
   */
  lemma FailedNeverPublished(run: seq<Client>, steps: seq<Step>, i: nat, a: nat)
    requires IsRun(run, steps) && i < |run| && (Dialed(steps, i, a, false) || Shook(steps, i, a, false))
    ensures a < |run[i].attempts| && (run[i].attempts[a].phase == Failing || run[i].attempts[a].phase == Returned(None))
    ensures forall g :: 0 <= g < |run[i].gens| ==> run[i].gens[g].owner != a
  {
    OutcomeExplained(run, steps, i, a);
    RunsKeepInvariant(run, steps, i);
    forall g | 0 <= g < |run[i].gens|
      ensures run[i].gens[g].owner != a
    {
      assert Owned(run[i].attempts, run[i].gens, g);
    }
  }

  /** A dial and a handshake that went well leave the attempt ready to be published, unless it was cancelled. */
  lemma GoodIsReady(run: seq<Client>, steps: seq<Step>, i: nat, a: nat)
    requires IsRun(run, steps) && i < |run| && Shook(steps, i, a, true) && !CancelledBefore(run, steps, i, a)
    ensures a < |run[i].attempts|
    ensures run[i].attempts[a].phase == Shaken ||
      (run[i].attempts[a].phase.Returned? && run[i].attempts[a].phase.gen.Some?)
    ensures Dialed(steps, i, a, true)
  {
    OutcomeExplained(run, steps, i, a);
    ContextsExactly(run, steps, i, a);
  }

  /** Publishing succeeds exactly when the context is not done, and only after a good dial and handshake. */
  lemma PublishDecides(run: seq<Client>, steps: seq<Step>, i: nat, a: nat)
    requires IsRun(run, steps) && i < |steps| && steps[i] == Publish(a)
    ensures Dialed(steps, i, a, true) && Shook(steps, i, a, true)
    ensures a < |run[i + 1].attempts|
    ensures if CancelledBefore(run, steps, i, a)
      then run[i + 1].attempts[a].phase == Failing && run[i + 1].gens == run[i].gens
      else && run[i + 1].attempts[a].phase == Returned(Some(|run[i].gens|)) && run[i + 1].state == Connected
           && run[i + 1].current == Some(|run[i].gens|) && run[i + 1].gens == run[i].gens + [Generation(a, Open)]
  {
    PhasesExplained(run, steps, i);
    RunsKeepInvariant(run, steps, i);
    ContextsExactly(run, steps, i, a);
    assert Explained(steps, i, a, run[i].attempts[a]);
    assert run[i].attempt == Some(a);
  }

  /**
   Every generation was published, once, by its owner, whose dial and handshake had gone well and
   whose context was not done.
   */
  lemma {:induction false} GenerationsEarned(run: seq<Client>, steps: seq<Step>, i: nat, g: nat) returns (j: nat)
    requires IsRun(run, steps) && i < |run| && g < |run[i].gens|
    ensures j < i && steps[j] == Publish(run[i].gens[g].owner) && |run[j].gens| == g
    ensures var a := run[i].gens[g].owner;
      Shook(steps, j, a, true) && Dialed(steps, j, a, true) && !CancelledBefore(run, steps, j, a)
  {
    if g < |run[i - 1].gens| {
      OwnerStays(run[i - 1], steps[i - 1], g);
      j := GenerationsEarned(run, steps, i - 1, g);
    } else {
      j := i - 1;
      NewGeneration(run[j], steps[j]);
      PublishDecides(run, steps, j, steps[j].a);
    }
  }

  lemma OwnerStays(c: Client, step: Step, g: nat)
    requires Enabled(c, step) && g < |c.gens|
    ensures g < |Perform(c, step).gens| && Perform(c, step).gens[g].owner == c.gens[g].owner
  {
  }

  lemma NewGeneration(c: Client, step: Step)
    requires Enabled(c, step) && |Perform(c, step).gens| > |c.gens|
    ensures step.Publish? && |Perform(c, step).gens| == |c.gens| + 1
    ensures Perform(c, step).gens[|c.gens|] == Generation(step.a, Open)
  {
  }

  /** A connect finds an idle client and starts an attempt, or leaves everything as it was. */
  lemma ConnectDecides(run: seq<Client>, steps: seq<Step>, i: nat)
    requires IsRun(run, steps) && i < |steps| && steps[i] == BeginConnect
    ensures if run[i].attempt.Some? || run[i].current.Some? then run[i + 1] == run[i]
      else && run[i + 1].attempt == Some(|run[i].attempts|) && run[i + 1].state == Connecting
           && run[i + 1].attempts == run[i].attempts + [Attempt(Dialing, false, false)]
  {
    RunsKeepInvariant(run, steps, i);
  }

  /** A failing attempt returns with nothing and leaves the client idle. */
  lemma FailDecides(run: seq<Client>, steps: seq<Step>, i: nat, a: nat)
    requires IsRun(run, steps) && i < |steps| && steps[i] == FailAttempt(a)
    ensures a < |run[i + 1].attempts| && run[i + 1].attempts[a].phase == Returned(None)
    ensures run[i + 1].state == Idle && run[i + 1].attempt == None && run[i + 1].current == None
  {
    RunsKeepInvariant(run, steps, i);
    assert run[i].attempt == Some(a);
  }

  // Stages of a generation

  predicate StageExplained(steps: seq<Step>, i: nat, g: nat, stage: Stage)
  {
    && (stage != Open <==> Happened(steps, i, CloseTable(g)))
    && (stage == Signalled || stage == Released <==> Happened(steps, i, SignalClosed(g)))
    && (stage == Released <==> Happened(steps, i, Release(g)))
  }

  ghost predicate StagesExplained(steps: seq<Step>, i: nat, gens: seq<Generation>)
  {
    && (forall g :: 0 <= g < |gens| ==> StageExplained(steps, i, g, gens[g].stage))
    && (forall g :: g >= |gens| ==> StageExplained(steps, i, g, Open))
  }

  /** How far the closing of each generation has come is how many of its three steps were taken. */
  lemma {:induction false} StagesExactly(run: seq<Client>, steps: seq<Step>, i: nat)
    requires IsRun(run, steps) && i < |run|
    ensures StagesExplained(steps, i, run[i].gens)
  {
    if i > 0 {
      StagesExactly(run, steps, i - 1);
      StageStep(steps, i - 1, run[i - 1]);
    }
  }

  lemma StageStep(steps: seq<Step>, i: nat, c: Client)
    requires i < |steps| && Enabled(c, steps[i]) && StagesExplained(steps, i, c.gens)
    ensures StagesExplained(steps, i + 1, Perform(c, steps[i]).gens)
  {
    var gens', n := Perform(c, steps[i]).gens, i + 1;
    forall g | 0 <= g < |gens'|
      ensures StageExplained(steps, n, g, gens'[g].stage)
    {
      OneStage(steps, i, c, g);
    }
    forall g: nat | g >= |gens'|
      ensures StageExplained(steps, n, g, Open)
    {
      OneStage(steps, i, c, g);
    }
  }

  lemma OneStage(steps: seq<Step>, i: nat, c: Client, g: nat)
    requires i < |steps| && Enabled(c, steps[i]) && StagesExplained(steps, i, c.gens)
    ensures var gens' := Perform(c, steps[i]).gens;
      StageExplained(steps, i + 1, g, if g < |gens'| then gens'[g].stage else Open)
  {
    HappenedNext(steps, i, CloseTable(g));
    HappenedNext(steps, i, SignalClosed(g));
    HappenedNext(steps, i, Release(g));
    assert StageExplained(steps, i, g, if g < |c.gens| then c.gens[g].stage else Open);
  }
}
