/**
 Closing an agent. Close runs under its mutex, but the status it checks is written by others at any
 time: a late handshake acknowledgement may overwrite Closed.
 */
module AgentClose {
  import opened Runs
  import opened Text

  datatype Status = Start | Handshake | Working | Closed

  /** How often each channel was closed; the second time panics. */
  datatype Channels = Channels(stopWrite: nat, stopHeartbeat: nat, stopKeepCacheAlive: nat, die: nat)

  /** Where the call that holds the close mutex is. */
  datatype Place =
    | Checking
    | Marking
    | Selecting
    | ClosingWrite
    | ClosingHeartbeat
    | ClosingKeepCacheAlive
    | ClosingDie
    | Notifying(next: nat, total: nat)
    | Leaving

  /**
   `ran` lists the close callbacks that were run, by position, out of `due`; `panicked` says that the
   last of them panicked, and `returned` counts the calls of Close that came back.
   */
  datatype State = State(
    status: Status, channels: Channels, holder: Option<Place>, ran: seq<nat>, due: nat, panicked: bool, returned: nat)

  datatype Step =
    | SetStatus(status: Status)
    | Lock
    | SeeClosed
    | SeeOpen
    | Mark
    | SelectDead
    | SelectAlive
    | CloseStopWrite
    | CloseStopHeartbeat
    | CloseStopKeepCacheAlive
    | CloseDie(callbacks: nat)
    | RunCallback
    | CallbackPanics
    | DoneNotifying
    | Unlock

  predicate Enabled(s: State, step: Step)
  {
    match step
    case SetStatus(_) => true
    case Lock => s.holder == None
    case SeeClosed => s.holder == Some(Checking) && s.status == Closed
    case SeeOpen => s.holder == Some(Checking) && s.status != Closed
    case Mark => s.holder == Some(Marking)
    case SelectDead => s.holder == Some(Selecting) && s.channels.die > 0
    case SelectAlive => s.holder == Some(Selecting) && s.channels.die == 0
    case CloseStopWrite => s.holder == Some(ClosingWrite)
    case CloseStopHeartbeat => s.holder == Some(ClosingHeartbeat)
    case CloseStopKeepCacheAlive => s.holder == Some(ClosingKeepCacheAlive)
    case CloseDie(_) => s.holder == Some(ClosingDie)
    case RunCallback => s.holder.Some? && s.holder.value.Notifying? && s.holder.value.next < s.holder.value.total
    case CallbackPanics => s.holder.Some? && s.holder.value.Notifying? && s.holder.value.next < s.holder.value.total
    case DoneNotifying => s.holder.Some? && s.holder.value.Notifying? && s.holder.value.next >= s.holder.value.total
    case Unlock => s.holder == Some(Leaving)
  }

  function Perform(s: State, step: Step): State
    requires Enabled(s, step)
  {
    match step
    case SetStatus(status) => s.(status := status)
    case Lock => s.(holder := Some(Checking))
    case SeeClosed => s.(holder := Some(Leaving))
    case SeeOpen => s.(holder := Some(Marking))
    case Mark => s.(status := Closed, holder := Some(Selecting))
    case SelectDead => s.(holder := Some(Leaving))
    case SelectAlive => s.(holder := Some(ClosingWrite))
    case CloseStopWrite =>
      s.(channels := s.channels.(stopWrite := s.channels.stopWrite + 1), holder := Some(ClosingHeartbeat))
    case CloseStopHeartbeat =>
      s.(channels := s.channels.(stopHeartbeat := s.channels.stopHeartbeat + 1), holder := Some(ClosingKeepCacheAlive))
    case CloseStopKeepCacheAlive =>
      s.(channels := s.channels.(stopKeepCacheAlive := s.channels.stopKeepCacheAlive + 1), holder := Some(ClosingDie))
    case CloseDie(callbacks) =>
      s.(channels := s.channels.(die := s.channels.die + 1), holder := Some(Notifying(0, callbacks)), due := callbacks)
    case RunCallback =>
      s.(ran := s.ran + [s.holder.value.next], holder := Some(s.holder.value.(next := s.holder.value.next + 1)))
    case CallbackPanics =>
      s.(ran := s.ran + [s.holder.value.next], holder := Some(Leaving), panicked := true)
    case DoneNotifying => s.(holder := Some(Leaving))
    case Unlock => s.(holder := None, returned := s.returned + 1)
  }

  const OPEN := Channels(0, 0, 0, 0)
  const SHUT := Channels(1, 1, 1, 1)

  /** The channels are shut in order, and only a call that found them open is on its way through. */
  predicate ChannelsFit(channels: Channels, holder: Option<Place>)
  {
    match holder
    case None => channels == OPEN || channels == SHUT
    case Some(Checking) => channels == OPEN || channels == SHUT
    case Some(Marking) => channels == OPEN || channels == SHUT
    case Some(Selecting) => channels == OPEN || channels == SHUT
    case Some(ClosingWrite) => channels == OPEN
    case Some(ClosingHeartbeat) => channels == Channels(1, 0, 0, 0)
    case Some(ClosingKeepCacheAlive) => channels == Channels(1, 1, 0, 0)
    case Some(ClosingDie) => channels == Channels(1, 1, 1, 0)
    case Some(Notifying(_, _)) => channels == SHUT
    case Some(Leaving) => channels == OPEN || channels == SHUT
  }

  /** No callback runs before the channels are shut; then each runs once, in order, until all ran or one panicked. */
  predicate CallbacksFit(s: State)
  {
    && (forall i :: 0 <= i < |s.ran| ==> s.ran[i] == i)
    && (s.channels.die == 0 ==> s.ran == [] && !s.panicked)
    && (if s.holder.Some? && s.holder.value.Notifying?
        then |s.ran| == s.holder.value.next <= s.holder.value.total == s.due && !s.panicked
        else s.channels.die > 0 && !s.panicked ==> |s.ran| == s.due)
  }

  predicate Inv(s: State)
  {
    ChannelsFit(s.channels, s.holder) && CallbacksFit(s)
  }

  /** Only Close writes Closed, so what it has marked or left behind is shut. */
  predicate Finished(s: State)
  {
    && (s.status == Closed && s.channels != SHUT ==>
          s.holder.Some? && !s.holder.value.Checking? && !s.holder.value.Marking? && !s.holder.value.Leaving?)
    && (s.holder == Some(Leaving) || s.returned > 0 ==> s.channels == SHUT)
  }

  const INITIAL := State(Start, OPEN, None, [], 0, false, 0)

  predicate Next(s: State, step: Step, s': State)
  {
    Enabled(s, step) && s' == Perform(s, step)
  }

  lemma StepKeeps(s: State, step: Step, s': State)
    requires Inv(s) && Next(s, step, s')
    ensures Inv(s')
    ensures Finished(s) && step != SetStatus(Closed) ==> Finished(s')
  {
  }

  ghost predicate IsRun(states: seq<State>, steps: seq<Step>)
  {
    && |states| == |steps| + 1 && states[0] == INITIAL
    && forall i :: 0 <= i < |steps| ==> Next(states[i], steps[i], states[i + 1])
  }

  /** Close calls and status writes in any order: no channel is closed twice and no callback runs twice. */
  lemma {:induction false} RunsCloseOnce(states: seq<State>, steps: seq<Step>, i: nat)
    requires IsRun(states, steps) && i <= |steps|
    ensures Inv(states[i])
    ensures var c := states[i].channels;
      c.stopWrite <= 1 && c.stopHeartbeat <= 1 && c.stopKeepCacheAlive <= 1 && c.die <= 1
    ensures forall j, k :: 0 <= j < k < |states[i].ran| ==> states[i].ran[j] != states[i].ran[k]
  {
    if i > 0 {
      RunsCloseOnce(states, steps, i - 1);
      StepKeeps(states[i - 1], steps[i - 1], states[i]);
    }
  }

  /** The close callbacks there were when the agent died are due; a panic is on record exactly when there was one. */
  lemma {:induction false} DueExactly(states: seq<State>, steps: seq<Step>, i: nat)
    requires IsRun(states, steps) && i <= |steps|
    ensures Inv(states[i])
    ensures forall n :: Happened(steps, i, CloseDie(n)) ==> states[i].due == n && states[i].channels.die > 0
    ensures states[i].panicked <==> Happened(steps, i, CallbackPanics)
  {
    if i > 0 {
      DueExactly(states, steps, i - 1);
      StepKeeps(states[i - 1], steps[i - 1], states[i]);
      HappenedNext(steps, i - 1, CallbackPanics);
      forall n | Happened(steps, i, CloseDie(n))
        ensures states[i].due == n && states[i].channels.die > 0
      {
        HappenedNext(steps, i - 1, CloseDie(n));
        DueStep(states[i - 1], steps[i - 1], n);
      }
      PanicStep(states[i - 1], steps[i - 1]);
    }
  }

  lemma DueStep(s: State, step: Step, n: nat)
    requires Inv(s) && Enabled(s, step)
    ensures step == CloseDie(n) ==> Perform(s, step).due == n && Perform(s, step).channels.die > 0
    ensures s.channels.die > 0 ==> Perform(s, step).due == s.due && Perform(s, step).channels.die > 0
  {
  }

  lemma PanicStep(s: State, step: Step)
    requires Enabled(s, step)
    ensures Perform(s, step).panicked <==> s.panicked || step == CallbackPanics
  {
  }

  /**
   With the channels shut and nobody at work, all n callbacks have run, once each and in order,
   unless one panicked.
   */
  lemma CallbacksAllRun(states: seq<State>, steps: seq<Step>, i: nat, n: nat)
    requires IsRun(states, steps) && i <= |steps| && states[i].holder == None
    requires Happened(steps, i, CloseDie(n)) && !Happened(steps, i, CallbackPanics)
    ensures |states[i].ran| == n && forall k :: 0 <= k < n ==> states[i].ran[k] == k
  {
    DueExactly(states, steps, i);
  }

  /** A call goes on exactly when the status it reads is not Closed; refused, it changes nothing but its own place. */
  lemma CheckDecides(states: seq<State>, steps: seq<Step>, i: nat)
    requires IsRun(states, steps) && i < |steps| && (steps[i] == SeeOpen || steps[i] == SeeClosed)
    ensures steps[i] == SeeClosed <==> states[i].status == Closed
    ensures states[i + 1] == states[i].(holder := Some(if steps[i] == SeeClosed then Leaving else Marking))
  {
    assert Next(states[i], steps[i], states[i + 1]);
  }

  /** What a step writes to the status. */
  function Written(step: Step): Option<Status>
  {
    match step
    case SetStatus(status) => Some(status)
    case Mark => Some(Closed)
    case _ => None
  }

  ghost predicate NoneWritten(steps: seq<Step>, from: nat, to: nat)
    requires to <= |steps|
  {
    forall k :: from <= k < to ==> Written(steps[k]) == None
  }

  /** The status is what was written last, by Close or by anyone, and Start before that. */
  lemma {:induction false} StatusIsLastWritten(states: seq<State>, steps: seq<Step>, i: nat, j: nat)
    requires IsRun(states, steps) && j <= i <= |steps| && NoneWritten(steps, j, i)
    ensures j == 0 ==> states[i].status == Start
    ensures j > 0 && Written(steps[j - 1]).Some? ==> states[i].status == Written(steps[j - 1]).value
  {
    if i > j {
      StatusIsLastWritten(states, steps, i - 1, j);
      assert Written(steps[i - 1]) == None && Next(states[i - 1], steps[i - 1], states[i - 1 + 1]);
    } else if j > 0 {
      assert Next(states[j - 1], steps[j - 1], states[j - 1 + 1]);
    }
  }

  /** Everything is shut and every callback ran, up to one that panicked. */
  predicate Complete(s: State)
  {
    s.channels == SHUT && (s.panicked || (s.holder == None ==> |s.ran| == s.due))
  }

  /**
   If nobody else writes Closed, a Close that came back, even one that was refused, left everything
   shut and notified.
   */
  lemma {:induction false} ReturnedMeansShut(states: seq<State>, steps: seq<Step>, i: nat)
    requires IsRun(states, steps) && i <= |steps| && SetStatus(Closed) !in steps
    ensures states[i].returned > 0 ==> Complete(states[i])
  {
    RunsFinish(states, steps, i);
    FinishedIsComplete(states[i]);
  }

  lemma {:induction false} RunsFinish(states: seq<State>, steps: seq<Step>, i: nat)
    requires IsRun(states, steps) && i <= |steps| && SetStatus(Closed) !in steps
    ensures Inv(states[i]) && Finished(states[i])
  {
    if i > 0 {
      RunsFinish(states, steps, i - 1);
      StepKeeps(states[i - 1], steps[i - 1], states[i]);
    }
  }

  lemma FinishedIsComplete(s: State)
    requires Inv(s) && Finished(s)
    ensures s.returned > 0 ==> Complete(s)
  {
  }

  /** The statuses that others than Close write in the run. */
  predicate WritesOnly(steps: seq<Step>, writes: set<Status>)
  {
    forall i :: 0 <= i < |steps| && steps[i].SetStatus? ==> steps[i].status in writes
  }

  ghost predicate AlwaysShut(writes: set<Status>)
  {
    forall states: seq<State>, steps, i ::
      IsRun(states, steps) && WritesOnly(steps, writes) && 0 <= i < |states| && states[i].returned > 0 ==>
        Complete(states[i])
  }

  /**
   A Close that came back left everything shut, in every run, if and only if nobody else writes
   Closed. The handlers write Handshake and Working only; the exported SetStatus takes any status.
   */
  lemma ShutExactly(writes: set<Status>)
    ensures AlwaysShut(writes) <==> Closed !in writes
  {
    if Closed in writes {
      var states, steps := ForeignClosedLeavesOpen();
      assert states[|steps|].returned > 0 && !Complete(states[|steps|]);
    } else {
      forall states: seq<State>, steps, i |
        IsRun(states, steps) && WritesOnly(steps, writes) && 0 <= i < |states| && states[i].returned > 0
        ensures Complete(states[i])
      {
        ReturnedMeansShut(states, steps, i);
      }
    }
  }

  lemma ForeignClosedLeavesOpen() returns (states: seq<State>, steps: seq<Step>)
    ensures IsRun(states, steps) && WritesOnly(steps, {Closed})
    ensures states[|steps|].returned > 0 && states[|steps|].channels == OPEN
  {
    steps := [SetStatus(Closed), Lock, SeeClosed, Unlock];
    var s1 := Perform(INITIAL, SetStatus(Closed));
    var s2 := Perform(s1, Lock);
    var s3 := Perform(s2, SeeClosed);
    states := [INITIAL, s1, s2, s3, Perform(s3, Unlock)];
  }

  class Agent {
    var status: Status
    var channels: Channels
    var ran: seq<nat>
    var due: nat
    var panicked: bool
    var returned: nat

    ghost function Between(): State
      reads this
    {
      State(status, channels, None, ran, due, panicked, returned)
    }

    constructor ()
      ensures Between() == INITIAL
    {
      status, channels, ran, due, panicked, returned := Start, Channels(0, 0, 0, 0), [], 0, false, 0;
    }

    method SetStatus(status: Status)
      modifies this`status
      ensures this.status == status
    {
      this.status := status;
    }

    /** One whole call with nobody in between; `panicAt` is the callback that panics, if any. */
    method Close(callbacks: nat, panicAt: Option<nat>) returns (refused: bool)
      requires Inv(Between())
      modifies this
      ensures Inv(Between()) && returned == old(returned) + 1 && status == Closed
      ensures refused <==> old(status) == Closed
      ensures refused || old(channels) == SHUT ==> channels == old(channels) && ran == old(ran)
      ensures !refused ==> channels == SHUT
      ensures !refused && old(channels) != SHUT ==>
        |ran| == if panicAt.Some? && panicAt.value < callbacks then panicAt.value + 1 else callbacks
    {
      if status == Closed {
        returned := returned + 1;
        return true;
      }
      status := Closed;
      if channels.die == 0 {
        channels := channels.(stopWrite := channels.stopWrite + 1);
        channels := channels.(stopHeartbeat := channels.stopHeartbeat + 1);
        channels := channels.(stopKeepCacheAlive := channels.stopKeepCacheAlive + 1);
        channels := channels.(die := channels.die + 1);
        OnSessionClosed(callbacks, panicAt);
      }
      returned := returned + 1;
      return false;
    }

    method OnSessionClosed(callbacks: nat, panicAt: Option<nat>)
      requires ran == [] && channels == SHUT
      modifies this`ran, this`due, this`panicked
      ensures CallbacksFit(Between()) && due == callbacks
      ensures |ran| == if panicAt.Some? && panicAt.value < callbacks then panicAt.value + 1 else callbacks
    {
      due, panicked := callbacks, false;
      var next := 0;
      while next < callbacks
        invariant next <= callbacks == due && |ran| == next && !panicked
        invariant panicAt.Some? ==> panicAt.value >= next
        invariant forall i :: 0 <= i < |ran| ==> ran[i] == i
      {
        ran := ran + [next];
        if panicAt == Some(next) {
          panicked := true;
          return;
        }
        next := next + 1;
      }
    }
  }
}
