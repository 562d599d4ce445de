/** What each step of the in-flight table achieves, said of the requests and messages it is about. */
module PendingEffects {
  import opened Text
  import opened PendingTable

  /** The pending request with an ID, if there is one. */
  function Entry(t: Table, id: nat): Option<Request>
  {
    if Found(t, id) then Some(t.requests[t.pending[id]]) else None
  }

  /** No other request has come, gone or changed in the table. */
  ghost predicate OthersStay(t: Table, t': Table, id: nat)
  {
    forall other :: other != id ==> Entry(t', other) == Entry(t, other)
  }

  predicate SameChannel(t: Table, t': Table)
  {
    t'.closed == t.closed && t'.closeCh == t.closeCh && t'.registering == t.registering
  }

  predicate SameMessages(t: Table, t': Table)
  {
    t'.held == t.held && t'.delivered == t.delivered
  }

  /** The request with the ID is out of the table for this cause, and its token is back. */
  ghost predicate Taken(t: Table, t': Table, id: nat, cause: Cause)
    requires Found(t, id)
  {
    && Entry(t', id) == None && OthersStay(t, t', id)
    && t'.slots == t.slots - 1 && SameChannel(t, t') && t'.delivered == t.delivered
    && |t'.requests| == |t.requests| && t'.requests[t.pending[id]] == t.requests[t.pending[id]].(status := Left(cause))
  }

  /** A sender that holds a token gets its request into the table, unless that is closed or the ID in use. */
  ghost predicate Registered(t: Table, t': Table, id: nat, route: string)
  {
    && t'.registering == t.registering - 1 && t'.closed == t.closed && t'.closeCh == t.closeCh && SameMessages(t, t')
    && OthersStay(t, t', id)
    && if t.closed || Entry(t, id).Some? then Entry(t', id) == Entry(t, id) && t'.slots == t.slots - 1
       else Entry(t', id) == Some(Request(id, route, None, InTable)) && t'.slots == t.slots
  }

  ghost predicate Stamped(t: Table, t': Table, id: nat, now: int)
  {
    && OthersStay(t, t', id) && SameChannel(t, t') && SameMessages(t, t') && t'.slots == t.slots
    && Entry(t', id) == if Entry(t, id).None? then None else Some(Entry(t, id).value.(sentAt := Some(now)))
  }

  /** The response is held for the consumer as it came, but for an empty route, which becomes the request's. */
  ghost predicate Answered(t: Table, t': Table, m: Message)
  {
    if Entry(t, m.id).None? then t' == t
    else
      var s := t.pending[m.id];
      && Taken(t, t', m.id, Cause.Answered)
      && t'.held.Keys == t.held.Keys + {s}
      && (forall other :: other in t.held && other != s ==> t'.held[other] == t.held[other])
      && t'.held[s].isResponse == m.isResponse && t'.held[s].id == m.id && t'.held[s].isError == m.isError
      && t'.held[s].route == if m.route != "" then m.route else Entry(t, m.id).value.route
  }

  ghost predicate GivenUp(t: Table, t': Table, id: nat)
  {
    if Entry(t, id).None? then t' == t else Taken(t, t', id, WriteFailed) && SameMessages(t, t')
  }

  /** The request was stamped, and its timeout has passed since. */
  predicate Overdue(r: Request, now: int, timeout: int)
  {
    match r.sentAt
    case None => false
    case Some(at) => at + timeout < now
  }

  /** After the sweep no overdue request is pending; each got its timeout response, and all others stay. */
  ghost predicate Reaped(t: Table, t': Table, now: int, timeout: int)
  {
    && SameChannel(t, t') && t'.delivered == t.delivered && |t'.requests| == |t.requests|
    && t'.slots - |t'.pending| == t.slots - |t.pending|
    && (forall id :: Entry(t', id) ==
          if Entry(t, id).Some? && Overdue(Entry(t, id).value, now, timeout) then None else Entry(t, id))
    && (forall id :: Found(t, id) && Overdue(Entry(t, id).value, now, timeout) ==>
      TimedOutAs(t, t', id, TimedOut(now, timeout)))
    && (forall s :: s in t.held ==> s in t'.held)
  }

  predicate TimedOutAs(t: Table, t': Table, id: nat, cause: Cause)
    requires Found(t, id)
  {
    var s, r := t.pending[id], Entry(t, id).value;
    && s < |t'.requests| && t'.requests[s] == r.(status := Left(cause))
    && s in t'.held && t'.held[s] == Message(true, r.id, r.route, true)
  }

  ghost predicate Emptied(t: Table, t': Table)
  {
    && t'.closed && t'.closeCh == t.closeCh && t'.registering == t.registering && SameMessages(t, t')
    && (forall id :: Entry(t', id) == None) && t'.slots == t.slots - |t.pending|
    && |t'.requests| == |t.requests|
    && forall id :: Found(t, id) ==> t'.requests[t.pending[id]] == Entry(t, id).value.(status := Left(Disconnected))
  }

  ghost predicate Achieved(t: Table, step: Step, t': Table)
  {
    match step
    case TakeSlot =>
      t' == t.(slots := t.slots + 1, registering := t.registering + 1) && t'.slots <= 30
    case FinishRegistering(id, route) => Registered(t, t', id, route)
    case Stamp(id, now) => Stamped(t, t', id, now)
    case TakeAnswered(m) => Answered(t, t', m)
    case TakeUnsent(id) => GivenUp(t, t', id)
    case TakeExpired(now, timeout) => Reaped(t, t', now, timeout)
    case DeliverHeld(s) =>
      s in t.held && t' == t.(held := t.held - {s}, delivered := t.delivered + [Delivery(t.held[s], Some(s))])
    case DropHeld(s) => s in t.held && t.closeCh && t' == t.(held := t.held - {s})
    case DeliverPush(m) => t' == t.(delivered := t.delivered + [Delivery(m, None)])
    case MarkClosed => Emptied(t, t')
    case SignalClosed => t' == t.(closeCh := true)
  }

  /** Distinct IDs have distinct registrations. */
  lemma Distinct(t: Table, id: nat, other: nat)
    requires Inv(t) && id in t.pending && other in t.pending && id != other
    ensures Found(t, id) && Found(t, other) && t.pending[id] != t.pending[other]
    ensures Entry(t, id).value.id == id && Entry(t, id).value.status.InTable?
  {
    assert Holds(t.requests, t.pending[id], id) && Holds(t.requests, t.pending[other], other);
  }

  lemma FoundPending(t: Table, id: nat)
    requires Inv(t)
    ensures Found(t, id) <==> id in t.pending
    ensures Found(t, id) ==> Entry(t, id).value.id == id && Entry(t, id).value.status.InTable?
  {
    if id in t.pending { assert Holds(t.requests, t.pending[id], id); }
  }

  /** Removing some IDs takes exactly their requests. */
  lemma RemoveEntries(t: Table, ids: set<nat>, cause: Cause, id: nat)
    requires Inv(t) && ids <= t.pending.Keys
    ensures Entry(Remove(t, ids, cause), id) == if id in ids then None else Entry(t, id)
    ensures Found(t, id) && id in ids ==>
      Remove(t, ids, cause).requests[t.pending[id]] == Entry(t, id).value.(status := Left(cause))
  {
    FoundPending(t, id);
  }

  lemma TakeAchieves(t: Table, id: nat, cause: Cause)
    requires Inv(t) && Found(t, id)
    ensures Taken(t, Remove(t, {id}, cause), id, cause)
  {
    var t' := Remove(t, {id}, cause);
    forall other
      ensures Entry(t', other) == if other == id then None else Entry(t, other)
    {
      RemoveEntries(t, {id}, cause, other);
    }
    RemoveEntries(t, {id}, cause, id);
  }

  lemma RegisterAchieves(t: Table, id: nat, route: string)
    requires Inv(t) && t.registering > 0
    ensures Registered(t, Perform(t, FinishRegistering(id, route)), id, route)
  {
    var t' := Perform(t, FinishRegistering(id, route));
    forall other
      ensures other != id ==> Entry(t', other) == Entry(t, other)
    {
      FoundPending(t, other);
    }
    FoundPending(t, id);
  }

  lemma StampAchieves(t: Table, id: nat, now: int)
    requires Inv(t)
    ensures Stamped(t, Perform(t, Stamp(id, now)), id, now)
  {
    var t' := Perform(t, Stamp(id, now));
    forall other
      ensures other != id ==> Entry(t', other) == Entry(t, other)
    {
      FoundPending(t, other);
      if other != id && Found(t, other) && Found(t, id) { Distinct(t, id, other); }
    }
  }

  lemma AnswerAchieves(t: Table, m: Message)
    requires Inv(t) && m.isResponse
    ensures Answered(t, Perform(t, TakeAnswered(m)), m)
  {
    if Found(t, m.id) {
      TakeAchieves(t, m.id, Cause.Answered);
      var removed, t' := Remove(t, {m.id}, Cause.Answered), Perform(t, TakeAnswered(m));
      forall other
        ensures Entry(t', other) == Entry(removed, other)
      {
      }
    }
  }

  lemma SweepEntry(t: Table, now: int, timeout: int, id: nat)
    requires Inv(t)
    ensures var t' := Swept(t, ExpiredIds(t, now, timeout), TimedOut(now, timeout));
      Entry(t', id) == if Entry(t, id).Some? && Overdue(Entry(t, id).value, now, timeout) then None else Entry(t, id)
  {
    var ids, cause := ExpiredIds(t, now, timeout), TimedOut(now, timeout);
    FoundPending(t, id);
    RemoveEntries(t, ids, cause, id);
    assert Entry(Swept(t, ids, cause), id) == Entry(Remove(t, ids, cause), id);
  }

  lemma SweepTimesOut(t: Table, now: int, timeout: int, id: nat)
    requires Inv(t) && Found(t, id) && Overdue(Entry(t, id).value, now, timeout)
    ensures TimedOutAs(t, Swept(t, ExpiredIds(t, now, timeout), TimedOut(now, timeout)), id, TimedOut(now, timeout))
  {
    var ids, cause := ExpiredIds(t, now, timeout), TimedOut(now, timeout);
    FoundPending(t, id);
    assert id in ids;
    RemoveEntries(t, ids, cause, id);
    assert t.pending[id] in Timeouts(t, ids);
  }

  lemma SweepAchieves(t: Table, now: int, timeout: int)
    requires Inv(t)
    ensures Reaped(t, Swept(t, ExpiredIds(t, now, timeout), TimedOut(now, timeout)), now, timeout)
  {
    var t' := Swept(t, ExpiredIds(t, now, timeout), TimedOut(now, timeout));
    RemoveSize(t.pending, ExpiredIds(t, now, timeout));
    forall id
      ensures Entry(t', id) == if Entry(t, id).Some? && Overdue(Entry(t, id).value, now, timeout) then None
        else Entry(t, id)
    {
      SweepEntry(t, now, timeout, id);
    }
    forall id | Found(t, id) && Overdue(Entry(t, id).value, now, timeout)
      ensures TimedOutAs(t, t', id, TimedOut(now, timeout))
    {
      SweepTimesOut(t, now, timeout, id);
    }
  }

  lemma CloseAchieves(t: Table)
    requires Inv(t) && !t.closed
    ensures Emptied(t, Perform(t, MarkClosed))
  {
    var removed, t' := Remove(t, t.pending.Keys, Disconnected), Perform(t, MarkClosed);
    forall id
      ensures Entry(t', id) == None
      ensures Found(t, id) ==> t'.requests[t.pending[id]] == Entry(t, id).value.(status := Left(Disconnected))
    {
      FoundPending(t, id);
      RemoveEntries(t, t.pending.Keys, Disconnected, id);
      assert Entry(t', id) == Entry(removed, id);
    }
  }

  lemma StepAchieves(t: Table, step: Step)
    requires Inv(t) && Enabled(t, step)
    ensures Achieved(t, step, Perform(t, step))
  {
    match step
    case FinishRegistering(id, route) => RegisterAchieves(t, id, route);
    case Stamp(id, now) => StampAchieves(t, id, now);
    case TakeAnswered(m) => AnswerAchieves(t, m);
    case TakeUnsent(id) => if Found(t, id) { TakeAchieves(t, id, WriteFailed); }
    case TakeExpired(now, timeout) => SweepAchieves(t, now, timeout);
    case MarkClosed => CloseAchieves(t);
    case _ =>
  }

  /** In every interleaving each step does to the table what its sender, reader, reaper or closer wants of it. */
  lemma RunsAchieve(run: seq<Table>, steps: seq<Step>, i: nat)
    requires IsRun(run, steps) && i < |steps|
    ensures Achieved(run[i], steps[i], run[i + 1])
  {
    RunsKeepInvariant(run, steps, i);
    StepAchieves(run[i], steps[i]);
  }
}
