/**
 The in-flight table of one client connection: a bounded channel of slots, a table of pending
 requests, a reaper, and a close that empties the table. Senders, the packet loop, the reaper
 and disconnects interleave freely at the points where they take a lock or use the channel.
 */
module PendingTable {
  import opened Text

  const INFLIGHT_LIMIT: nat := 30

  datatype Cause = Answered | TimedOut(now: int, timeout: int) | WriteFailed | Disconnected

  datatype Status = InTable | Left(cause: Cause)

  /** One registration. IDs may come round again after 2^32 requests; registrations do not. */
  datatype Request = Request(id: nat, route: string, sentAt: Option<int>, status: Status)

  datatype Message = Message(isResponse: bool, id: nat, route: string, isError: bool)

  /** A message handed to the consumer; a response comes with the registration it used up. */
  datatype Delivery = Delivery(message: Message, serial: Option<nat>)

  datatype Table = Table(
    pending: map<nat, nat>,       // request ID to registration
    requests: seq<Request>,       // every registration so far
    slots: int,                   // tokens in the slots channel
    closed: bool,
    closeCh: bool,                // closeCh has been closed
    registering: int,             // senders that hold a token but not yet the lock
    held: map<nat, Message>,      // responses off the table and not yet with the consumer
    delivered: seq<Delivery>)

  const EMPTY := Table(map[], [], 0, false, false, 0, map[], [])

  predicate Expired(r: Request, now: int, timeout: int)
  {
    r.sentAt.Some? && now - r.sentAt.value > timeout
  }

  function TimeoutMessage(r: Request): Message
  {
    Message(true, r.id, r.route, true)
  }

  /** A response without a route gets the route of its request. */
  function Routed(m: Message, r: Request): Message
  {
    m.(route := if m.route == "" then r.route else m.route)
  }

  // Steps

  datatype Step =
    | TakeSlot                                            // the first half of registerPending
    | FinishRegistering(id: nat, route: string)           // its locked half
    | Stamp(id: nat, now: int)                            // under the write lock, before writing
    | TakeAnswered(response: Message)                     // handlePackets, on a response
    | TakeUnsent(id: nat)                                 // sendMsgTo, after a failed write
    | TakeExpired(now: int, timeout: int)                 // the reaper
    | DeliverHeld(serial: nat)
    | DropHeld(serial: nat)                               // deliver gave up on a closed connection
    | DeliverPush(push: Message)
    | MarkClosed                                          // the locked part of disconnectGeneration
    | SignalClosed                                        // close(closeCh)

  predicate Enabled(t: Table, step: Step)
  {
    match step
    case TakeSlot => t.slots < INFLIGHT_LIMIT
    case FinishRegistering(_, _) => t.registering > 0
    case TakeAnswered(m) => m.isResponse
    case DeliverHeld(s) => s in t.held
    case DropHeld(s) => s in t.held && t.closeCh
    case DeliverPush(m) => !m.isResponse
    case MarkClosed => !t.closed
    case SignalClosed => t.closed
    case _ => true
  }

  /** The registrations with these IDs leave the table. */
  function Settle(requests: seq<Request>, ids: set<nat>, cause: Cause): (r: seq<Request>)
    ensures |r| == |requests|
    ensures forall s :: 0 <= s < |r| ==> r[s] == SettleOne(requests[s], ids, cause)
  {
    seq(|requests|, s requires 0 <= s < |requests| => SettleOne(requests[s], ids, cause))
  }

  function SettleOne(r: Request, ids: set<nat>, cause: Cause): Request
  {
    if r.status.InTable? && r.id in ids then r.(status := Left(cause)) else r
  }

  function Remove(t: Table, ids: set<nat>, cause: Cause): Table
  {
    t.(pending := t.pending - ids, slots := t.slots - |ids|, requests := Settle(t.requests, ids, cause))
  }

  /** The table has an entry for the ID. */
  predicate Found(t: Table, id: nat)
  {
    id in t.pending && t.pending[id] < |t.requests|
  }

  function ExpiredIds(t: Table, now: int, timeout: int): set<nat>
  {
    set id | id in t.pending && Found(t, id) && Expired(t.requests[t.pending[id]], now, timeout)
  }

  /** The timeout responses for the registrations with these IDs. */
  function Timeouts(t: Table, ids: set<nat>): map<nat, Message>
  {
    map s | 0 <= s < |t.requests| && t.requests[s].status.InTable? && t.requests[s].id in ids
      :: TimeoutMessage(t.requests[s])
  }

  /** The table after the reaper's sweep. */
  function Swept(t: Table, ids: set<nat>, cause: Cause): Table
  {
    Remove(t, ids, cause).(held := t.held + Timeouts(t, ids))
  }

  function Perform(t: Table, step: Step): Table
    requires Enabled(t, step)
  {
    match step
    case TakeSlot => t.(slots := t.slots + 1, registering := t.registering + 1)
    case FinishRegistering(id, route) =>
      if t.closed || id in t.pending then t.(slots := t.slots - 1, registering := t.registering - 1)
      else t.(pending := t.pending[id := |t.requests|],
              requests := t.requests + [Request(id, route, None, InTable)],
              registering := t.registering - 1)
    case Stamp(id, now) =>
      if !Found(t, id) then t
      else t.(requests := t.requests[t.pending[id] := t.requests[t.pending[id]].(sentAt := Some(now))])
    case TakeAnswered(m) =>
      if !Found(t, m.id) then t
      else
        var s := t.pending[m.id];
        Remove(t, {m.id}, Answered).(held := t.held[s := Routed(m, t.requests[s])])
    case TakeUnsent(id) =>
      if !Found(t, id) then t else Remove(t, {id}, WriteFailed)
    case TakeExpired(now, timeout) => Swept(t, ExpiredIds(t, now, timeout), TimedOut(now, timeout))
    case DeliverHeld(s) => t.(held := t.held - {s}, delivered := t.delivered + [Delivery(t.held[s], Some(s))])
    case DropHeld(s) => t.(held := t.held - {s})
    case DeliverPush(m) => t.(delivered := t.delivered + [Delivery(m, None)])
    case MarkClosed => Remove(t, t.pending.Keys, Disconnected).(closed := true)
    case SignalClosed => t.(closeCh := true)
  }

  // What every step keeps

  /** The table holds exactly the registrations that have not left. */
  ghost predicate TableMatches(pending: map<nat, nat>, requests: seq<Request>)
  {
    && (forall id :: id in pending ==> Holds(requests, pending[id], id))
    && (forall s :: 0 <= s < |requests| && requests[s].status.InTable? ==>
          requests[s].id in pending && pending[requests[s].id] == s)
  }

  predicate Holds(requests: seq<Request>, s: nat, id: nat)
  {
    s < |requests| && requests[s].id == id && requests[s].status.InTable?
  }

  /** Only a stamped request can time out, and only past the timeout counted from its stamp. */
  ghost predicate TimeoutsEarned(requests: seq<Request>)
  {
    forall s :: 0 <= s < |requests| && requests[s].status.Left? && requests[s].status.cause.TimedOut? ==>
      Expired(requests[s], requests[s].status.cause.now, requests[s].status.cause.timeout)
  }

  /** The registration left the table with a response for the consumer. */
  predicate LeftWithResponse(r: Request)
  {
    r.status.Left? && (r.status.cause.Answered? || r.status.cause.TimedOut?)
  }

  /** The message answers such a registration: it has its ID, and its route if it came without one. */
  predicate Answers(requests: seq<Request>, serial: nat, m: Message)
  {
    && serial < |requests| && LeftWithResponse(requests[serial])
    && m.isResponse && m.id == requests[serial].id
    && (m.route == "" ==> requests[serial].route == "")
    && (requests[serial].status.cause.TimedOut? ==> m == TimeoutMessage(requests[serial]))
  }

  ghost predicate HeldAnswer(requests: seq<Request>, held: map<nat, Message>)
  {
    forall s :: s in held ==> Answers(requests, s, held[s])
  }

  /** Every delivered response used up a registration of its own. */
  ghost predicate DeliveredAnswer(requests: seq<Request>, held: map<nat, Message>, delivered: seq<Delivery>)
  {
    && (forall i :: 0 <= i < |delivered| ==> (delivered[i].message.isResponse <==> delivered[i].serial.Some?))
    && (forall i :: 0 <= i < |delivered| && delivered[i].serial.Some? ==>
          UsedUp(requests, held, delivered[i].serial.value, delivered[i].message))
    && (forall i, j :: 0 <= i < j < |delivered| && delivered[i].serial.Some? ==>
      delivered[i].serial != delivered[j].serial)
  }

  predicate UsedUp(requests: seq<Request>, held: map<nat, Message>, serial: nat, m: Message)
  {
    Answers(requests, serial, m) && serial !in held
  }

  predicate WasDelivered(delivered: seq<Delivery>, serial: nat)
  {
    exists i :: 0 <= i < |delivered| && delivered[i].serial == Some(serial)
  }

  /** Every response a registration left with is on its way to the consumer or was delivered. */
  ghost predicate NothingLost(requests: seq<Request>, held: map<nat, Message>, delivered: seq<Delivery>)
  {
    forall s :: 0 <= s < |requests| && LeftWithResponse(requests[s]) ==> s in held || WasDelivered(delivered, s)
  }

  ghost predicate Inv(t: Table)
  {
    && 0 <= t.registering && t.slots == |t.pending| + t.registering <= INFLIGHT_LIMIT
    && (t.closed ==> t.pending == map[])
    && (t.closeCh ==> t.closed)
    && TableMatches(t.pending, t.requests)
    && TimeoutsEarned(t.requests)
    && HeldAnswer(t.requests, t.held)
    && DeliveredAnswer(t.requests, t.held, t.delivered)
    && (t.closeCh || NothingLost(t.requests, t.held, t.delivered))
  }

  /** No registration is forgotten, and one that has left never changes again. */
  ghost predicate LeftForGood(requests: seq<Request>, requests': seq<Request>)
  {
    && |requests| <= |requests'|
    && forall s :: 0 <= s < |requests| ==> Succeeds(requests[s], requests'[s])
  }

  predicate Succeeds(r: Request, r': Request)
  {
    r'.id == r.id && (r.status.Left? ==> r' == r)
  }

  lemma SettleKeepsTable(pending: map<nat, nat>, requests: seq<Request>, ids: set<nat>, cause: Cause)
    requires TableMatches(pending, requests)
    ensures TableMatches(pending - ids, Settle(requests, ids, cause))
  {
    var requests' := Settle(requests, ids, cause);
    forall id | id in pending - ids
      ensures Holds(requests', pending[id], id)
    {
      assert Holds(requests, pending[id], id);
    }
  }

  /** Holding more responses keeps deliveries apart, as long as each was still in the table. */
  lemma HoldMore(
    requests: seq<Request>, requests': seq<Request>, held: map<nat, Message>, extra: map<nat, Message>,
    delivered: seq<Delivery>)
    requires LeftForGood(requests, requests') && HeldAnswer(requests, held)
    requires DeliveredAnswer(requests, held, delivered)
    requires HeldAnswer(requests', extra)
    requires forall s :: s in extra ==> Holds(requests, s, extra[s].id)
    ensures HeldAnswer(requests', held + extra) && DeliveredAnswer(requests', held + extra, delivered)
  {
    forall s | s in held + extra
      ensures Answers(requests', s, (held + extra)[s])
    {
      if s in extra {
        assert Answers(requests', s, extra[s]);
      } else {
        assert Answers(requests, s, held[s]) && Succeeds(requests[s], requests'[s]);
      }
    }
    forall i | 0 <= i < |delivered| && delivered[i].serial.Some?
      ensures UsedUp(requests', held + extra, delivered[i].serial.value, delivered[i].message)
    {
      var s := delivered[i].serial.value;
      assert UsedUp(requests, held, s, delivered[i].message) && Succeeds(requests[s], requests'[s]);
      assert s in extra ==> Holds(requests, s, extra[s].id);
    }
  }

  lemma HoldNoMore(requests: seq<Request>, requests': seq<Request>, held: map<nat, Message>, delivered: seq<Delivery>)
    requires LeftForGood(requests, requests') && HeldAnswer(requests, held)
    requires DeliveredAnswer(requests, held, delivered)
    ensures HeldAnswer(requests', held) && DeliveredAnswer(requests', held, delivered)
  {
    HoldMore(requests, requests', held, map[], delivered);
    assert held + map[] == held;
  }

  lemma RemoveSize(pending: map<nat, nat>, ids: set<nat>)
    requires ids <= pending.Keys
    ensures |pending - ids| == |pending| - |ids|
  {
    assert (pending - ids).Keys == pending.Keys - ids;
  }

  /** The messages are responses to exactly the registrations with these IDs that are still in the table. */
  ghost predicate Pending(requests: seq<Request>, ids: set<nat>, cause: Cause, extra: map<nat, Message>)
  {
    && (forall s :: s in extra ==>
      Holds(requests, s, extra[s].id) && extra[s].id in ids && Fits(requests[s], cause, extra[s]))
    && (forall s :: 0 <= s < |requests| && requests[s].status.InTable? && requests[s].id in ids ==> s in extra)
  }

  predicate Fits(r: Request, cause: Cause, m: Message)
  {
    m.isResponse && (m.route == "" ==> r.route == "") && (cause.TimedOut? ==> m == TimeoutMessage(r))
  }

  lemma SettledAnswer(requests: seq<Request>, ids: set<nat>, cause: Cause, extra: map<nat, Message>)
    requires Pending(requests, ids, cause, extra) && (cause.Answered? || cause.TimedOut?)
    ensures HeldAnswer(Settle(requests, ids, cause), extra)
  {
    forall s | s in extra
      ensures Answers(Settle(requests, ids, cause), s, extra[s])
    {
      assert Holds(requests, s, extra[s].id);
      assert Settle(requests, ids, cause)[s] == SettleOne(requests[s], ids, cause);
    }
  }

  lemma SettleLosesNone(
    requests: seq<Request>, ids: set<nat>, cause: Cause, held: map<nat, Message>, extra: map<nat, Message>,
    delivered: seq<Delivery>)
    requires NothingLost(requests, held, delivered) && Pending(requests, ids, cause, extra)
    ensures NothingLost(Settle(requests, ids, cause), held + extra, delivered)
  {
    var requests' := Settle(requests, ids, cause);
    forall s | 0 <= s < |requests'| && LeftWithResponse(requests'[s])
      ensures s in held + extra || WasDelivered(delivered, s)
    {
      assert requests'[s] == SettleOne(requests[s], ids, cause);
    }
  }

  lemma GiveUpLosesNone(
    requests: seq<Request>, ids: set<nat>, cause: Cause, held: map<nat, Message>, delivered: seq<Delivery>)
    requires NothingLost(requests, held, delivered) && !cause.Answered? && !cause.TimedOut?
    ensures NothingLost(Settle(requests, ids, cause), held, delivered)
  {
  }

  lemma TakeKeeps(t: Table, ids: set<nat>, cause: Cause, extra: map<nat, Message>)
    requires Inv(t) && ids <= t.pending.Keys
    requires cause.TimedOut? ==> ids == ExpiredIds(t, cause.now, cause.timeout)
    requires Pending(t.requests, ids, cause, extra) && (cause.Answered? || cause.TimedOut?)
    ensures Inv(Remove(t, ids, cause).(held := t.held + extra))
    ensures LeftForGood(t.requests, Settle(t.requests, ids, cause))
  {
    RemoveSize(t.pending, ids);
    SettleKeepsTable(t.pending, t.requests, ids, cause);
    SettleKeepsTimeouts(t, ids, cause);
    SettledAnswer(t.requests, ids, cause, extra);
    HoldMore(t.requests, Settle(t.requests, ids, cause), t.held, extra, t.delivered);
    if !t.closeCh { SettleLosesNone(t.requests, ids, cause, t.held, extra, t.delivered); }
  }

  lemma SettleKeepsTimeouts(t: Table, ids: set<nat>, cause: Cause)
    requires TableMatches(t.pending, t.requests) && TimeoutsEarned(t.requests)
    requires cause.TimedOut? ==> ids == ExpiredIds(t, cause.now, cause.timeout)
    ensures TimeoutsEarned(Settle(t.requests, ids, cause)) && LeftForGood(t.requests, Settle(t.requests, ids, cause))
  {
  }

  lemma RegisterKeepsTable(pending: map<nat, nat>, requests: seq<Request>, request: Request)
    requires TableMatches(pending, requests) && request.id !in pending && request.status.InTable?
    ensures TableMatches(pending[request.id := |requests|], requests + [request])
    ensures |pending[request.id := |requests|]| == |pending| + 1
  {
    var pending' := pending[request.id := |requests|];
    assert pending'.Keys == pending.Keys + {request.id};
    forall id | id in pending'
      ensures Holds(requests + [request], pending'[id], id)
    {
      assert id != request.id ==> Holds(requests, pending[id], id);
    }
  }

  lemma RegisterKeeps(t: Table, request: Request)
    requires Inv(t) && !t.closed && request.id !in t.pending && t.registering > 0
    requires request.status.InTable?
    ensures LeftForGood(t.requests, t.requests + [request])
    ensures Inv(t.(pending := t.pending[request.id := |t.requests|], requests := t.requests + [request],
      registering := t.registering - 1))
  {
    RegisterKeepsTable(t.pending, t.requests, request);
    HoldNoMore(t.requests, t.requests + [request], t.held, t.delivered);
  }

  lemma StampKeeps(t: Table, id: nat, now: int)
    requires Inv(t) && id in t.pending
    ensures Found(t, id)
    ensures var requests' := t.requests[t.pending[id] := t.requests[t.pending[id]].(sentAt := Some(now))];
      LeftForGood(t.requests, requests') && Inv(t.(requests := requests'))
  {
    assert Holds(t.requests, t.pending[id], id);
    var requests' := t.requests[t.pending[id] := t.requests[t.pending[id]].(sentAt := Some(now))];
    forall other | other in t.pending
      ensures Holds(requests', t.pending[other], other)
    {
      assert Holds(t.requests, t.pending[other], other);
    }
    HoldNoMore(t.requests, requests', t.held, t.delivered);
  }

  lemma DeliverKeeps(requests: seq<Request>, held: map<nat, Message>, delivered: seq<Delivery>, serial: nat)
    requires HeldAnswer(requests, held) && DeliveredAnswer(requests, held, delivered) && serial in held
    ensures HeldAnswer(requests, held - {serial})
    ensures DeliveredAnswer(requests, held - {serial}, delivered)
    ensures DeliveredAnswer(requests, held - {serial}, delivered + [Delivery(held[serial], Some(serial))])
  {
    assert Answers(requests, serial, held[serial]);
    forall i | 0 <= i < |delivered| && delivered[i].serial.Some?
      ensures delivered[i].serial.value != serial
      ensures UsedUp(requests, held - {serial}, delivered[i].serial.value, delivered[i].message)
    {
      assert UsedUp(requests, held, delivered[i].serial.value, delivered[i].message);
    }
  }

  lemma StepKeeps(t: Table, step: Step)
    requires Inv(t) && Enabled(t, step)
    ensures Inv(Perform(t, step)) && LeftForGood(t.requests, Perform(t, step).requests)
  {
    match step
    case TakeSlot =>
    case FinishRegistering(id, route) =>
      if !t.closed && id !in t.pending { RegisterKeeps(t, Request(id, route, None, InTable)); }
    case Stamp(id, now) =>
      if id in t.pending { StampKeeps(t, id, now); }
    case TakeAnswered(m) =>
      if Found(t, m.id) { AnswerKeeps(t, m); }
    case TakeUnsent(id) =>
      if Found(t, id) { GiveUpKeeps(t, {id}, WriteFailed); }
    case TakeExpired(now, timeout) => ExpireKeeps(t, now, timeout);
    case DeliverHeld(s) => HandOverKeeps(t, step);
    case DropHeld(s) => HandOverKeeps(t, step);
    case DeliverPush(m) => HandOverKeeps(t, step);
    case MarkClosed => CloseKeeps(t);
    case SignalClosed =>
  }

  lemma GiveUpKeeps(t: Table, ids: set<nat>, cause: Cause)
    requires Inv(t) && ids <= t.pending.Keys && !cause.TimedOut? && !cause.Answered?
    ensures Inv(Remove(t, ids, cause)) && LeftForGood(t.requests, Settle(t.requests, ids, cause))
  {
    RemoveSize(t.pending, ids);
    SettleKeepsTable(t.pending, t.requests, ids, cause);
    SettleKeepsTimeouts(t, ids, cause);
    HoldNoMore(t.requests, Settle(t.requests, ids, cause), t.held, t.delivered);
    if !t.closeCh { GiveUpLosesNone(t.requests, ids, cause, t.held, t.delivered); }
  }

  lemma CloseKeeps(t: Table)
    requires Inv(t)
    ensures var t' := Remove(t, t.pending.Keys, Disconnected).(closed := true);
      Inv(t') && LeftForGood(t.requests, t'.requests)
  {
    GiveUpKeeps(t, t.pending.Keys, Disconnected);
    assert t.pending - t.pending.Keys == map[];
  }

  lemma HandOverKeeps(t: Table, step: Step)
    requires Inv(t) && Enabled(t, step) && (step.DeliverHeld? || step.DropHeld? || step.DeliverPush?)
    ensures Inv(Perform(t, step)) && Perform(t, step).requests == t.requests
  {
    if !step.DeliverPush? {
      DeliverKeeps(t.requests, t.held, t.delivered, step.serial);
    }
    if !t.closeCh {
      HandOverLosesNone(t.requests, t.held, t.delivered, if step.DeliverHeld? then Some(step.serial) else None,
                        Perform(t, step).delivered);
    }
  }

  lemma HandOverLosesNone(
    requests: seq<Request>, held: map<nat, Message>, delivered: seq<Delivery>, taken: Option<nat>,
    delivered': seq<Delivery>)
    requires NothingLost(requests, held, delivered)
    requires delivered < delivered' && (taken.Some? ==> delivered'[|delivered|].serial == taken)
    ensures NothingLost(requests, if taken.Some? then held - {taken.value} else held, delivered')
  {
    forall s | 0 <= s < |requests| && LeftWithResponse(requests[s]) && WasDelivered(delivered, s)
      ensures WasDelivered(delivered', s)
    {
      var i :| 0 <= i < |delivered| && delivered[i].serial == Some(s);
      assert delivered'[i] == delivered[i];
    }
    if taken.Some? { assert WasDelivered(delivered', taken.value); }
  }

  lemma AnswerKeeps(t: Table, m: Message)
    requires Inv(t) && Found(t, m.id) && m.isResponse
    ensures var t' := Perform(t, TakeAnswered(m)); Inv(t') && LeftForGood(t.requests, t'.requests)
  {
    var s := t.pending[m.id];
    assert Holds(t.requests, s, m.id);
    var extra := map[s := Routed(m, t.requests[s])];
    assert Pending(t.requests, {m.id}, Answered, extra);
    assert t.held[s := Routed(m, t.requests[s])] == t.held + extra;
    TakeKeeps(t, {m.id}, Answered, extra);
  }

  lemma ExpireKeeps(t: Table, now: int, timeout: int)
    requires Inv(t)
    ensures var t' := Swept(t, ExpiredIds(t, now, timeout), TimedOut(now, timeout));
      Inv(t') && LeftForGood(t.requests, t'.requests)
  {
    var ids, cause := ExpiredIds(t, now, timeout), TimedOut(now, timeout);
    TimeoutsPending(t, ids, cause);
    TakeKeeps(t, ids, cause, Timeouts(t, ids));
  }

  lemma TimeoutsPending(t: Table, ids: set<nat>, cause: Cause)
    ensures Pending(t.requests, ids, cause, Timeouts(t, ids))
  {
  }

  // Runs

  ghost predicate IsRun(run: seq<Table>, steps: seq<Step>)
  {
    && |run| == |steps| + 1 && run[0] == EMPTY
    && forall i :: 0 <= i < |steps| ==> Enabled(run[i], steps[i]) && run[i + 1] == Perform(run[i], steps[i])
  }

  /** Over every interleaving: the invariant, and no registration leaves twice or comes back. */
  lemma {:induction false} RunsKeepInvariant(run: seq<Table>, steps: seq<Step>, i: nat)
    requires IsRun(run, steps) && i < |run|
    ensures Inv(run[i])
    ensures forall j :: 0 <= j <= i ==> LeftForGood(run[j].requests, run[i].requests)
  {
    if i > 0 {
      RunsKeepInvariant(run, steps, i - 1);
      StepKeeps(run[i - 1], steps[i - 1]);
      forall j | 0 <= j <= i
        ensures LeftForGood(run[j].requests, run[i].requests)
      {
        if j < i { LeftChains(run[j].requests, run[i - 1].requests, run[i].requests); }
      }
    }
  }

  lemma LeftChains(a: seq<Request>, b: seq<Request>, c: seq<Request>)
    requires LeftForGood(a, b) && LeftForGood(b, c)
    ensures LeftForGood(a, c)
  {
    forall s | 0 <= s < |a|
      ensures Succeeds(a[s], c[s])
    {
      assert Succeeds(a[s], b[s]) && Succeeds(b[s], c[s]);
    }
  }

  /** Once a connection is closed, its table stays empty through every later step. */
  lemma {:induction false} ClosedStaysEmpty(run: seq<Table>, steps: seq<Step>, i: nat, j: nat)
    requires IsRun(run, steps) && i <= j < |run| && run[i].closed
    ensures run[j].closed && run[j].pending == map[]
  {
    RunsKeepInvariant(run, steps, j);
    if i < j {
      ClosedStaysEmpty(run, steps, i, j - 1);
    }
  }

  /** On an open connection no response is lost: it is on its way, or it was delivered, once. */
  lemma ResponsesArrive(run: seq<Table>, steps: seq<Step>, i: nat, s: nat)
    requires IsRun(run, steps) && i < |run| && !run[i].closeCh
    requires s < |run[i].requests| && LeftWithResponse(run[i].requests[s])
    ensures s in run[i].held <==> !WasDelivered(run[i].delivered, s)
    ensures forall j, k :: 0 <= j < k < |run[i].delivered| && run[i].delivered[j].serial == Some(s) ==>
      run[i].delivered[k].serial != Some(s)
  {
    RunsKeepInvariant(run, steps, i);
    var t := run[i];
    forall j | 0 <= j < |t.delivered| && t.delivered[j].serial == Some(s)
      ensures s !in t.held
    {
      assert UsedUp(t.requests, t.held, s, t.delivered[j].message);
    }
  }
}
