/** The methods of a connection generation, each tied to its step of the in-flight table. */
module Generation {
  import opened Text
  import opened PendingTable
  import E = PendingEffects

  datatype RegisterError = ConnectionClosed | DuplicateRequest

  /** Removing one more entry. */
  lemma RemoveOneMore(t: Table, ids: set<nat>, id: nat, cause: Cause)
    requires id !in ids
    ensures Remove(Remove(t, ids, cause), {id}, cause) == Remove(t, ids + {id}, cause)
  {
    assert t.pending - ids - {id} == t.pending - (ids + {id});
    var left, right := Settle(Settle(t.requests, ids, cause), {id}, cause), Settle(t.requests, ids + {id}, cause);
    assert forall s :: 0 <= s < |t.requests| ==> left[s] == right[s];
    assert left == right;
  }

  lemma RemoveNone(t: Table, cause: Cause)
    ensures Remove(t, {}, cause) == t
  {
    assert t.pending - {} == t.pending;
    assert Settle(t.requests, {}, cause) == t.requests;
  }

  /** The serials listed are those of the IDs gone. */
  ghost predicate Listed(t: Table, gone: set<nat>, serials: seq<nat>)
  {
    forall s :: s in serials <==> InGone(t, gone, s)
  }

  /** Of the entries no longer to do, exactly the expired ones are gone. */
  ghost predicate Partitioned(t: Table, now: int, timeout: int, gone: set<nat>, todo: set<nat>)
  {
    && todo <= t.pending.Keys
    && gone == ExpiredIds(t, now, timeout) - todo
  }

  lemma PartitionEnds(t: Table, now: int, timeout: int)
    ensures Partitioned(t, now, timeout, {}, t.pending.Keys) && Listed(t, {}, [])
    ensures forall gone :: Partitioned(t, now, timeout, gone, {}) ==> gone == ExpiredIds(t, now, timeout)
  {
  }

  lemma PartitionOne(t: Table, now: int, timeout: int, gone: set<nat>, todo: set<nat>, id: nat)
    requires Inv(t) && Partitioned(t, now, timeout, gone, todo) && id in todo
    ensures Found(t, id) && id !in gone && gone <= t.pending.Keys
    ensures var expired := Expired(t.requests[t.pending[id]], now, timeout);
      Partitioned(t, now, timeout, if expired then gone + {id} else gone, todo - {id})
  {
    assert Holds(t.requests, t.pending[id], id);
  }

  predicate InGone(t: Table, gone: set<nat>, s: nat)
  {
    s < |t.requests| && t.requests[s].status.InTable? && t.requests[s].id in gone
  }

  /** The serials are those of the pending requests that were stamped and whose timeout has passed. */
  ghost predicate ExactlyOverdue(requests: seq<Request>, serials: seq<nat>, now: int, timeout: int)
  {
    forall s: nat :: s in serials <==> s < |requests| && InTableAndExpired(requests[s], now, timeout)
  }

  predicate InTableAndExpired(r: Request, now: int, timeout: int)
  {
    r.status.InTable? && Expired(r, now, timeout)
  }

  lemma StillInPlace(t: Table, gone: set<nat>, id: nat, cause: Cause)
    requires Inv(t) && id in t.pending && id !in gone
    ensures Holds(t.requests, t.pending[id], id)
    ensures Found(Remove(t, gone, cause), id) && Remove(t, gone, cause).pending[id] == t.pending[id]
    ensures Remove(t, gone, cause).requests[t.pending[id]] == t.requests[t.pending[id]]
  {
  }

  lemma SweepOne(t: Table, gone: set<nat>, serials: seq<nat>, id: nat)
    requires Inv(t) && Listed(t, gone, serials) && id in t.pending
    ensures Listed(t, gone + {id}, serials + [t.pending[id]])
  {
    assert Holds(t.requests, t.pending[id], id);
    forall s
      ensures s in serials + [t.pending[id]] <==> InGone(t, gone + {id}, s)
    {
      assert s in serials <==> InGone(t, gone, s);
    }
  }

  lemma SweptExpired(t: Table, serials: seq<nat>, now: int, timeout: int)
    requires Inv(t) && Listed(t, ExpiredIds(t, now, timeout), serials)
    ensures ExactlyOverdue(t.requests, serials, now, timeout)
  {
    forall s: nat
      ensures s in serials <==> s < |t.requests| && InTableAndExpired(t.requests[s], now, timeout)
    {
      assert s in serials <==> InGone(t, ExpiredIds(t, now, timeout), s);
    }
  }

  class ConnectionGeneration {
    var pending: map<nat, nat>
    var requests: seq<Request>
    var slots: int
    var closed: bool
    var closeCh: bool
    ghost var delivered: seq<Delivery>
    ghost var registering: int
    ghost var held: map<nat, Message>

    ghost function State(): Table
      reads this
    {
      Table(pending, requests, slots, closed, closeCh, registering, held, delivered)
    }

    constructor ()
      ensures State() == EMPTY
    {
      pending, requests, slots, closed, closeCh := map[], [], 0, false, false;
      delivered, registering, held := [], 0, map[];
    }

    /** A receive from the slots channel. It would block on an empty channel. */
    method ReceiveSlot()
      requires slots > 0
      modifies this`slots
      ensures slots == old(slots) - 1
    {
      slots := slots - 1;
    }

    /** The select of registerPending; with no room and no close signal the sender stays parked. */
    method AcquireSlot() returns (err: Option<RegisterError>)
      requires slots < INFLIGHT_LIMIT || closeCh
      modifies this`slots, this`registering
      ensures err.None? ==> old(Enabled(State(), TakeSlot)) && State() == old(Perform(State(), TakeSlot))
      ensures err.Some? ==> State() == old(State()) && closeCh
    {
      err := None;
      var sendFirst: bool := *;
      if slots < INFLIGHT_LIMIT && (sendFirst || !closeCh) {
        slots := slots + 1;
        registering := registering + 1;
      } else {
        err := Some(ConnectionClosed);
      }
    }

    method FinishRegister(id: nat, route: string) returns (err: Option<RegisterError>)
      requires Inv(State()) && registering > 0
      modifies this`pending, this`requests, this`slots, this`registering
      ensures State() == old(Perform(State(), FinishRegistering(id, route)))
      ensures err.None? <==> id in pending && id !in old(pending)
      ensures E.Registered(old(State()), State(), id, route)
    {
      E.RegisterAchieves(State(), id, route);
      registering := registering - 1;
      if closed {
        ReceiveSlot();
        return Some(ConnectionClosed);
      }
      if id in pending {
        ReceiveSlot();
        return Some(DuplicateRequest);
      }
      pending := pending[id := |requests|];
      requests := requests + [Request(id, route, None, InTable)];
      return None;
    }

    method StampSent(id: nat, now: int)
      requires Inv(State())
      modifies this`requests
      ensures State() == old(Perform(State(), Stamp(id, now)))
      ensures E.Stamped(old(State()), State(), id, now)
    {
      E.StampAchieves(State(), id, now);
      if id in pending {
        assert Holds(requests, pending[id], id);
        requests := requests[pending[id] := requests[pending[id]].(sentAt := Some(now))];
      }
    }

    method TakePending(id: nat, cause: Cause) returns (taken: Option<nat>)
      requires Inv(State())
      modifies this`pending, this`requests, this`slots
      ensures taken.None? ==> id !in old(pending) && State() == old(State())
      ensures taken.Some? ==> old(Found(State(), id)) && taken.value == old(pending[id])
      ensures taken.Some? ==> State() == old(Remove(State(), {id}, cause))
      ensures taken.Some? ==> E.Taken(old(State()), State(), id, cause)
    {
      if id !in pending {
        return None;
      }
      taken := Some(pending[id]);
      assert Holds(requests, pending[id], id);
      RemoveSize(pending, {id});
      E.TakeAchieves(State(), id, cause);
      TakeEntry(id, cause);
    }

    /** One `delete` from the table with its receive from the channel. */
    method TakeEntry(id: nat, cause: Cause)
      requires slots > 0
      modifies this`pending, this`requests, this`slots
      ensures State() == old(Remove(State(), {id}, cause))
    {
      pending := pending - {id};
      ReceiveSlot();
      requests := Settle(requests, {id}, cause);
    }

    /** A response off the wire: one without a pending request is ignored. */
    method TakeResponse(m: Message) returns (taken: Option<nat>)
      requires Inv(State()) && m.isResponse
      modifies this`pending, this`requests, this`slots, this`held
      ensures State() == old(Perform(State(), TakeAnswered(m)))
      ensures taken.Some? <==> m.id in old(pending)
      ensures E.Answered(old(State()), State(), m)
    {
      E.AnswerAchieves(State(), m);
      ghost var before := State();
      taken := TakePending(m.id, Answered);
      if taken.Some? {
        held := held[taken.value := Routed(m, before.requests[taken.value])];
      }
    }

    method TakeAfterFailedWrite(id: nat)
      requires Inv(State())
      modifies this`pending, this`requests, this`slots
      ensures State() == old(Perform(State(), TakeUnsent(id)))
      ensures E.GivenUp(old(State()), State(), id) && id !in pending
    {
      E.FoundPending(State(), id);
      var _ := TakePending(id, WriteFailed);
    }

    /** One round of the reaper's loop. */
    method ReapOne(
      id: nat, now: int, timeout: int, ghost before: Table, ghost gone: set<nat>) returns (taken: Option<nat>)
      requires Inv(before) && id in before.pending && id !in gone && gone <= before.pending.Keys
      requires State() == Remove(before, gone, TimedOut(now, timeout))
      modifies this`pending, this`requests, this`slots
      ensures Found(before, id)
      ensures taken == if Expired(before.requests[before.pending[id]], now, timeout) then Some(before.pending[id])
        else None
      ensures State() == Remove(before, if taken.Some? then gone + {id} else gone, TimedOut(now, timeout))
    {
      StillInPlace(before, gone, id, TimedOut(now, timeout));
      if requests[pending[id]].sentAt.None? || now - requests[pending[id]].sentAt.value <= timeout {
        return None;
      }
      taken := Some(pending[id]);
      RemoveSize(before.pending, gone);
      RemoveOneMore(before, gone, id, TimedOut(now, timeout));
      TakeEntry(id, TimedOut(now, timeout));
    }

    /** The reaper's loop over the table. */
    method Sweep(now: int, timeout: int, ghost before: Table) returns (expired: seq<nat>)
      requires Inv(before) && State() == before
      modifies this`pending, this`requests, this`slots
      ensures State() == Remove(before, ExpiredIds(before, now, timeout), TimedOut(now, timeout))
      ensures Listed(before, ExpiredIds(before, now, timeout), expired)
    {
      ghost var gone: set<nat> := {};
      expired := [];
      var todo := pending.Keys;
      RemoveNone(before, TimedOut(now, timeout));
      PartitionEnds(before, now, timeout);
      while todo != {}
        invariant Partitioned(before, now, timeout, gone, todo)
        invariant State() == Remove(before, gone, TimedOut(now, timeout))
        invariant Listed(before, gone, expired)
        decreases todo
      {
        var id :| id in todo;
        PartitionOne(before, now, timeout, gone, todo, id);
        var taken := ReapOne(id, now, timeout, before, gone);
        if taken.Some? {
          SweepOne(before, gone, expired, id);
          expired := expired + [taken.value];
          gone := gone + {id};
        }
        todo := todo - {id};
      }
    }

    /** The reaper's sweep: every stamped request past the timeout, and no other, leaves the table. */
    method TakeExpiredPending(now: int, timeout: int) returns (expired: seq<nat>)
      requires Inv(State())
      modifies this`pending, this`requests, this`slots, this`held
      ensures State() == old(Swept(State(), ExpiredIds(State(), now, timeout), TimedOut(now, timeout)))
      ensures ExactlyOverdue(old(requests), expired, now, timeout)
      ensures E.Reaped(old(State()), State(), now, timeout)
    {
      ghost var before := State();
      expired := SweepListed(now, timeout, before);
      HoldTimeouts(now, timeout, before);
    }

    method SweepListed(now: int, timeout: int, ghost before: Table) returns (expired: seq<nat>)
      requires Inv(before) && State() == before
      modifies this`pending, this`requests, this`slots
      ensures State() == Remove(before, ExpiredIds(before, now, timeout), TimedOut(now, timeout))
      ensures ExactlyOverdue(before.requests, expired, now, timeout)
    {
      expired := Sweep(now, timeout, before);
      SweptExpired(before, expired, now, timeout);
    }

    /** The timeout responses are on their way to the consumer. */
    ghost method HoldTimeouts(now: int, timeout: int, before: Table)
      requires Inv(before) && State() == Remove(before, ExpiredIds(before, now, timeout), TimedOut(now, timeout))
      modifies this`held
      ensures State() == Swept(before, ExpiredIds(before, now, timeout), TimedOut(now, timeout))
      ensures E.Reaped(before, State(), now, timeout)
    {
      held := held + Timeouts(before, ExpiredIds(before, now, timeout));
      assert State() == Swept(before, ExpiredIds(before, now, timeout), TimedOut(now, timeout));
      E.SweepAchieves(before, now, timeout);
    }

    /** The part of disconnectGeneration under the lock: the table is emptied, token by token. */
    method CloseTable()
      requires Inv(State()) && !closed
      modifies this`pending, this`requests, this`slots, this`closed
      ensures State() == old(Perform(State(), MarkClosed))
      ensures pending == map[]
      ensures E.Emptied(old(State()), State())
    {
      E.CloseAchieves(State());
      closed := true;
      Drain(State());
    }

    method Drain(ghost before: Table)
      requires before.slots >= |before.pending| && State() == before
      modifies this`pending, this`requests, this`slots
      ensures State() == Remove(before, before.pending.Keys, Disconnected)
      ensures pending == map[]
    {
      ghost var gone: set<nat> := {};
      RemoveNone(before, Disconnected);
      while pending != map[]
        invariant gone <= before.pending.Keys
        invariant State() == Remove(before, gone, Disconnected)
        decreases pending.Keys
      {
        var id :| id in pending;
        DrainOne(id, before, gone);
        gone := gone + {id};
      }
      assert forall id :: id in before.pending && id !in gone ==> id in pending;
      assert gone == before.pending.Keys;
    }

    method DrainOne(id: nat, ghost before: Table, ghost gone: set<nat>)
      requires before.slots >= |before.pending| && id in before.pending && id !in gone && gone <= before.pending.Keys
      requires State() == Remove(before, gone, Disconnected)
      modifies this`pending, this`requests, this`slots
      ensures State() == Remove(before, gone + {id}, Disconnected)
    {
      RemoveSize(before.pending, gone);
      RemoveSize(before.pending, gone + {id});
      RemoveOneMore(before, gone, id, Disconnected);
      TakeEntry(id, Disconnected);
    }

    /** When the signal is given no request is pending and every token belongs to a sender about to be refused. */
    method CloseChannel()
      requires Inv(State()) && closed
      modifies this`closeCh
      ensures State() == old(Perform(State(), SignalClosed)) && Inv(State())
      ensures pending == map[] && slots == registering
    {
      closeCh := true;
    }

    /** deliver: the consumer gets a held response, or the closed connection swallows it. */
    method DeliverResponse(ghost serial: nat) returns (ok: bool)
      requires serial in held
      modifies this`delivered, this`held
      ensures State() == old(Perform(State(), if ok || !closeCh then DeliverHeld(serial) else DropHeld(serial)))
      ensures !ok ==> closeCh
    {
      var take: bool := *;
      ok := take || !closeCh;
      if ok {
        delivered := delivered + [Delivery(held[serial], Some(serial))];
      }
      held := held - {serial};
    }
  }
}
