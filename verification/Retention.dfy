/**
 What the cache holds over histories that contain invalid registrations: for each server ID, the
 last valid registration among the states of the store that the cache has seen.
 */
module Retention {
  import opened Text
  import opened EtcdKeys
  import opened Registry
  import opened Discovery
  import opened Convergence

  // What a store says about a server ID, read off its keys

  /** This server follows registrations of the ID under the type: not those of blacklisted types, but always its own. */
  predicate Followed(cfg: Settings, id: string, typ: string)
  {
    KeyPart(id) && KeyPart(typ) && (typ !in cfg.blacklist || id == cfg.self)
  }

  predicate Listed(cfg: Settings, store: Store, id: string, typ: string)
  {
    Followed(cfg, id, typ) && GetKey(id, typ) in store
  }

  ghost predicate Gone(cfg: Settings, store: Store, id: string)
  {
    forall typ :: !Listed(cfg, store, id, typ)
  }

  predicate Registers(cfg: Settings, store: Store, id: string, sv: Server)
  {
    sv.id == id && Listed(cfg, store, id, sv.typ) && store[GetKey(id, sv.typ)] == Json(sv)
  }

  /** There is a key of the ID, but its value holds no server of the ID and type in the key. */
  ghost predicate Unreadable(cfg: Settings, store: Store, id: string)
  {
    !Gone(cfg, store, id) && forall sv :: !Registers(cfg, store, id, sv)
  }

  ghost predicate OneKeyPerId(cfg: Settings, store: Store)
  {
    forall id, typ, typ' :: Listed(cfg, store, id, typ) && Listed(cfg, store, id, typ') ==> typ == typ'
  }

  /** A history as etcd makes it, in which no two followed keys share an ID; any value may be invalid. */
  ghost predicate Tidy(cfg: Settings, log: seq<Event>)
  {
    Ordered(log) && forall n: nat :: n <= |log| ==> TidyAt(cfg, log, n)
  }

  ghost predicate TidyAt(cfg: Settings, log: seq<Event>, n: nat)
    requires n <= |log|
  {
    && OneKeyPerId(cfg, StoreAfter(log, n))
    && (n < |log| && log[n].Delete? ==> log[n].key in StoreAfter(log, n))
  }

  /** The keys the code looks at are exactly the followed ones. */
  lemma VisibleExactly(cfg: Settings, key: string, id: string)
    ensures Visible(cfg, key) && KeyId(key) == id <==>
      exists typ :: Followed(cfg, id, typ) && key == GetKey(id, typ)
  {
    if Visible(cfg, key) && KeyId(key) == id {
      KeyRoundTrip(key, ParseKey(key).value);
      assert Followed(cfg, id, ParseKey(key).value.typ);
    }
    forall typ | Followed(cfg, id, typ) && key == GetKey(id, typ)
      ensures Visible(cfg, key) && KeyId(key) == id
    {
      KeyRoundTrip(key, ServerKey(typ, id));
    }
  }

  lemma FollowedKey(cfg: Settings, id: string, typ: string)
    requires Followed(cfg, id, typ)
    ensures ParseKey(GetKey(id, typ)) == Some(ServerKey(typ, id)) && Visible(cfg, GetKey(id, typ))
  {
    KeyRoundTrip(GetKey(id, typ), ServerKey(typ, id));
  }

  // Remembering

  /** A cache that has seen the store: gone, registered anew, or, where the store is unreadable, as before. */
  ghost predicate Sees(cfg: Settings, store: Store, before: Servers, after: Servers, id: string)
  {
    && (Gone(cfg, store, id) ==> id !in after)
    && (forall sv :: Registers(cfg, store, id, sv) ==> Lookup(after, id) == Some(sv))
    && (Unreadable(cfg, store, id) ==> Lookup(after, id) == Lookup(before, id))
  }

  ghost predicate SeesAll(cfg: Settings, store: Store, before: Servers, after: Servers)
  {
    forall id :: Sees(cfg, store, before, after, id)
  }

  ghost predicate Within(log: seq<Event>, visits: seq<nat>)
  {
    |visits| > 0 && forall m :: 0 <= m < |visits| ==> visits[m] <= |log|
  }

  /** The last state seen in which the ID was not unreadable registers the server. */
  ghost predicate Knows(cfg: Settings, log: seq<Event>, visits: seq<nat>, id: string, sv: Server)
    requires Within(log, visits)
  {
    exists m :: 0 <= m < |visits| && LastValid(cfg, log, visits, id, sv, m)
  }

  ghost predicate LastValid(cfg: Settings, log: seq<Event>, visits: seq<nat>, id: string, sv: Server, m: nat)
    requires Within(log, visits) && m < |visits|
  {
    && Registers(cfg, StoreAfter(log, visits[m]), id, sv)
    && forall k :: m < k < |visits| ==> Unreadable(cfg, StoreAfter(log, visits[k]), id)
  }

  /** The cache holds exactly what it knows from the states it has seen. */
  ghost predicate Remembers(cfg: Settings, log: seq<Event>, visits: seq<nat>, servers: Servers)
    requires Within(log, visits)
  {
    forall id, sv :: Lookup(servers, id) == Some(sv) <==> Knows(cfg, log, visits, id, sv)
  }

  lemma RegistersOne(cfg: Settings, store: Store, id: string, sv: Server, sv': Server)
    requires OneKeyPerId(cfg, store) && Registers(cfg, store, id, sv) && Registers(cfg, store, id, sv')
    ensures sv == sv'
  {
    assert Listed(cfg, store, id, sv.typ) && Listed(cfg, store, id, sv'.typ);
  }

  /** What one more state does to what is known. */
  lemma KnowsNext(cfg: Settings, log: seq<Event>, visits: seq<nat>, p: nat, id: string, sv: Server)
    requires Within(log, visits) && p <= |log|
    ensures Knows(cfg, log, visits + [p], id, sv) <==>
      || Registers(cfg, StoreAfter(log, p), id, sv)
      || (Unreadable(cfg, StoreAfter(log, p), id) && Knows(cfg, log, visits, id, sv))
  {
    var more := visits + [p];
    if Knows(cfg, log, more, id, sv) {
      var m :| 0 <= m < |more| && LastValid(cfg, log, more, id, sv, m);
      if m < |visits| { LastValidNext(cfg, log, visits, p, id, sv, m); }
    }
    if Registers(cfg, StoreAfter(log, p), id, sv) {
      assert LastValid(cfg, log, more, id, sv, |visits|);
    }
    if Unreadable(cfg, StoreAfter(log, p), id) && Knows(cfg, log, visits, id, sv) {
      var m :| 0 <= m < |visits| && LastValid(cfg, log, visits, id, sv, m);
      LastValidNext(cfg, log, visits, p, id, sv, m);
    }
  }

  lemma LastValidNext(cfg: Settings, log: seq<Event>, visits: seq<nat>, p: nat, id: string, sv: Server, m: nat)
    requires Within(log, visits) && p <= |log| && m < |visits|
    ensures LastValid(cfg, log, visits + [p], id, sv, m) <==>
      LastValid(cfg, log, visits, id, sv, m) && Unreadable(cfg, StoreAfter(log, p), id)
  {
    var more := visits + [p];
    if LastValid(cfg, log, more, id, sv, m) {
      assert Unreadable(cfg, StoreAfter(log, more[|visits|]), id);
      forall k | m < k < |visits|
        ensures Unreadable(cfg, StoreAfter(log, visits[k]), id)
      {
        assert Unreadable(cfg, StoreAfter(log, more[k]), id);
      }
    }
  }

  lemma VisitOne(cfg: Settings, log: seq<Event>, visits: seq<nat>, p: nat, before: Servers, after: Servers)
    requires Within(log, visits) && p <= |log| && OneKeyPerId(cfg, StoreAfter(log, p))
    requires Remembers(cfg, log, visits, before)
    requires SeesAll(cfg, StoreAfter(log, p), before, after)
    ensures Remembers(cfg, log, visits + [p], after)
  {
    forall id, sv
      ensures Lookup(after, id) == Some(sv) <==> Knows(cfg, log, visits + [p], id, sv)
    {
      VisitOneId(cfg, log, visits, p, before, after, id, sv);
    }
  }

  lemma VisitOneId(
    cfg: Settings, log: seq<Event>, visits: seq<nat>, p: nat, before: Servers, after: Servers, id: string, sv: Server)
    requires Within(log, visits) && p <= |log| && OneKeyPerId(cfg, StoreAfter(log, p))
    requires Lookup(before, id) == Some(sv) <==> Knows(cfg, log, visits, id, sv)
    requires Sees(cfg, StoreAfter(log, p), before, after, id)
    ensures Lookup(after, id) == Some(sv) <==> Knows(cfg, log, visits + [p], id, sv)
  {
    var store := StoreAfter(log, p);
    KnowsNext(cfg, log, visits, p, id, sv);
    if !Gone(cfg, store, id) && !Unreadable(cfg, store, id) {
      var sv' :| Registers(cfg, store, id, sv');
      if Registers(cfg, store, id, sv) { RegistersOne(cfg, store, id, sv, sv'); }
    }
  }

  /** The cache agrees with the state seen last, and files every server under its own ID. */
  lemma AgreesWithLast(cfg: Settings, log: seq<Event>, visits: seq<nat>, servers: Servers)
    requires Within(log, visits) && Remembers(cfg, log, visits, servers)
    ensures SeesAll(cfg, StoreAfter(log, visits[|visits| - 1]), servers, servers) && Keyed(servers)
  {
    var n := |visits| - 1;
    var store := StoreAfter(log, visits[n]);
    forall id
      ensures Sees(cfg, store, servers, servers, id)
    {
      forall sv | Registers(cfg, store, id, sv)
        ensures Lookup(servers, id) == Some(sv)
      {
        assert LastValid(cfg, log, visits, id, sv, n);
      }
      if Gone(cfg, store, id) && id in servers {
        GoneIsUnknown(cfg, log, visits, id, servers[id]);
      }
    }
    forall id | id in servers
      ensures servers[id].id == id
    {
      assert Lookup(servers, id) == Some(servers[id]);
      var m :| 0 <= m < |visits| && LastValid(cfg, log, visits, id, servers[id], m);
    }
  }

  lemma GoneIsUnknown(cfg: Settings, log: seq<Event>, visits: seq<nat>, id: string, sv: Server)
    requires Within(log, visits) && Gone(cfg, StoreAfter(log, visits[|visits| - 1]), id)
    ensures !Knows(cfg, log, visits, id, sv)
  {
    var n := |visits| - 1;
    forall m | 0 <= m < |visits|
      ensures !LastValid(cfg, log, visits, id, sv, m)
    {
      if m < n { assert !Unreadable(cfg, StoreAfter(log, visits[n]), id); }
    }
  }

  // A snapshot shows its store

  /** What the snapshot says about an ID depends on the one key of that ID, if there is one. */
  lemma {:induction false} PickFinds(
    cfg: Settings, kvs: seq<KeyValue>, store: Store, id: string, typ: string, cached: Option<Server>)
    requires ListsOnly(kvs, store) && OneKeyPerId(cfg, store) && Listed(cfg, store, id, typ)
    ensures var kv := KeyValue(GetKey(id, typ), store[GetKey(id, typ)]);
      Pick(cfg, kvs, id, cached) ==
      if kv !in kvs then None else if Held(id, typ, kv.value).Some? then Held(id, typ, kv.value) else cached
  {
    if kvs != [] {
      var n := |kvs| - 1;
      PickFinds(cfg, kvs[..n], store, id, typ, cached);
      FollowedKey(cfg, id, typ);
      VisibleExactly(cfg, kvs[n].key, id);
      assert kvs == kvs[..n] + [kvs[n]];
      if Visible(cfg, kvs[n].key) && KeyId(kvs[n].key) == id {
        var typ' :| Followed(cfg, id, typ') && kvs[n].key == GetKey(id, typ');
        assert Listed(cfg, store, id, typ');
      }
    }
  }

  /** The server a value holds for the ID and type in its key. */
  function Held(id: string, typ: string, value: Registration): Option<Server>
  {
    if value.Json? && value.server.id == id && value.server.typ == typ then Some(value.server) else None
  }

  lemma {:induction false} PickNone(cfg: Settings, kvs: seq<KeyValue>, store: Store, id: string, cached: Option<Server>)
    requires ListsOnly(kvs, store) && Gone(cfg, store, id)
    ensures Pick(cfg, kvs, id, cached) == None
  {
    if kvs != [] {
      var n := |kvs| - 1;
      PickNone(cfg, kvs[..n], store, id, cached);
      VisibleExactly(cfg, kvs[n].key, id);
      forall typ | Followed(cfg, id, typ)
        ensures kvs[n].key != GetKey(id, typ)
      {
        assert !Listed(cfg, store, id, typ);
      }
    }
  }

  lemma SnapshotSees(cfg: Settings, kvs: seq<KeyValue>, store: Store, cached: Servers, id: string)
    requires Lists(kvs, store) && OneKeyPerId(cfg, store)
    ensures Sees(cfg, store, cached, SnapshotServers(cfg, kvs, cached), id)
  {
    SnapshotPerId(cfg, kvs, cached, id);
    if Gone(cfg, store, id) {
      PickNone(cfg, kvs, store, id, Lookup(cached, id));
    } else {
      var typ :| Listed(cfg, store, id, typ);
      PickFinds(cfg, kvs, store, id, typ, Lookup(cached, id));
      ViewOf(cfg, store, id, typ);
    }
  }

  /** With one key per ID, that key tells what the store says about the ID. */
  lemma ViewOf(cfg: Settings, store: Store, id: string, typ: string)
    requires OneKeyPerId(cfg, store) && Listed(cfg, store, id, typ)
    ensures !Gone(cfg, store, id)
    ensures var found := Held(id, typ, store[GetKey(id, typ)]);
      && (Unreadable(cfg, store, id) <==> found.None?)
      && (forall sv :: Registers(cfg, store, id, sv) <==> found == Some(sv))
  {
    forall sv
      ensures Registers(cfg, store, id, sv) <==> Held(id, typ, store[GetKey(id, typ)]) == Some(sv)
    {
      if Registers(cfg, store, id, sv) { assert Listed(cfg, store, id, sv.typ); }
    }
    var found := Held(id, typ, store[GetKey(id, typ)]);
    if found.Some? { assert Registers(cfg, store, id, found.value); }
  }

  // An event shows the store after it

  /** An event at another key leaves what the store says about the ID, and what is cached under it. */
  lemma ElsewhereSees(cfg: Settings, store: Store, event: Event, before: Replayed, id: string)
    requires Keyed(before.servers) && Sees(cfg, store, before.servers, before.servers, id)
    requires forall typ :: Followed(cfg, id, typ) ==> event.key != GetKey(id, typ)
    ensures Sees(cfg, Perform(store, event), before.servers, Replay(cfg, before, event).servers, id)
  {
    var store' := Perform(store, event);
    VisibleExactly(cfg, event.key, id);
    forall typ
      ensures Listed(cfg, store', id, typ) <==> Listed(cfg, store, id, typ)
    {
    }
    forall sv
      ensures Registers(cfg, store', id, sv) <==> Registers(cfg, store, id, sv)
    {
      assert Listed(cfg, store', id, sv.typ) <==> Listed(cfg, store, id, sv.typ);
    }
    assert Gone(cfg, store', id) <==> Gone(cfg, store, id);
    assert Lookup(Replay(cfg, before, event).servers, id) == Lookup(before.servers, id);
  }

  lemma PutSees(cfg: Settings, store: Store, event: Event, before: Replayed, id: string, typ: string)
    requires Keyed(before.servers) && event.Put? && Followed(cfg, id, typ) && event.key == GetKey(id, typ)
    requires OneKeyPerId(cfg, Perform(store, event))
    ensures Sees(cfg, Perform(store, event), before.servers, Replay(cfg, before, event).servers, id)
  {
    var store' := Perform(store, event);
    FollowedKey(cfg, id, typ);
    assert Listed(cfg, store', id, typ);
    ViewOf(cfg, store', id, typ);
  }

  lemma DeleteSees(cfg: Settings, store: Store, event: Event, before: Replayed, id: string, typ: string)
    requires Keyed(before.servers) && event.Delete? && Followed(cfg, id, typ) && event.key == GetKey(id, typ)
    requires OneKeyPerId(cfg, store) && event.key in store
    ensures Sees(cfg, Perform(store, event), before.servers, Replay(cfg, before, event).servers, id)
  {
    var store' := Perform(store, event);
    FollowedKey(cfg, id, typ);
    assert Listed(cfg, store, id, typ);
    forall other
      ensures !Listed(cfg, store', id, other)
    {
      assert Listed(cfg, store', id, other) ==> Listed(cfg, store, id, other);
    }
  }

  lemma EventSees(cfg: Settings, log: seq<Event>, n: nat, before: Replayed, id: string)
    requires Tidy(cfg, log) && n < |log| && Keyed(before.servers)
    requires Sees(cfg, StoreAfter(log, n), before.servers, before.servers, id)
    ensures Sees(cfg, StoreAfter(log, n + 1), before.servers, Replay(cfg, before, log[n]).servers, id)
  {
    var store := StoreAfter(log, n);
    assert TidyAt(cfg, log, n) && TidyAt(cfg, log, n + 1);
    if typ :| Followed(cfg, id, typ) && log[n].key == GetKey(id, typ) {
      if log[n].Put? {
        PutSees(cfg, store, log[n], before, id, typ);
      } else {
        DeleteSees(cfg, store, log[n], before, id, typ);
      }
    } else {
      ElsewhereSees(cfg, store, log[n], before, id);
    }
  }

  // Runs

  /** The positions passed on the way from one to another. */
  function Upto(from: nat, to: nat): (positions: seq<nat>)
    ensures |positions| == if from < to then to - from else 0
    ensures forall i :: 0 <= i < |positions| ==> positions[i] == from + 1 + i
  {
    if from < to then seq(to - from, i => from + 1 + i) else []
  }

  lemma OneMoreEvent(cfg: Settings, log: seq<Event>, visits: seq<nat>, n: nat, before: Replayed)
    requires Tidy(cfg, log) && Within(log, visits) && n < |log| && visits[|visits| - 1] == n
    requires Remembers(cfg, log, visits, before.servers)
    ensures Within(log, visits + [n + 1]) && Remembers(cfg, log, visits + [n + 1], Replay(cfg, before, log[n]).servers)
  {
    AgreesWithLast(cfg, log, visits, before.servers);
    EventSeesAll(cfg, log, n, before);
    assert TidyAt(cfg, log, n + 1);
    VisitOne(cfg, log, visits, n + 1, before.servers, Replay(cfg, before, log[n]).servers);
  }

  lemma EventSeesAll(cfg: Settings, log: seq<Event>, n: nat, before: Replayed)
    requires Tidy(cfg, log) && n < |log| && Keyed(before.servers)
    requires SeesAll(cfg, StoreAfter(log, n), before.servers, before.servers)
    ensures SeesAll(cfg, StoreAfter(log, n + 1), before.servers, Replay(cfg, before, log[n]).servers)
  {
    var store', after := StoreAfter(log, n + 1), Replay(cfg, before, log[n]).servers;
    forall id
      ensures Sees(cfg, store', before.servers, after, id)
    {
      EventSees(cfg, log, n, before, id);
    }
  }

  /** The cache remembers the states seen, the last of which is at this position. */
  ghost predicate RemembersUpto(cfg: Settings, log: seq<Event>, visits: seq<nat>, servers: Servers, position: nat)
  {
    Within(log, visits) && visits[|visits| - 1] == position && Remembers(cfg, log, visits, servers)
  }

  lemma {:induction false} BatchRemembers(
    cfg: Settings, log: seq<Event>, visits: seq<nat>, servers: Servers, boundary: int, from: nat, events: seq<Event>,
    n: nat)
    requires Tidy(cfg, log) && RemembersUpto(cfg, log, visits, servers, Count(log, boundary))
    requires n <= |events| && from + |events| <= |log| && from <= Count(log, boundary)
    requires forall i :: 0 <= i < |events| ==> events[i] == log[from + i]
    ensures var reached := Reached(log, boundary, from, n);
      RemembersUpto(cfg, log, visits + Upto(Count(log, boundary), reached),
                    ReplayAll(cfg, servers, boundary, events, n).servers, reached)
  {
    var c := Count(log, boundary);
    if n == 0 {
      assert visits + Upto(c, c) == visits;
    } else {
      BatchRemembers(cfg, log, visits, servers, boundary, from, events, n - 1);
      var before := ReplayAll(cfg, servers, boundary, events, n - 1);
      BatchOne(cfg, log, visits, boundary, from + n - 1, before, events[n - 1]);
    }
  }

  lemma BatchOne(
    cfg: Settings, log: seq<Event>, visits: seq<nat>, boundary: int, n: nat, before: Replayed, event: Event)
    requires Tidy(cfg, log) && n < |log| && event == log[n] && |visits| > 0
    requires var c := Count(log, boundary);
      RemembersUpto(cfg, log, visits + Upto(c, Max(n, c)), before.servers, Max(n, c))
    ensures var c := Count(log, boundary);
      RemembersUpto(cfg, log, visits + Upto(c, Max(n + 1, c)),
                    (if event.revision > boundary then Replay(cfg, before, event) else before).servers, Max(n + 1, c))
  {
    var c := Count(log, boundary);
    CountSplits(log, boundary);
    if n >= c {
      OneMoreEvent(cfg, log, visits + Upto(c, n), n, before);
      assert visits + Upto(c, n + 1) == visits + Upto(c, n) + [n + 1];
    }
  }

  /**
   The states of the store that a run has seen, by position in the history: of each snapshot it
   took and each event it applied.
   */
  ghost function Seen(cfg: Settings, log: seq<Event>, run: seq<Replica>, steps: seq<Step>, i: nat): seq<nat>
    requires IsRun(cfg, log, run, steps) && i < |run|
  {
    if i == 0 then [0]
    else
      var seen := Seen(cfg, log, run, steps, i - 1);
      assert Next(cfg, log, run[i - 1], steps[i - 1], run[i - 1 + 1]);
      match steps[i - 1]
      case Sync(snapshot) => Shown(log, seen, run[i - 1].applied, snapshot)
      case Restart(snapshot) => Shown(log, seen, run[i - 1].applied, snapshot)
      case Deliver(upto) => seen + Upto(Count(log, run[i - 1].applied), upto)
      case Break => seen
  }

  function Shown(log: seq<Event>, seen: seq<nat>, applied: int, snapshot: Snapshot): seq<nat>
  {
    if snapshot.revision < applied then seen else seen + [Count(log, snapshot.revision)]
  }

  ghost predicate Follows(cfg: Settings, log: seq<Event>, seen: seq<nat>, r: Replica)
  {
    && 0 <= r.applied && RemembersUpto(cfg, log, seen, r.servers, Count(log, r.applied))
    && (r.stream.Some? ==> r.stream.value <= Count(log, r.applied))
  }

  lemma SyncFollows(cfg: Settings, log: seq<Event>, seen: seq<nat>, r: Replica, snapshot: Snapshot)
    requires Tidy(cfg, log) && Follows(cfg, log, seen, r) && IsSnapshot(log, snapshot)
    ensures Follows(cfg, log, Shown(log, seen, r.applied, snapshot), AfterSync(cfg, r, snapshot))
  {
    if snapshot.revision >= r.applied {
      var p := Count(log, snapshot.revision);
      var servers := SnapshotServers(cfg, snapshot.kvs, r.servers);
      assert TidyAt(cfg, log, p);
      var store := StoreAfter(log, p);
      forall id
        ensures Sees(cfg, store, r.servers, servers, id)
      {
        SnapshotSees(cfg, snapshot.kvs, store, r.servers, id);
      }
      VisitOne(cfg, log, seen, p, r.servers, servers);
      CountMonotone(log, r.applied, snapshot.revision);
    }
  }

  lemma DeliverFollows(cfg: Settings, log: seq<Event>, seen: seq<nat>, r: Replica, upto: nat, r': Replica)
    requires Tidy(cfg, log) && Follows(cfg, log, seen, r) && Next(cfg, log, r, Deliver(upto), r')
    ensures Follows(cfg, log, seen + Upto(Count(log, r.applied), upto), r') && r.applied <= r'.applied
  {
    BatchFollows(cfg, log, seen, r.servers, r.applied, r.stream.value, log[r.stream.value..upto]);
  }

  lemma BatchFollows(
    cfg: Settings, log: seq<Event>, seen: seq<nat>, servers: Servers, boundary: int, from: nat, events: seq<Event>)
    requires Tidy(cfg, log) && RemembersUpto(cfg, log, seen, servers, Count(log, boundary))
    requires from + |events| <= |log| && from <= Count(log, boundary) && EndsRevision(log, from + |events|)
    requires events == log[from..from + |events|]
    ensures var latest := Latest(boundary, events, |events|);
      && boundary <= latest && from + |events| <= Count(log, latest)
      && RemembersUpto(cfg, log, seen + Upto(Count(log, boundary), from + |events|),
                       ReplayAll(cfg, servers, boundary, events, |events|).servers, Count(log, latest))
  {
    var c, latest := Count(log, boundary), Latest(boundary, events, |events|);
    var reached := Reached(log, boundary, from, |events|);
    var after := ReplayAll(cfg, servers, boundary, events, |events|).servers;
    BatchRemembers(cfg, log, seen, servers, boundary, from, events, |events|);
    LatestOfBatch(log, boundary, from, events);
    UptoSame(c, from + |events|, reached);
    SamePlace(cfg, log, seen + Upto(c, reached), seen + Upto(c, from + |events|), after, reached, Count(log, latest));
  }

  lemma SamePlace(
    cfg: Settings, log: seq<Event>, visits: seq<nat>, visits': seq<nat>, servers: Servers, position: nat,
    position': nat)
    requires RemembersUpto(cfg, log, visits, servers, position) && visits == visits' && position == position'
    ensures RemembersUpto(cfg, log, visits', servers, position')
  {
  }

  lemma UptoSame(from: nat, to: nat, reached: nat)
    requires reached == Max(to, from)
    ensures Upto(from, to) == Upto(from, reached)
  {
  }

  /**
   In every run, also over invalid registrations, the cache holds a server if and only if it is the
   last valid one of its ID in the states the run has seen, with nothing but unreadable
   registrations of that ID seen since. The last state seen is the one at the applied revision.
   */
  lemma {:induction false} RunsRemember(cfg: Settings, log: seq<Event>, run: seq<Replica>, steps: seq<Step>, i: nat)
    requires Tidy(cfg, log) && IsRun(cfg, log, run, steps) && i < |run|
    ensures Follows(cfg, log, Seen(cfg, log, run, steps, i), run[i])
  {
    if i == 0 {
      FirstFollows(cfg, log);
    } else {
      RunsRemember(cfg, log, run, steps, i - 1);
      var seen := Seen(cfg, log, run, steps, i - 1);
      assert Next(cfg, log, run[i - 1], steps[i - 1], run[i - 1 + 1]);
      match steps[i - 1]
      case Sync(snapshot) => SyncFollows(cfg, log, seen, run[i - 1], snapshot);
      case Restart(snapshot) => SyncFollows(cfg, log, seen, run[i - 1], snapshot);
      case Deliver(upto) => DeliverFollows(cfg, log, seen, run[i - 1], upto, run[i]);
      case Break =>
    }
  }

  lemma FirstFollows(cfg: Settings, log: seq<Event>)
    requires Ordered(log)
    ensures Follows(cfg, log, [0], Replica(map[], 0, None))
  {
    CountSplits(log, 0);
    assert Count(log, 0) == 0 by { if |log| > 0 { assert log[0].revision > 0; } }
    forall id, sv
      ensures !Knows(cfg, log, [0], id, sv)
    {
      forall m | 0 <= m < 1 ensures !LastValid(cfg, log, [0], id, sv, m) { assert StoreAfter(log, 0) == map[]; }
    }
  }
}
