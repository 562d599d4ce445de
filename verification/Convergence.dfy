/**
 Whole runs of the reconciliation loop against an etcd history: snapshots of any revision,
 watch batches, broken streams and restarts, in any order.
 */
module Convergence {
  import opened Text
  import opened EtcdKeys
  import opened Registry
  import opened Discovery

  type Store = map<string, Registration>

  // The history

  function Perform(store: Store, event: Event): Store
  {
    match event
    case Put(_, key, value) => store[key := value]
    case Delete(_, key) => store - {key}
  }

  /** The store after the first n events. */
  function StoreAfter(log: seq<Event>, n: nat): Store
    requires n <= |log|
  {
    if n == 0 then map[] else Perform(StoreAfter(log, n - 1), log[n - 1])
  }

  /** How many events happened at or below a revision. */
  function Count(log: seq<Event>, revision: int): (n: nat)
    ensures n <= |log|
  {
    if log == [] then 0
    else if log[|log| - 1].revision <= revision then |log|
    else Count(log[..|log| - 1], revision)
  }

  function StoreAt(log: seq<Event>, revision: int): Store
  {
    StoreAfter(log, Count(log, revision))
  }

  predicate IsLive(cfg: Settings, store: Store, key: string)
  {
    key in store && Visible(cfg, key)
  }

  /** No two visible live keys register the same server ID. */
  ghost predicate UniqueIds(cfg: Settings, store: Store)
  {
    forall k, k' :: IsLive(cfg, store, k) && IsLive(cfg, store, k') && KeyId(k) == KeyId(k') ==> k == k'
  }

  ghost predicate AllRegister(cfg: Settings, store: Store)
  {
    forall k :: IsLive(cfg, store, k) ==> Registered(k, store[k]).Some?
  }

  /**
   The cache is exactly what the store describes to this server: every visible live key
   registers the server cached under its ID, and every cached server is live under its own key.
   */
  ghost predicate Mirrors(cfg: Settings, servers: Servers, store: Store)
  {
    && (forall k :: IsLive(cfg, store, k) ==> Lookup(servers, KeyId(k)) == Registered(k, store[k]))
    && (forall id :: id in servers ==> LivesUnderOwnKey(cfg, servers[id], store) && servers[id].id == id)
  }

  predicate LivesUnderOwnKey(cfg: Settings, sv: Server, store: Store)
  {
    var key := GetKey(sv.id, sv.typ);
    IsLive(cfg, store, key) && ParseKey(key) == Some(ServerKey(sv.typ, sv.id))
  }

  /** There is at most one such cache. */
  lemma MirrorIsUnique(cfg: Settings, servers: Servers, servers': Servers, store: Store)
    requires Mirrors(cfg, servers, store) && Mirrors(cfg, servers', store)
    ensures servers == servers'
  {
    forall id | id in servers || id in servers'
      ensures Lookup(servers, id) == Lookup(servers', id)
    {
      var sv := if id in servers then servers[id] else servers'[id];
      assert LivesUnderOwnKey(cfg, sv, store);
      assert KeyId(GetKey(sv.id, sv.typ)) == id;
    }
  }

  /**
   Revisions are positive and ordered, etcd deletes only what is there, visible registrations
   are valid, and no two visible live keys ever share an ID, not even between two events of
   one revision.
   */
  ghost predicate WellBehaved(cfg: Settings, log: seq<Event>)
  {
    Ordered(log) && forall n: nat :: n < |log| ==> Sound(cfg, log, n)
  }

  predicate Ordered(log: seq<Event>)
  {
    && (forall i :: 0 <= i < |log| ==> log[i].revision > 0)
    && (forall i, j :: 0 <= i <= j < |log| ==> log[i].revision <= log[j].revision)
  }

  ghost predicate Sound(cfg: Settings, log: seq<Event>, n: nat)
    requires n < |log|
  {
    Real(cfg, log, n) && UniqueIds(cfg, StoreAfter(log, n + 1))
  }

  /** The event deletes something that is there, or registers a server under its key. */
  ghost predicate Real(cfg: Settings, log: seq<Event>, n: nat)
    requires n < |log|
  {
    && (log[n].Delete? ==> log[n].key in StoreAfter(log, n))
    && (log[n].Put? && Visible(cfg, log[n].key) ==> Registered(log[n].key, log[n].value).Some?)
  }

  // Runs

  /** The cache, what it has applied, and how many events the open watch stream has delivered. */
  datatype Replica = Replica(servers: Servers, applied: int, stream: Option<nat>)

  datatype Step =
    | Sync(snapshot: Snapshot)      // the periodic resynchronisation
    | Restart(snapshot: Snapshot)   // a snapshot, then a new stream from the applied revision
    | Deliver(upto: nat)            // the next batch of the open stream
    | Break                         // the stream ends

  /** The snapshot lists exactly the store at its revision, in any order. */
  ghost predicate IsSnapshot(log: seq<Event>, snapshot: Snapshot)
  {
    Lists(snapshot.kvs, StoreAt(log, snapshot.revision)) && 0 <= snapshot.revision
  }

  ghost predicate Lists(kvs: seq<KeyValue>, store: Store)
  {
    ListsOnly(kvs, store) && forall key :: key in store ==> KeyValue(key, store[key]) in kvs
  }

  ghost predicate ListsOnly(kvs: seq<KeyValue>, store: Store)
  {
    forall i :: 0 <= i < |kvs| ==> kvs[i].key in store && store[kvs[i].key] == kvs[i].value
  }

  function AfterSync(cfg: Settings, r: Replica, snapshot: Snapshot): Replica
  {
    if snapshot.revision < r.applied then r
    else r.(servers := SnapshotServers(cfg, snapshot.kvs, r.servers), applied := snapshot.revision)
  }

  /** A batch holds whole revisions. */
  predicate EndsRevision(log: seq<Event>, n: nat)
    requires n <= |log|
  {
    0 < n < |log| ==> log[n - 1].revision < log[n].revision
  }

  ghost predicate Next(cfg: Settings, log: seq<Event>, r: Replica, step: Step, r': Replica)
  {
    match step
    case Sync(snapshot) => IsSnapshot(log, snapshot) && r' == AfterSync(cfg, r, snapshot)
    case Restart(snapshot) =>
      && IsSnapshot(log, snapshot)
      && var synced := AfterSync(cfg, r, snapshot);
         r' == synced.(stream := Some(Count(log, synced.applied)))
    case Deliver(upto) =>
      && r.stream.Some? && r.stream.value <= upto <= |log| && EndsRevision(log, upto)
      && var events := log[r.stream.value..upto];
         r' == Replica(ReplayAll(cfg, r.servers, r.applied, events, |events|).servers,
           Latest(r.applied, events, |events|), Some(upto))
    case Break => r' == r.(stream := None)
  }

  ghost predicate IsRun(cfg: Settings, log: seq<Event>, run: seq<Replica>, steps: seq<Step>)
  {
    && |run| == |steps| + 1
    && run[0] == Replica(map[], 0, None)
    && forall i :: 0 <= i < |steps| ==> Next(cfg, log, run[i], steps[i], run[i + 1])
  }

  ghost predicate Coherent(cfg: Settings, log: seq<Event>, r: Replica)
  {
    && 0 <= r.applied
    && Mirrors(cfg, r.servers, StoreAt(log, r.applied))
    && (r.stream.Some? ==> r.stream.value <= Count(log, r.applied))
  }

  /**
   In every run, after every step, the cache mirrors the store at the applied revision, and the
   applied revision never decreases.
   */
  lemma {:induction false} RunsConverge(cfg: Settings, log: seq<Event>, run: seq<Replica>, steps: seq<Step>, i: nat)
    requires WellBehaved(cfg, log) && IsRun(cfg, log, run, steps) && i < |run|
    ensures Coherent(cfg, log, run[i])
    ensures forall j :: 0 <= j <= i ==> run[j].applied <= run[i].applied
  {
    if i == 0 {
      CountSplits(log, 0);
    } else {
      RunsConverge(cfg, log, run, steps, i - 1);
      StepKeepsCoherence(cfg, log, run[i - 1], steps[i - 1], run[i]);
    }
  }

  lemma StepKeepsCoherence(cfg: Settings, log: seq<Event>, r: Replica, step: Step, r': Replica)
    requires WellBehaved(cfg, log) && Coherent(cfg, log, r) && Next(cfg, log, r, step, r')
    ensures Coherent(cfg, log, r') && r.applied <= r'.applied
  {
    match step
    case Sync(snapshot) => SyncKeepsCoherence(cfg, log, r, snapshot);
    case Restart(snapshot) => SyncKeepsCoherence(cfg, log, r, snapshot);
    case Deliver(upto) =>
      BatchKeepsCoherence(cfg, log, r.servers, r.applied, r.stream.value, log[r.stream.value..upto]);
    case Break =>
  }

  lemma BatchKeepsCoherence(
    cfg: Settings, log: seq<Event>, servers: Servers, boundary: int, from: nat, events: seq<Event>)
    requires WellBehaved(cfg, log) && Mirrors(cfg, servers, StoreAt(log, boundary))
    requires from + |events| <= |log| && from <= Count(log, boundary) && EndsRevision(log, from + |events|)
    requires events == log[from..from + |events|]
    ensures var latest := Latest(boundary, events, |events|);
      && boundary <= latest && from + |events| <= Count(log, latest)
      && Mirrors(cfg, ReplayAll(cfg, servers, boundary, events, |events|).servers, StoreAt(log, latest))
  {
    BatchReachesStore(cfg, log, servers, boundary, from, events, |events|);
    LatestOfBatch(log, boundary, from, events);
  }

  lemma SyncKeepsCoherence(cfg: Settings, log: seq<Event>, r: Replica, snapshot: Snapshot)
    requires WellBehaved(cfg, log) && Coherent(cfg, log, r) && IsSnapshot(log, snapshot)
    ensures Coherent(cfg, log, AfterSync(cfg, r, snapshot)) && r.applied <= AfterSync(cfg, r, snapshot).applied
  {
    if snapshot.revision >= r.applied {
      var store := StoreAt(log, snapshot.revision);
      StoresAreSound(cfg, log, Count(log, snapshot.revision));
      SnapshotMirrors(cfg, snapshot.kvs, store, r.servers);
      CountMonotone(log, r.applied, snapshot.revision);
    }
  }

  // Counting events by revision

  lemma {:induction false} CountSplits(log: seq<Event>, revision: int)
    requires Ordered(log)
    ensures forall k :: 0 <= k < |log| ==> (log[k].revision <= revision <==> k < Count(log, revision))
  {
    if log != [] && log[|log| - 1].revision > revision {
      CountSplits(log[..|log| - 1], revision);
    }
  }

  lemma CountMonotone(log: seq<Event>, low: int, high: int)
    requires Ordered(log)
    requires low <= high
    ensures Count(log, low) <= Count(log, high)
  {
    CountSplits(log, low);
    CountSplits(log, high);
  }

  lemma LatestOfBatch(log: seq<Event>, boundary: int, from: nat, events: seq<Event>)
    requires Ordered(log) && from + |events| <= |log| && events == log[from..from + |events|]
    requires EndsRevision(log, from + |events|) && from <= Count(log, boundary)
    ensures boundary <= Latest(boundary, events, |events|)
    ensures Count(log, Latest(boundary, events, |events|)) == Reached(log, boundary, from, |events|)
  {
    LatestIsLast(log, boundary, from, events, |events|);
    CountSplits(log, boundary);
    if from + |events| > Count(log, boundary) {
      CountSplits(log, log[from + |events| - 1].revision);
    }
  }

  lemma {:induction false} LatestIsLast(log: seq<Event>, boundary: int, from: nat, events: seq<Event>, n: nat)
    requires Ordered(log) && n <= |events| && from + |events| <= |log| && events == log[from..from + |events|]
    ensures Latest(boundary, events, n) ==
            if n > 0 && events[n - 1].revision > boundary then events[n - 1].revision else boundary
  {
    if n > 0 {
      LatestIsLast(log, boundary, from, events, n - 1);
      assert events[n - 1] == log[from + n - 1];
      assert n > 1 ==> events[n - 2] == log[from + n - 2];
    }
  }

  // Watch batches

  /** The place in the history a cache has reached that had applied the boundary and n more events of the stream. */
  function Reached(log: seq<Event>, boundary: int, from: nat, n: nat): nat
  {
    Max(from + n, Count(log, boundary))
  }

  lemma {:induction false} BatchReachesStore(
    cfg: Settings, log: seq<Event>, servers: Servers, boundary: int, from: nat, events: seq<Event>, n: nat)
    requires WellBehaved(cfg, log) && Mirrors(cfg, servers, StoreAt(log, boundary))
    requires n <= |events| && from + |events| <= |log| && from <= Count(log, boundary)
    requires forall i :: 0 <= i < |events| ==> events[i] == log[from + i]
    ensures Mirrors(cfg, ReplayAll(cfg, servers, boundary, events, n).servers,
      StoreAfter(log, Reached(log, boundary, from, n)))
  {
    if n > 0 {
      BatchReachesStore(cfg, log, servers, boundary, from, events, n - 1);
      BatchStep(cfg, log, servers, boundary, from, events, n);
    }
  }

  lemma BatchStep(
    cfg: Settings, log: seq<Event>, servers: Servers, boundary: int, from: nat, events: seq<Event>, n: nat)
    requires WellBehaved(cfg, log) && 0 < n <= |events| && from + |events| <= |log|
    requires events[n - 1] == log[from + n - 1]
    requires Mirrors(cfg, ReplayAll(cfg, servers, boundary, events, n - 1).servers,
      StoreAfter(log, Reached(log, boundary, from, n - 1)))
    ensures Mirrors(cfg, ReplayAll(cfg, servers, boundary, events, n).servers,
      StoreAfter(log, Reached(log, boundary, from, n)))
  {
    BatchEvent(cfg, log, boundary, from + n - 1, ReplayAll(cfg, servers, boundary, events, n - 1), events[n - 1]);
  }

  lemma BatchEvent(cfg: Settings, log: seq<Event>, boundary: int, n: nat, before: Replayed, event: Event)
    requires WellBehaved(cfg, log) && n < |log| && event == log[n]
    requires Mirrors(cfg, before.servers, StoreAfter(log, Max(n, Count(log, boundary))))
    ensures Mirrors(cfg, (if event.revision > boundary then Replay(cfg, before, event) else before).servers,
                    StoreAfter(log, Max(n + 1, Count(log, boundary))))
  {
    CountSplits(log, boundary);
    if event.revision > boundary {
      EventFollowsStore(cfg, log, n, before);
    }
  }

  function Max(a: nat, b: nat): nat
  {
    if a > b then a else b
  }

  /** What one event does to a cache that mirrors the store, it does to the store. */
  lemma EventFollowsStore(cfg: Settings, log: seq<Event>, n: nat, before: Replayed)
    requires WellBehaved(cfg, log) && n < |log|
    requires Mirrors(cfg, before.servers, StoreAfter(log, n))
    ensures Mirrors(cfg, Replay(cfg, before, log[n]).servers, StoreAfter(log, n + 1))
  {
    var servers := before.servers;
    StoresAreSound(cfg, log, n);
    assert Sound(cfg, log, n);
    var store := StoreAfter(log, n);
    match log[n]
    case Put(_, key, value) =>
      if Visible(cfg, key) {
        PutFollows(cfg, store, key, value, servers);
      } else {
        HiddenFollows(cfg, store, store[key := value], key, servers);
      }
    case Delete(_, key) =>
      if Visible(cfg, key) {
        DeleteFollows(cfg, store, key, servers);
      } else {
        HiddenFollows(cfg, store, store - {key}, key, servers);
      }
  }

  lemma {:induction false} StoresAreSound(cfg: Settings, log: seq<Event>, n: nat)
    requires WellBehaved(cfg, log) && n <= |log|
    ensures AllRegister(cfg, StoreAfter(log, n)) && UniqueIds(cfg, StoreAfter(log, n))
  {
    if n > 0 {
      StoresAreSound(cfg, log, n - 1);
      assert Sound(cfg, log, n - 1);
    }
  }

  lemma PutFollows(cfg: Settings, store: Store, key: string, value: Registration, servers: Servers)
    requires Visible(cfg, key) && Registered(key, value).Some?
    requires Mirrors(cfg, servers, store) && UniqueIds(cfg, store[key := value])
    ensures Mirrors(cfg, servers[KeyId(key) := Registered(key, value).value], store[key := value])
  {
    var store', sv := store[key := value], Registered(key, value).value;
    var servers' := servers[KeyId(key) := sv];
    KeyRoundTrip(key, ParseKey(key).value);
    assert LivesUnderOwnKey(cfg, sv, store');
    forall k | IsLive(cfg, store', k)
      ensures Lookup(servers', KeyId(k)) == Registered(k, store'[k])
    {
      assert IsLive(cfg, store', key);
      assert k != key ==> IsLive(cfg, store, k);
    }
    forall id | id in servers'
      ensures LivesUnderOwnKey(cfg, servers'[id], store') && servers'[id].id == id
    {
      assert id in servers ==> LivesUnderOwnKey(cfg, servers[id], store);
    }
  }

  lemma DeleteFollows(cfg: Settings, store: Store, key: string, servers: Servers)
    requires Visible(cfg, key) && key in store
    requires Mirrors(cfg, servers, store) && UniqueIds(cfg, store) && AllRegister(cfg, store)
    ensures KeyId(key) in servers && servers[KeyId(key)].id == KeyId(key)
    ensures Mirrors(cfg, servers - {KeyId(key)}, store - {key})
  {
    var store', servers' := store - {key}, servers - {KeyId(key)};
    assert IsLive(cfg, store, key);
    forall k | IsLive(cfg, store', k)
      ensures Lookup(servers', KeyId(k)) == Registered(k, store'[k])
    {
      assert IsLive(cfg, store, k);
    }
    forall id | id in servers'
      ensures LivesUnderOwnKey(cfg, servers'[id], store') && servers'[id].id == id
    {
      assert LivesUnderOwnKey(cfg, servers[id], store);
    }
  }

  /** A change at a key this server cannot see leaves the mirror as it is. */
  lemma HiddenFollows(cfg: Settings, store: Store, store': Store, key: string, servers: Servers)
    requires !Visible(cfg, key) && Mirrors(cfg, servers, store)
    requires forall k :: k != key ==> (k in store <==> k in store') && (k in store ==> store[k] == store'[k])
    ensures Mirrors(cfg, servers, store')
  {
    forall k | IsLive(cfg, store', k)
      ensures Lookup(servers, KeyId(k)) == Registered(k, store'[k])
    {
      assert IsLive(cfg, store, k);
    }
    forall id | id in servers
      ensures LivesUnderOwnKey(cfg, servers[id], store')
    {
      assert LivesUnderOwnKey(cfg, servers[id], store);
    }
  }

  // Snapshots

  /** A snapshot of a store mirrors it, whatever was cached before. */
  lemma {:induction false} SnapshotMirrors(cfg: Settings, kvs: seq<KeyValue>, store: Store, cached: Servers)
    requires Lists(kvs, store) && UniqueIds(cfg, store) && AllRegister(cfg, store)
    ensures Mirrors(cfg, SnapshotServers(cfg, kvs, cached), store)
  {
    var servers := SnapshotServers(cfg, kvs, cached);
    forall k | IsLive(cfg, store, k)
      ensures Lookup(servers, KeyId(k)) == Registered(k, store[k])
    {
      assert KeyValue(k, store[k]) in kvs;
      SnapshotPicks(cfg, kvs, store, cached, k);
    }
    forall id | id in servers
      ensures LivesUnderOwnKey(cfg, servers[id], store) && servers[id].id == id
    {
      var k := SnapshotSource(cfg, kvs, store, cached, id);
      KeyRoundTrip(k, ParseKey(k).value);
    }
  }

  /** A visible key that the snapshot lists decides the server stored under its ID. */
  lemma {:induction false} SnapshotPicks(cfg: Settings, kvs: seq<KeyValue>, store: Store, cached: Servers, k: string)
    requires UniqueIds(cfg, store) && AllRegister(cfg, store) && ListsOnly(kvs, store)
    requires IsLive(cfg, store, k) && KeyValue(k, store[k]) in kvs
    ensures Lookup(SnapshotServers(cfg, kvs, cached), KeyId(k)) == Registered(k, store[k])
  {
    var n := |kvs| - 1;
    if kvs[n].key != k {
      assert KeyValue(k, store[k]) in kvs[..n];
      SnapshotPicks(cfg, kvs[..n], store, cached, k);
      assert Visible(cfg, kvs[n].key) ==> IsLive(cfg, store, kvs[n].key);
    }
  }

  /** Every server a snapshot stands for was registered under one of its visible keys. */
  lemma {:induction false} SnapshotSource(
    cfg: Settings, kvs: seq<KeyValue>, store: Store, cached: Servers, id: string) returns (k: string)
    requires AllRegister(cfg, store) && ListsOnly(kvs, store)
    requires id in SnapshotServers(cfg, kvs, cached)
    ensures IsLive(cfg, store, k) && KeyId(k) == id
    ensures Registered(k, store[k]) == Some(SnapshotServers(cfg, kvs, cached)[id])
  {
    var n := |kvs| - 1;
    k := kvs[n].key;
    if !Visible(cfg, k) || KeyId(k) != id {
      k := SnapshotSource(cfg, kvs[..n], store, cached, id);
    } else {
      assert IsLive(cfg, store, k);
    }
  }

  // Why live keys must not share an ID

  function Registering(revision: int, sv: Server): Event
  {
    Put(revision, GetKey(sv.id, sv.typ), Json(sv))
  }

  /** A server that moves to another type by registering the new key before its old one is deleted. */
  function Move(from: Server, to: Server): seq<Event>
  {
    [Registering(1, from), Registering(2, to), Delete(3, GetKey(from.id, from.typ))]
  }

  /** Whoever watches such a move drops the server, although it is live under its new key. */
  lemma SharedIdLosesServer(cfg: Settings, from: Server, to: Server)
    requires from.id == to.id && from.typ != to.typ && KeyPart(from.id) && KeyPart(from.typ) && KeyPart(to.typ)
    requires !Blacklisted(cfg, from.typ, from.id) && !Blacklisted(cfg, to.typ, to.id)
    ensures IsLive(cfg, StoreAfter(Move(from, to), 3), GetKey(to.id, to.typ))
    ensures ReplayAll(cfg, map[], 0, Move(from, to), 3).servers == map[]
    ensures !Mirrors(cfg, map[], StoreAfter(Move(from, to), 3))
  {
    var log, old_, new_ := Move(from, to), GetKey(from.id, from.typ), GetKey(to.id, to.typ);
    KeyRoundTrip(old_, ServerKey(from.typ, from.id));
    KeyRoundTrip(new_, ServerKey(to.typ, to.id));
    assert old_ != new_;
    assert StoreAfter(log, 1) == map[old_ := Json(from)];
    assert StoreAfter(log, 2) == map[old_ := Json(from), new_ := Json(to)];
    assert ReplayAll(cfg, map[], 0, log, 1).servers == map[from.id := from];
    assert ReplayAll(cfg, map[], 0, log, 2).servers == map[to.id := to];
    assert ReplayAll(cfg, map[], 0, log, 3).servers == map[];
    assert Lookup(map[], KeyId(new_)) == None;
  }
}
