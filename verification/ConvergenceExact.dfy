/** The exact condition under which every run of the reconciliation loop converges. */
module ConvergenceExact {
  import opened Text
  import opened EtcdKeys
  import opened Registry
  import opened Discovery
  import opened Convergence

  /** A transaction of etcd changes a key at most once, so no revision holds two events of one key. */
  predicate OncePerRevision(log: seq<Event>)
  {
    forall i, j :: 0 <= i < j < |log| && log[i].revision == log[j].revision ==> log[i].key != log[j].key
  }

  /** A history as etcd makes it, in which visible registrations are valid. IDs may well be shared. */
  ghost predicate Regular(cfg: Settings, log: seq<Event>)
  {
    Ordered(log) && OncePerRevision(log) && forall n: nat :: n < |log| ==> Real(cfg, log, n)
  }

  ghost predicate UniqueThroughout(cfg: Settings, log: seq<Event>)
  {
    forall n: nat :: n <= |log| ==> UniqueIds(cfg, StoreAfter(log, n))
  }

  ghost predicate AlwaysCoherent(cfg: Settings, log: seq<Event>)
  {
    forall run: seq<Replica>, steps, i ::
      IsRun(cfg, log, run, steps) && 0 <= i < |run| ==> Coherent(cfg, log, run[i])
  }

  /**
   Every run over a history keeps the cache a mirror of the store if and only if no two visible
   keys ever register one ID at the same time, not even between two events of one revision.
   */
  lemma ConvergesExactly(cfg: Settings, log: seq<Event>)
    requires Regular(cfg, log)
    ensures AlwaysCoherent(cfg, log) <==> UniqueThroughout(cfg, log)
  {
    if UniqueThroughout(cfg, log) {
      UniqueIsWellBehaved(cfg, log);
      forall run: seq<Replica>, steps, i | IsRun(cfg, log, run, steps) && 0 <= i < |run|
        ensures Coherent(cfg, log, run[i])
      {
        RunsConverge(cfg, log, run, steps, i);
      }
    } else {
      var n: nat :| n <= |log| && !UniqueIds(cfg, StoreAfter(log, n));
      ClashDiverges(cfg, log, n);
    }
  }

  lemma UniqueIsWellBehaved(cfg: Settings, log: seq<Event>)
    requires Regular(cfg, log) && UniqueThroughout(cfg, log)
    ensures WellBehaved(cfg, log)
  {
    forall n: nat | n < |log|
      ensures Sound(cfg, log, n)
    {
      assert Real(cfg, log, n);
    }
  }

  // A clash at the end of a revision: one snapshot is enough

  lemma {:induction false} StoresRegister(cfg: Settings, log: seq<Event>, n: nat)
    requires Regular(cfg, log) && n <= |log|
    ensures AllRegister(cfg, StoreAfter(log, n))
  {
    if n > 0 {
      StoresRegister(cfg, log, n - 1);
      assert Real(cfg, log, n - 1);
    }
  }

  /** Only a store without shared IDs has a mirror. */
  lemma MirroredIsUnique(cfg: Settings, servers: Servers, store: Store)
    requires Mirrors(cfg, servers, store) && AllRegister(cfg, store)
    ensures UniqueIds(cfg, store)
  {
    forall k, k' | IsLive(cfg, store, k) && IsLive(cfg, store, k') && KeyId(k) == KeyId(k')
      ensures k == k'
    {
      KeyRoundTrip(k, ParseKey(k).value);
      KeyRoundTrip(k', ParseKey(k').value);
    }
  }

  /** Every store can be listed. */
  lemma {:induction false} Listing(store: Store) returns (kvs: seq<KeyValue>)
    ensures Lists(kvs, store)
  {
    kvs := [];
    if store != map[] {
      var key :| key in store;
      var rest := Listing(store - {key});
      kvs := rest + [KeyValue(key, store[key])];
      forall k | k in store
        ensures KeyValue(k, store[k]) in kvs
      {
        assert k != key ==> KeyValue(k, (store - {key})[k]) in rest;
      }
    }
  }

  /** The run that takes one snapshot and opens a stream. */
  lemma Begin(cfg: Settings, log: seq<Event>, revision: int) returns (r: Replica, step: Step)
    requires 0 <= revision
    ensures Next(cfg, log, Replica(map[], 0, None), step, r)
    ensures r.applied == revision && r.stream == Some(Count(log, revision)) && Keyed(r.servers)
  {
    var kvs := Listing(StoreAt(log, revision));
    step := Restart(Snapshot(revision, kvs));
    r := Replica(SnapshotServers(cfg, kvs, map[]), revision, Some(Count(log, revision)));
    SnapshotKeyed(cfg, kvs);
  }

  lemma {:induction false} SnapshotKeyed(cfg: Settings, kvs: seq<KeyValue>)
    ensures Keyed(SnapshotServers(cfg, kvs, map[]))
  {
    if kvs != [] {
      SnapshotKeyed(cfg, kvs[..|kvs| - 1]);
    }
  }

  lemma BoundaryDiverges(cfg: Settings, log: seq<Event>, revision: int)
    requires Regular(cfg, log) && 0 <= revision && !UniqueIds(cfg, StoreAt(log, revision))
    ensures !AlwaysCoherent(cfg, log)
  {
    var r, step := Begin(cfg, log, revision);
    var run := [Replica(map[], 0, None), r];
    assert IsRun(cfg, log, run, [step]);
    StoresRegister(cfg, log, Count(log, revision));
    if Mirrors(cfg, r.servers, StoreAt(log, revision)) {
      MirroredIsUnique(cfg, r.servers, StoreAt(log, revision));
    }
    assert !Coherent(cfg, log, run[1]);
  }

  // A clash inside a revision: the batch that holds the revision loses a server

  lemma {:induction false} Unchanged(log: seq<Event>, key: string, from: nat, to: nat)
    requires from <= to <= |log| && forall i :: from <= i < to ==> log[i].key != key
    ensures key in StoreAfter(log, from) <==> key in StoreAfter(log, to)
  {
    if from < to {
      Unchanged(log, key, from, to - 1);
    }
  }

  /** A key that comes or goes has an event. */
  lemma {:induction false} Change(log: seq<Event>, key: string, from: nat, to: nat) returns (i: nat)
    requires from <= to <= |log| && (key in StoreAfter(log, from)) != (key in StoreAfter(log, to))
    ensures from <= i < to && log[i].key == key
  {
    if log[to - 1].key == key {
      i := to - 1;
    } else {
      i := Change(log, key, from, to - 1);
    }
  }

  /** The events of one revision. */
  predicate Spans(log: seq<Event>, from: nat, to: nat, revision: int)
  {
    from <= to <= |log| && forall i :: from <= i < to ==> log[i].revision == revision
  }

  lemma RevisionSpan(log: seq<Event>, n: nat)
    requires Ordered(log) && 0 < n <= |log|
    ensures var revision := log[n - 1].revision;
      && Count(log, revision - 1) < n <= Count(log, revision)
      && Spans(log, Count(log, revision - 1), Count(log, revision), revision)
      && EndsRevision(log, Count(log, revision))
  {
    CountSplits(log, log[n - 1].revision);
    CountSplits(log, log[n - 1].revision - 1);
  }

  lemma ClashDiverges(cfg: Settings, log: seq<Event>, n: nat)
    requires Regular(cfg, log) && n <= |log| && !UniqueIds(cfg, StoreAfter(log, n))
    ensures !AlwaysCoherent(cfg, log)
  {
    var k, k' :| IsLive(cfg, StoreAfter(log, n), k) && IsLive(cfg, StoreAfter(log, n), k') &&
      KeyId(k) == KeyId(k') && k != k';
    PairDiverges(cfg, log, n, k, k');
  }

  lemma PairDiverges(cfg: Settings, log: seq<Event>, n: nat, k: string, k': string)
    requires Regular(cfg, log) && 0 < n <= |log|
    requires IsLive(cfg, StoreAfter(log, n), k) && IsLive(cfg, StoreAfter(log, n), k') && KeyId(k) == KeyId(k')
    requires k != k'
    ensures !AlwaysCoherent(cfg, log)
  {
    var revision := log[n - 1].revision;
    if !UniqueIds(cfg, StoreAt(log, revision)) {
      BoundaryDiverges(cfg, log, revision);
    } else if !UniqueIds(cfg, StoreAt(log, revision - 1)) {
      BoundaryDiverges(cfg, log, revision - 1);
    } else if k !in StoreAt(log, revision - 1) {
      InsideDiverges(cfg, log, n, k', k);
    } else {
      NotBoth(cfg, StoreAt(log, revision - 1), k, k');
      InsideDiverges(cfg, log, n, k, k');
    }
  }

  lemma NotBoth(cfg: Settings, store: Store, k: string, k': string)
    requires UniqueIds(cfg, store) && Visible(cfg, k) && Visible(cfg, k') && KeyId(k) == KeyId(k') && k != k'
    requires k in store
    ensures k' !in store
  {
    assert IsLive(cfg, store, k);
    assert !IsLive(cfg, store, k');
  }

  /** Within the revision, `kept` is put before `gone`, of the same ID, is deleted; no other put of the ID follows. */
  ghost predicate MovesWithin(
    cfg: Settings, log: seq<Event>, from: nat, to: nat, gone: string, kept: string, deleted: nat)
    requires to <= |log|
  {
    && Visible(cfg, gone) && Visible(cfg, kept) && KeyId(gone) == KeyId(kept)
    && from <= deleted < to && log[deleted].Delete? && log[deleted].key == gone
    && kept in StoreAfter(log, to)
    && forall t :: deleted < t < to ==> !Revives(cfg, log[t], KeyId(kept))
  }

  predicate Revives(cfg: Settings, event: Event, id: string)
  {
    event.Put? && Visible(cfg, event.key) && KeyId(event.key) == id
  }

  lemma FindMove(cfg: Settings, log: seq<Event>, from: nat, n: nat, to: nat, revision: int, gone: string, kept: string)
    returns (deleted: nat)
    requires OncePerRevision(log) && Spans(log, from, to, revision) && from <= n <= to
    requires IsLive(cfg, StoreAfter(log, n), gone) && IsLive(cfg, StoreAfter(log, n), kept)
    requires gone != kept && KeyId(gone) == KeyId(kept)
    requires kept !in StoreAfter(log, from) && UniqueIds(cfg, StoreAfter(log, to))
    ensures MovesWithin(cfg, log, from, to, gone, kept, deleted)
  {
    var put := Change(log, kept, from, n);
    Unchanged(log, kept, n, to);
    assert IsLive(cfg, StoreAfter(log, to), kept);
    assert !IsLive(cfg, StoreAfter(log, to), gone);
    deleted := Change(log, gone, n, to);
    Unchanged(log, gone, deleted + 1, to);
    forall t | deleted < t < to
      ensures !Revives(cfg, log[t], KeyId(kept))
    {
      NoRevival(cfg, log, from, to, revision, kept, put, t);
    }
  }

  /** A later put of the ID in the revision would be live beside `kept` at its end. */
  lemma NoRevival(cfg: Settings, log: seq<Event>, from: nat, to: nat, revision: int, kept: string, put: nat, t: nat)
    requires OncePerRevision(log) && Spans(log, from, to, revision) && from <= put < t < to && log[put].key == kept
    requires IsLive(cfg, StoreAfter(log, to), kept) && UniqueIds(cfg, StoreAfter(log, to))
    ensures !Revives(cfg, log[t], KeyId(kept))
  {
    Unchanged(log, log[t].key, t + 1, to);
    assert log[t].Put? && Visible(cfg, log[t].key) ==> IsLive(cfg, StoreAfter(log, to), log[t].key);
    assert log[put].key != log[t].key;
  }

  /** Once the deletion is replayed the ID is gone, and nothing brings it back. */
  lemma {:induction false} StaysGone(
    cfg: Settings, servers: Servers, boundary: int, events: seq<Event>, deleted: nat, n: nat, id: string)
    requires Keyed(servers) && deleted < n <= |events|
    requires events[deleted].Delete? && Visible(cfg, events[deleted].key) && KeyId(events[deleted].key) == id
    requires events[deleted].revision > boundary
    requires forall t :: deleted < t < |events| ==> !Revives(cfg, events[t], id)
    ensures id !in ReplayAll(cfg, servers, boundary, events, n).servers
  {
    ReplayIsTruthful(cfg, servers, boundary, events, n - 1);
    if deleted < n - 1 {
      StaysGone(cfg, servers, boundary, events, deleted, n - 1, id);
    }
  }

  lemma InsideDiverges(cfg: Settings, log: seq<Event>, n: nat, gone: string, kept: string)
    requires Regular(cfg, log) && 0 < n <= |log|
    requires IsLive(cfg, StoreAfter(log, n), gone) && IsLive(cfg, StoreAfter(log, n), kept)
    requires gone != kept && KeyId(gone) == KeyId(kept)
    requires UniqueIds(cfg, StoreAt(log, log[n - 1].revision)) && kept !in StoreAt(log, log[n - 1].revision - 1)
    ensures !AlwaysCoherent(cfg, log)
  {
    var revision := log[n - 1].revision;
    RevisionSpan(log, n);
    var from, to := Count(log, revision - 1), Count(log, revision);
    var deleted := FindMove(cfg, log, from, n, to, revision, gone, kept);
    MoveDiverges(cfg, log, revision, gone, kept, deleted);
  }

  /** A snapshot just before the revision and then the batch with the revision: the cache ends without the server. */
  lemma MoveDiverges(cfg: Settings, log: seq<Event>, revision: int, gone: string, kept: string, deleted: nat)
    requires Regular(cfg, log) && 0 < revision
    requires var from, to := Count(log, revision - 1), Count(log, revision);
      && Spans(log, from, to, revision) && EndsRevision(log, to)
      && MovesWithin(cfg, log, from, to, gone, kept, deleted)
    ensures !AlwaysCoherent(cfg, log)
  {
    var from, to := Count(log, revision - 1), Count(log, revision);
    var r, restart := Begin(cfg, log, revision - 1);
    LosesKept(cfg, log, revision, r.servers, gone, kept, deleted);
    BatchIncoherent(cfg, log, r, to, kept);
    TwoSteps(cfg, log, r, restart, Delivered(cfg, log, r, to), Deliver(to));
  }

  /** The key registers a server that is not cached. */
  predicate Missing(cfg: Settings, servers: Servers, store: Store, key: string)
  {
    IsLive(cfg, store, key) && Registered(key, store[key]).Some? && KeyId(key) !in servers
  }

  lemma MissingIncoherent(cfg: Settings, log: seq<Event>, r: Replica, key: string)
    requires Missing(cfg, r.servers, StoreAt(log, r.applied), key)
    ensures !Coherent(cfg, log, r)
  {
  }

  lemma BatchIncoherent(cfg: Settings, log: seq<Event>, r: Replica, to: nat, key: string)
    requires Ordered(log) && r.stream == Some(Count(log, r.applied)) && r.stream.value <= to <= |log|
    requires EndsRevision(log, to)
    requires Missing(cfg, Delivered(cfg, log, r, to).servers, StoreAfter(log, to), key)
    ensures !Coherent(cfg, log, Delivered(cfg, log, r, to))
  {
    BatchStore(log, r.applied, r.stream.value, to);
    MissingIncoherent(cfg, log, Delivered(cfg, log, r, to), key);
  }

  lemma BatchStore(log: seq<Event>, boundary: int, from: nat, to: nat)
    requires Ordered(log) && from == Count(log, boundary) <= to <= |log| && EndsRevision(log, to)
    ensures StoreAt(log, Latest(boundary, log[from..to], to - from)) == StoreAfter(log, to)
  {
    var events := log[from..to];
    LatestOfBatch(log, boundary, from, events);
    assert Count(log, Latest(boundary, events, |events|)) == to;
  }

  lemma TwoSteps(cfg: Settings, log: seq<Event>, r: Replica, step: Step, r': Replica, step': Step)
    requires Next(cfg, log, Replica(map[], 0, None), step, r) && Next(cfg, log, r, step', r') && !Coherent(cfg, log, r')
    ensures !AlwaysCoherent(cfg, log)
  {
    var run, steps := [Replica(map[], 0, None), r, r'], [step, step'];
    assert IsRun(cfg, log, run, steps) && run[2] == r';
  }

  function Delivered(cfg: Settings, log: seq<Event>, r: Replica, to: nat): (r': Replica)
    requires r.stream.Some? && r.stream.value <= to <= |log| && EndsRevision(log, to)
    ensures Next(cfg, log, r, Deliver(to), r')
  {
    var events := log[r.stream.value..to];
    Replica(ReplayAll(cfg, r.servers, r.applied, events, |events|).servers, Latest(r.applied, events, |events|),
      Some(to))
  }

  lemma LosesKept(
    cfg: Settings, log: seq<Event>, revision: int, servers: Servers, gone: string, kept: string, deleted: nat)
    requires Regular(cfg, log) && Keyed(servers)
    requires var from, to := Count(log, revision - 1), Count(log, revision);
      Spans(log, from, to, revision) && MovesWithin(cfg, log, from, to, gone, kept, deleted)
    ensures var events := log[Count(log, revision - 1)..Count(log, revision)];
      Missing(cfg, ReplayAll(cfg, servers, revision - 1, events, |events|).servers,
        StoreAfter(log, Count(log, revision)), kept)
  {
    var from, to := Count(log, revision - 1), Count(log, revision);
    GoneInBatch(cfg, log, revision, servers, from, to, gone, kept, deleted);
    LiveRegisters(cfg, log, to, kept);
  }

  lemma LiveRegisters(cfg: Settings, log: seq<Event>, n: nat, key: string)
    requires Regular(cfg, log) && n <= |log| && key in StoreAfter(log, n) && Visible(cfg, key)
    ensures IsLive(cfg, StoreAfter(log, n), key) && Registered(key, StoreAfter(log, n)[key]).Some?
  {
    StoresRegister(cfg, log, n);
    assert IsLive(cfg, StoreAfter(log, n), key);
  }

  lemma GoneInBatch(
    cfg: Settings, log: seq<Event>, revision: int, servers: Servers, from: nat, to: nat, gone: string, kept: string,
    deleted: nat)
    requires Keyed(servers) && Spans(log, from, to, revision) && MovesWithin(cfg, log, from, to, gone, kept, deleted)
    ensures KeyId(kept) !in ReplayAll(cfg, servers, revision - 1, log[from..to], to - from).servers
  {
    var events := log[from..to];
    assert forall t :: 0 <= t < |events| ==> events[t] == log[from + t];
    StaysGone(cfg, servers, revision - 1, events, deleted - from, |events|, KeyId(kept));
  }
}
