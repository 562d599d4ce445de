/** The cached view of the cluster: three indexes, reconciled from snapshots and watch batches. */
module Discovery {
  import opened Text
  import opened EtcdKeys
  import opened Registry

  datatype Snapshot = Snapshot(revision: int, kvs: seq<KeyValue>)

  /** What the by-type index holds for an ID under a type. */
  function Filed(byType: map<string, Servers>, typ: string, id: string): Option<Server>
  {
    if typ in byType && id in byType[typ] then Some(byType[typ][id]) else None
  }

  predicate OnRing(ring: map<string, set<string>>, typ: string, id: string)
  {
    typ in ring && id in ring[typ]
  }

  predicate IsOfType(byID: Servers, typ: string, id: string)
  {
    id in byID && byID[id].typ == typ
  }

  /** A server is filed under a type exactly when it is cached by ID with that type. */
  ghost predicate TypesAgree(byID: Servers, byType: map<string, Servers>)
  {
    forall t, id :: Filed(byType, t, id) == if IsOfType(byID, t, id) then Some(byID[id]) else None
  }

  /** The ring of a type holds exactly the cached IDs of that type other than self. */
  ghost predicate RingAgrees(cfg: Settings, byID: Servers, ring: map<string, set<string>>)
  {
    forall t, id :: OnRing(ring, t, id) <==> IsOfType(byID, t, id) && id != cfg.self
  }

  ghost predicate IndexesAgree(
    cfg: Settings, byID: Servers, byType: map<string, Servers>, ring: map<string, set<string>>)
  {
    Keyed(byID) && TypesAgree(byID, byType) && RingAgrees(cfg, byID, ring)
  }

  /** Cached IDs and types are usable key parts, and only self may be of a blacklisted type. */
  ghost predicate Admissible(cfg: Settings, servers: Servers)
  {
    forall id :: id in servers ==>
      KeyPart(id) && KeyPart(servers[id].typ) && !Blacklisted(cfg, servers[id].typ, id)
  }

  /** Every change is a real difference between the two, no ID changes twice, and none is missed. */
  ghost predicate Difference(before: Servers, after: Servers, changes: seq<Change>)
  {
    AllDiffer(before, after, changes) && ApplyAll(before, changes) == after
  }

  ghost predicate AllDiffer(before: Servers, after: Servers, changes: seq<Change>)
  {
    && (forall i :: 0 <= i < |changes| ==> Differs(before, after, changes[i]))
    && (forall i, j :: 0 <= i < j < |changes| ==> changes[i].server.id != changes[j].server.id)
  }

  ghost predicate IdsWithin(changes: seq<Change>, ids: set<string>)
  {
    forall i :: 0 <= i < |changes| ==> changes[i].server.id in ids
  }

  lemma AppendDiffers(before: Servers, after: Servers, changes: seq<Change>, change: Change, ids: set<string>)
    requires AllDiffer(before, after, changes) && Differs(before, after, change)
    requires IdsWithin(changes, ids) && change.server.id !in ids
    ensures AllDiffer(before, after, changes + [change])
    ensures IdsWithin(changes + [change], ids + {change.server.id})
  {
  }

  /** Storing a snapshot's servers and then dropping the others is the difference to the snapshot. */
  lemma StoredThenDropped(before: Servers, servers: Servers, stored: seq<Change>, dropped: seq<Change>)
    requires Keyed(before) && Keyed(servers)
    requires AllDiffer(before, before + servers, stored) && AllDiffer(before + servers, servers, dropped)
    ensures AllDiffer(before, servers, stored + dropped)
  {
    var both := stored + dropped;
    forall i | 0 <= i < |both|
      ensures Differs(before, servers, both[i])
      ensures both[i].server.id in servers <==> i < |stored|
    {
      if i < |stored| {
        assert Differs(before, before + servers, stored[i]);
      } else {
        assert Differs(before + servers, servers, dropped[i - |stored|]);
      }
    }
  }

  predicate Differs(before: Servers, after: Servers, change: Change)
  {
    var id := change.server.id;
    match change
    case Add(sv) => id !in before && id in after && after[id] == sv
    case Modify(sv, previous) =>
      id in before && before[id] == previous && id in after && after[id] == sv && sv != previous
    case Del(sv) => id in before && before[id] == sv && id !in after
  }

  /** `now` is `before`, overwritten by `servers` on the IDs done so far. */
  ghost predicate Overlaid(before: Servers, servers: Servers, done: set<string>, now: Servers)
  {
    && now.Keys == before.Keys + done
    && (forall id :: id in now ==>
          if id in done then id in servers && now[id] == servers[id] else now[id] == before[id])
  }

  /** What the storing loop has established once the IDs in `done` are handled. */
  ghost predicate Stored(before: Servers, servers: Servers, done: set<string>, now: Servers, changes: seq<Change>)
  {
    && Overlaid(before, servers, done, now)
    && AllTruthful(before, changes) && ApplyAll(before, changes) == now
    && AllDiffer(before, before + servers, changes) && IdsWithin(changes, done)
  }

  lemma StoredEnds(before: Servers, servers: Servers)
    ensures Stored(before, servers, {}, before, [])
    ensures forall now, changes :: Stored(before, servers, servers.Keys, now, changes) ==> now == before + servers
  {
  }

  function StoreChange(servers: Servers, sv: Server): Change
  {
    if sv.id in servers then Modify(sv, servers[sv.id]) else Add(sv)
  }

  lemma SkipOne(before: Servers, servers: Servers, done: set<string>, now: Servers, changes: seq<Change>, id: string)
    requires Stored(before, servers, done, now, changes)
    requires id in servers && id in now && now[id] == servers[id]
    ensures Stored(before, servers, done + {id}, now, changes)
  {
  }

  lemma StoreOne(before: Servers, servers: Servers, done: set<string>, now: Servers, changes: seq<Change>, sv: Server)
    requires Stored(before, servers, done, now, changes)
    requires sv.id in servers && sv.id !in done && servers[sv.id] == sv
    requires sv.id in now ==> now[sv.id] != sv
    ensures Stored(before, servers, done + {sv.id}, now[sv.id := sv], changes + [StoreChange(now, sv)])
  {
    var change := StoreChange(now, sv);
    assert Differs(before, before + servers, change);
    assert Overlaid(before, servers, done + {sv.id}, now[sv.id := sv]);
    Extend(before, changes, change);
    AppendDiffers(before, before + servers, changes, change, done);
  }

  /** What the dropping loop has established once the IDs in `done` are gone. */
  ghost predicate Dropped(before: Servers, servers: Servers, done: set<string>, now: Servers, changes: seq<Change>)
  {
    && now == before - done
    && AllTruthful(before, changes) && ApplyAll(before, changes) == now
    && AllDiffer(before, servers, changes) && IdsWithin(changes, done)
  }

  lemma DropOne(before: Servers, servers: Servers, done: set<string>, now: Servers, changes: seq<Change>, id: string)
    requires Keyed(before) && Dropped(before, servers, done, now, changes)
    requires id in before && id !in servers && id !in done
    ensures Dropped(before, servers, done + {id}, now - {id}, changes + [Del(now[id])])
  {
    var change := Del(now[id]);
    assert before - (done + {id}) == now - {id};
    Extend(before, changes, change);
    AppendDiffers(before, servers, changes, change, done);
  }

  lemma StoreKeepsTypes(byID: Servers, byType: map<string, Servers>, sv: Server)
    requires TypesAgree(byID, byType)
    requires sv.id in byID ==> byID[sv.id].typ == sv.typ
    ensures var filed := if sv.typ in byType then byType[sv.typ] else map[];
            TypesAgree(byID[sv.id := sv], byType[sv.typ := filed[sv.id := sv]])
  {
    var filed := if sv.typ in byType then byType[sv.typ] else map[];
    var byType' := byType[sv.typ := filed[sv.id := sv]];
    forall t, id
      ensures Filed(byType', t, id) == if IsOfType(byID[sv.id := sv], t, id) then Some(byID[sv.id := sv][id]) else None
    {
      assert Filed(byType, t, id) == if IsOfType(byID, t, id) then Some(byID[id]) else None;
    }
  }

  lemma StoreKeepsRing(cfg: Settings, byID: Servers, ring: map<string, set<string>>, sv: Server)
    requires RingAgrees(cfg, byID, ring)
    requires sv.id in byID ==> byID[sv.id].typ == sv.typ
    ensures var nodes := if sv.typ in ring then ring[sv.typ] else {};
            RingAgrees(cfg, byID[sv.id := sv], if sv.id == cfg.self then ring else ring[sv.typ := nodes + {sv.id}])
  {
    var nodes := if sv.typ in ring then ring[sv.typ] else {};
    var ring' := if sv.id == cfg.self then ring else ring[sv.typ := nodes + {sv.id}];
    forall t, id
      ensures OnRing(ring', t, id) <==> IsOfType(byID[sv.id := sv], t, id) && id != cfg.self
    {
      assert OnRing(ring, t, id) <==> IsOfType(byID, t, id) && id != cfg.self;
    }
  }

  lemma RemoveKeepsTypes(byID: Servers, byType: map<string, Servers>, sv: Server)
    requires TypesAgree(byID, byType) && sv.id in byID && byID[sv.id] == sv
    ensures TypesAgree(byID - {sv.id}, if sv.typ in byType then byType[sv.typ := byType[sv.typ] - {sv.id}] else byType)
  {
    var byType' := if sv.typ in byType then byType[sv.typ := byType[sv.typ] - {sv.id}] else byType;
    forall t, id
      ensures Filed(byType', t, id) == if IsOfType(byID - {sv.id}, t, id) then Some((byID - {sv.id})[id]) else None
    {
      assert Filed(byType, t, id) == if IsOfType(byID, t, id) then Some(byID[id]) else None;
    }
  }

  lemma RemoveKeepsRing(cfg: Settings, byID: Servers, ring: map<string, set<string>>, sv: Server)
    requires RingAgrees(cfg, byID, ring) && sv.id in byID && byID[sv.id] == sv
    ensures RingAgrees(cfg, byID - {sv.id}, if sv.typ in ring then ring[sv.typ := ring[sv.typ] - {sv.id}] else ring)
  {
    var ring' := if sv.typ in ring then ring[sv.typ := ring[sv.typ] - {sv.id}] else ring;
    forall t, id
      ensures OnRing(ring', t, id) <==> IsOfType(byID - {sv.id}, t, id) && id != cfg.self
    {
      assert OnRing(ring, t, id) <==> IsOfType(byID, t, id) && id != cfg.self;
    }
  }

  /** No event above the boundary says anything this server follows. */
  predicate AllIgnored(cfg: Settings, boundary: int, events: seq<Event>)
  {
    forall i :: 0 <= i < |events| ==> events[i].revision <= boundary || Ignored(cfg, events[i])
  }

  /** A hash that finds a node on every ring that has one. */
  ghost predicate PicksNodes(hash: (set<string>, string) -> string)
  {
    forall nodes, key :: nodes != {} ==> hash(nodes, key) in nodes
  }

  /** The cached IDs of a type, without self. */
  function Others(byID: Servers, typ: string, self: string): set<string>
  {
    set id | id in byID && byID[id].typ == typ && id != self
  }

  lemma RingIsOthers(cfg: Settings, byID: Servers, ring: map<string, set<string>>, typ: string)
    requires RingAgrees(cfg, byID, ring)
    ensures (if typ in ring then ring[typ] else {}) == Others(byID, typ, cfg.self)
  {
    forall id
      ensures OnRing(ring, typ, id) <==> id in Others(byID, typ, cfg.self)
    {
    }
    assert forall id :: typ in ring && id in ring[typ] <==> OnRing(ring, typ, id);
  }

  class EtcdServiceDiscovery {
    const cfg: Settings
    const hash: (set<string>, string) -> string  // the consistent hash: the node of a ring for a key
    var serverMapByID: Servers
    var serverMapByType: map<string, Servers>
    var consistentHash: map<string, set<string>>
    var appliedRevision: int
    var callbacks: seq<Change>  // everything announced to a listener registered from the start
    var stopped: bool           // the context has been cancelled
    ghost var trace: seq<Servers>  // the cached servers after each change

    ghost predicate Valid()
      reads this
    {
      && PicksNodes(hash)
      && IndexesAgree(cfg, serverMapByID, serverMapByType, consistentHash)
      && Admissible(cfg, serverMapByID)
      && ListenerInStep(cfg, callbacks, serverMapByID)
      && HearsOfSelf(cfg, callbacks, trace, serverMapByID)
    }

    constructor (cfg: Settings, hash: (set<string>, string) -> string)
      requires PicksNodes(hash)
      ensures Valid() && this.cfg == cfg && this.hash == hash
      ensures serverMapByID == map[] && appliedRevision == 0 && callbacks == [] && !stopped
    {
      this.cfg, this.hash := cfg, hash;
      serverMapByID, serverMapByType, consistentHash := map[], map[], map[];
      appliedRevision, callbacks, stopped := 0, [], false;
      trace := [map[]];
    }

    method StoreServerLocked(sv: Server) returns (change: Change)
      requires IndexesAgree(cfg, serverMapByID, serverMapByType, consistentHash)
      modifies this`serverMapByID, this`serverMapByType, this`consistentHash
      ensures IndexesAgree(cfg, serverMapByID, serverMapByType, consistentHash)
      ensures serverMapByID == old(serverMapByID)[sv.id := sv]
      ensures change == StoreChange(old(serverMapByID), sv)
    {
      change := Add(sv);
      if sv.id in serverMapByID {
        var previous := serverMapByID[sv.id];
        change := Modify(sv, previous);
        if previous.typ != sv.typ {
          var _ := RemoveServerLocked(previous);
        }
      }
      ghost var cached := serverMapByID;
      FileByType(sv);
      AddToRing(sv, cached);
    }

    method FileByType(sv: Server)
      requires TypesAgree(serverMapByID, serverMapByType)
      requires sv.id in serverMapByID ==> serverMapByID[sv.id].typ == sv.typ
      modifies this`serverMapByID, this`serverMapByType
      ensures TypesAgree(serverMapByID, serverMapByType)
      ensures serverMapByID == old(serverMapByID)[sv.id := sv]
    {
      StoreKeepsTypes(serverMapByID, serverMapByType, sv);
      serverMapByID := serverMapByID[sv.id := sv];
      if sv.typ !in serverMapByType {
        serverMapByType := serverMapByType[sv.typ := map[]];
      }
      serverMapByType := serverMapByType[sv.typ := serverMapByType[sv.typ][sv.id := sv]];
    }

    method AddToRing(sv: Server, ghost cached: Servers)
      requires RingAgrees(cfg, cached, consistentHash)
      requires sv.id in cached ==> cached[sv.id].typ == sv.typ
      modifies this`consistentHash
      ensures RingAgrees(cfg, cached[sv.id := sv], consistentHash)
    {
      StoreKeepsRing(cfg, cached, consistentHash, sv);
      if sv.id != cfg.self {
        if sv.typ !in consistentHash {
          consistentHash := consistentHash[sv.typ := {}];
        }
        consistentHash := consistentHash[sv.typ := consistentHash[sv.typ] + {sv.id}];
      }
    }

    method RemoveServerLocked(sv: Server) returns (change: Change)
      requires IndexesAgree(cfg, serverMapByID, serverMapByType, consistentHash)
      requires sv.id in serverMapByID && serverMapByID[sv.id] == sv
      modifies this`serverMapByID, this`serverMapByType, this`consistentHash
      ensures IndexesAgree(cfg, serverMapByID, serverMapByType, consistentHash)
      ensures serverMapByID == old(serverMapByID) - {sv.id}
      ensures change == Del(sv)
    {
      RemoveKeepsTypes(serverMapByID, serverMapByType, sv);
      RemoveKeepsRing(cfg, serverMapByID, consistentHash, sv);
      serverMapByID := serverMapByID - {sv.id};
      if sv.typ in serverMapByType {
        serverMapByType := serverMapByType[sv.typ := serverMapByType[sv.typ] - {sv.id}];
      }
      if sv.typ in consistentHash {
        consistentHash := consistentHash[sv.typ := consistentHash[sv.typ] - {sv.id}];
      }
      change := Del(sv);
    }

    method NotifyChanges(changes: seq<Change>)
      modifies this`callbacks
      ensures callbacks == old(callbacks) + Announced(cfg, changes)
    {
      var i := 0;
      assert changes[..0] == [];
      while i < |changes|
        invariant 0 <= i <= |changes|
        invariant callbacks == old(callbacks) + Announced(cfg, changes[..i])
      {
        assert changes[..i + 1][..i] == changes[..i];
        if changes[i].Del? || changes[i].server.id != cfg.self {
          callbacks := callbacks + [changes[i]];
        }
        i := i + 1;
      }
      assert changes[..|changes|] == changes;
    }

    /** Announcing the changes that led to the cached servers: listeners are in step with them again. */
    method Announce(changes: seq<Change>, ghost before: Servers, ghost passed: seq<Servers>)
      requires AllTruthful(before, changes) && ApplyAll(before, changes) == serverMapByID && Keyed(before)
      requires ListenerInStep(cfg, callbacks, before) && HearsOfSelf(cfg, callbacks, passed, before)
      requires Traced(passed, trace, before, changes)
      modifies this`callbacks
      ensures callbacks == old(callbacks) + Announced(cfg, changes)
      ensures ListenerInStep(cfg, callbacks, serverMapByID) && HearsOfSelf(cfg, callbacks, trace, serverMapByID)
    {
      AnnouncedKeepsInStep(cfg, callbacks, before, changes);
      AnnouncedKeepsSelf(cfg, callbacks, passed, trace, before, changes);
      NotifyChanges(changes);
    }

    /** The servers a snapshot stands for, before anything is stored. */
    method CollectServers(kvs: seq<KeyValue>) returns (servers: Servers)
      requires Valid()
      ensures servers == SnapshotServers(cfg, kvs, serverMapByID)
      ensures Keyed(servers) && Admissible(cfg, servers)
    {
      servers := map[];
      var i := 0;
      while i < |kvs|
        invariant 0 <= i <= |kvs|
        invariant servers == SnapshotServers(cfg, kvs[..i], serverMapByID)
        invariant Keyed(servers) && Admissible(cfg, servers)
      {
        assert kvs[..i + 1][..i] == kvs[..i];
        var kv := kvs[i];
        if ParseKey(kv.key).Some? && !Blacklisted(cfg, ParseKey(kv.key).value.typ, ParseKey(kv.key).value.id) {
          var id := KeyId(kv.key);
          KeyRoundTrip(kv.key, ParseKey(kv.key).value);
          var sv := Registered(kv.key, kv.value);
          if sv.None? {
            if id in serverMapByID {
              servers := servers[id := serverMapByID[id]];
            }
          } else {
            servers := servers[id := sv.value];
          }
        }
        i := i + 1;
      }
      assert kvs[..|kvs|] == kvs;
    }

    /** The loop of syncServersLocked that stores new and changed servers. */
    method StoreChanged(servers: Servers) returns (changes: seq<Change>)
      requires IndexesAgree(cfg, serverMapByID, serverMapByType, consistentHash)
      requires Keyed(servers)
      modifies this`serverMapByID, this`serverMapByType, this`consistentHash, this`trace
      ensures IndexesAgree(cfg, serverMapByID, serverMapByType, consistentHash)
      ensures AllTruthful(old(serverMapByID), changes)
      ensures AllDiffer(old(serverMapByID), old(serverMapByID) + servers, changes)
      ensures serverMapByID == ApplyAll(old(serverMapByID), changes) == old(serverMapByID) + servers
      ensures Traced(old(trace), trace, old(serverMapByID), changes)
    {
      changes := [];
      ghost var before, first := serverMapByID, trace;
      ghost var done := {};
      var todo := servers.Keys;
      StoredEnds(before, servers);
      while todo != {}
        invariant done == servers.Keys - todo && todo <= servers.Keys
        invariant IndexesAgree(cfg, serverMapByID, serverMapByType, consistentHash)
        invariant Stored(before, servers, done, serverMapByID, changes)
        invariant Traced(first, trace, before, changes)
        decreases todo
      {
        var id :| id in todo;
        changes := StoreIfChanged(id, servers, changes, before, first, done);
        done, todo := done + {id}, todo - {id};
      }
      assert done == servers.Keys;
    }

    /** The body of that loop. */
    method StoreIfChanged(
      id: string, servers: Servers, changes: seq<Change>, ghost before: Servers, ghost first: seq<Servers>,
      ghost done: set<string>)
      returns (more: seq<Change>)
      requires IndexesAgree(cfg, serverMapByID, serverMapByType, consistentHash)
      requires Keyed(servers) && id in servers && id !in done
      requires Stored(before, servers, done, serverMapByID, changes) && Traced(first, trace, before, changes)
      modifies this`serverMapByID, this`serverMapByType, this`consistentHash, this`trace
      ensures IndexesAgree(cfg, serverMapByID, serverMapByType, consistentHash)
      ensures Stored(before, servers, done + {id}, serverMapByID, more) && Traced(first, trace, before, more)
    {
      var sv := servers[id];
      if id in serverMapByID && serverMapByID[id] == sv {
        SkipOne(before, servers, done, serverMapByID, changes, id);
        return changes;
      }
      StoreOne(before, servers, done, serverMapByID, changes, sv);
      TracedOne(first, trace, before, changes, StoreChange(serverMapByID, sv), serverMapByID[id := sv]);
      var change := StoreServerLocked(sv);
      trace := trace + [serverMapByID];
      return changes + [change];
    }

    /** The loop of syncServersLocked that drops servers the snapshot no longer lists. */
    method DropMissing(servers: Servers) returns (changes: seq<Change>)
      requires IndexesAgree(cfg, serverMapByID, serverMapByType, consistentHash)
      requires forall id :: id in servers ==> id in serverMapByID && serverMapByID[id] == servers[id]
      modifies this`serverMapByID, this`serverMapByType, this`consistentHash, this`trace
      ensures IndexesAgree(cfg, serverMapByID, serverMapByType, consistentHash)
      ensures AllTruthful(old(serverMapByID), changes)
      ensures AllDiffer(old(serverMapByID), servers, changes)
      ensures serverMapByID == ApplyAll(old(serverMapByID), changes) == servers
      ensures Traced(old(trace), trace, old(serverMapByID), changes)
    {
      changes := [];
      ghost var before, first := serverMapByID, trace;
      ghost var done := {};
      var todo := serverMapByID.Keys - servers.Keys;
      while todo != {}
        invariant done !! todo && done + todo == before.Keys - servers.Keys
        invariant IndexesAgree(cfg, serverMapByID, serverMapByType, consistentHash)
        invariant Dropped(before, servers, done, serverMapByID, changes)
        invariant Traced(first, trace, before, changes)
        decreases todo
      {
        var id :| id in todo;
        DropOne(before, servers, done, serverMapByID, changes, id);
        TracedOne(first, trace, before, changes, Del(serverMapByID[id]), serverMapByID - {id});
        var change := RemoveServerLocked(serverMapByID[id]);
        changes := changes + [change];
        trace := trace + [serverMapByID];
        done, todo := done + {id}, todo - {id};
      }
    }

    /** Both loops: the cache becomes these servers, and the changes are the difference. */
    method Reconcile(servers: Servers) returns (changes: seq<Change>)
      requires IndexesAgree(cfg, serverMapByID, serverMapByType, consistentHash) && Keyed(servers)
      modifies this`serverMapByID, this`serverMapByType, this`consistentHash, this`trace
      ensures IndexesAgree(cfg, serverMapByID, serverMapByType, consistentHash) && serverMapByID == servers
      ensures AllTruthful(old(serverMapByID), changes) && Difference(old(serverMapByID), servers, changes)
      ensures Traced(old(trace), trace, old(serverMapByID), changes)
    {
      ghost var before, first := serverMapByID, trace;
      var stored := StoreChanged(servers);
      ghost var middle := trace;
      var dropped := DropMissing(servers);
      Concat(before, stored, dropped);
      StoredThenDropped(before, servers, stored, dropped);
      TracedTwice(first, middle, trace, before, stored, dropped);
      return stored + dropped;
    }

    /**
     One reconciliation from a prefix snapshot. A failed read and a snapshot older than what
     has been applied change nothing; otherwise the cache becomes the snapshot's servers, and
     listeners hear exactly the difference.
     */
    method SyncServersLocked(snapshot: Option<Snapshot>) returns (ok: bool, ghost changes: seq<Change>)
      requires Valid()
      modifies this`serverMapByID, this`serverMapByType, this`consistentHash, this`appliedRevision, this`callbacks
      modifies this`trace
      ensures Valid()
      ensures ok == (snapshot.Some? && !stopped)
      ensures callbacks == old(callbacks) + Announced(cfg, changes)
      ensures AllTruthful(old(serverMapByID), changes)
      ensures Difference(old(serverMapByID), serverMapByID, changes)
      ensures (serverMapByID, appliedRevision) ==
              if !ok || snapshot.value.revision < old(appliedRevision) then old((serverMapByID, appliedRevision))
              else (SnapshotServers(cfg, snapshot.value.kvs, old(serverMapByID)), snapshot.value.revision)
    {
      changes := [];
      ghost var before, passed := serverMapByID, trace;
      if snapshot.None? || stopped {
        return false, [];
      }
      if snapshot.value.revision < appliedRevision {
        return true, [];
      }
      var servers := CollectServers(snapshot.value.kvs);
      var made := Reconcile(servers);
      appliedRevision := snapshot.value.revision;
      Announce(made, before, passed);
      changes := made;
      ok := true;
    }

    /** The body of the loop over a watch response, for an event that is to be replayed. */
    method ApplyEvent(event: Event) returns (effect: Option<Change>)
      requires IndexesAgree(cfg, serverMapByID, serverMapByType, consistentHash)
      requires Admissible(cfg, serverMapByID)
      modifies this`serverMapByID, this`serverMapByType, this`consistentHash
      ensures IndexesAgree(cfg, serverMapByID, serverMapByType, consistentHash)
      ensures Admissible(cfg, serverMapByID)
      ensures effect == Effect(cfg, old(serverMapByID), event)
      ensures effect.Some? ==> Truthful(old(serverMapByID), effect.value)
      ensures serverMapByID == if effect.Some? then Apply(old(serverMapByID), effect.value) else old(serverMapByID)
      ensures Ignored(cfg, event) ==> effect.None? && unchanged(this)
      ensures !Ignored(cfg, event) && event.Put? ==>
        && serverMapByID == old(serverMapByID)[KeyId(event.key) := event.value.server]
        && effect == Some(StoreChange(old(serverMapByID), event.value.server))
      ensures !Ignored(cfg, event) && event.Delete? ==>
        && serverMapByID == old(serverMapByID) - {KeyId(event.key)}
        && effect == if KeyId(event.key) in old(serverMapByID) then Some(Del(old(serverMapByID)[KeyId(event.key)]))
          else None
    {
      effect := None;
      if ParseKey(event.key).None? || Blacklisted(cfg, ParseKey(event.key).value.typ, ParseKey(event.key).value.id) {
        return;
      }
      var id := KeyId(event.key);
      KeyRoundTrip(event.key, ParseKey(event.key).value);
      match event {
        case Put(_, key, value) =>
          var sv := Registered(key, value);
          if sv.Some? {
            var change := StoreServerLocked(sv.value);
            effect := Some(change);
          }
        case Delete(_, _) =>
          if id in serverMapByID {
            var change := RemoveServerLocked(serverMapByID[id]);
            effect := Some(change);
          }
      }
    }

    /** One watch response: its events above the applied revision, in order. */
    method ApplyWatchResponse(events: seq<Event>)
      requires Valid()
      modifies this`serverMapByID, this`serverMapByType, this`consistentHash, this`appliedRevision, this`callbacks
      modifies this`trace
      ensures Valid()
      ensures stopped ==> unchanged(this)
      ensures !stopped ==>
        var replayed := ReplayAll(cfg, old(serverMapByID), old(appliedRevision), events, |events|);
        && serverMapByID == replayed.servers
        && callbacks == old(callbacks) + Announced(cfg, replayed.changes)
        && appliedRevision == Latest(old(appliedRevision), events, |events|)
      ensures AllIgnored(cfg, old(appliedRevision), events) ==>
        && serverMapByID == old(serverMapByID) && serverMapByType == old(serverMapByType)
        && consistentHash == old(consistentHash) && callbacks == old(callbacks)
    {
      if stopped {
        return;
      }
      ghost var before, boundary, passed := serverMapByID, appliedRevision, trace;
      var changes, revision := ReplayEvents(events);
      appliedRevision := revision;
      ReplayIsTruthful(cfg, before, boundary, events, |events|);
      Announce(changes, before, passed);
    }

    /** The loop of applyWatchResponse. */
    method ReplayEvents(events: seq<Event>) returns (changes: seq<Change>, revision: int)
      requires IndexesAgree(cfg, serverMapByID, serverMapByType, consistentHash)
      requires Admissible(cfg, serverMapByID)
      modifies this`serverMapByID, this`serverMapByType, this`consistentHash, this`trace
      ensures IndexesAgree(cfg, serverMapByID, serverMapByType, consistentHash)
      ensures Admissible(cfg, serverMapByID)
      ensures Replayed(serverMapByID, changes) == ReplayAll(cfg, old(serverMapByID), appliedRevision, events, |events|)
      ensures Traced(old(trace), trace, old(serverMapByID), changes)
      ensures revision == Latest(appliedRevision, events, |events|)
      ensures AllIgnored(cfg, appliedRevision, events) ==>
        changes == [] && serverMapByType == old(serverMapByType) && consistentHash == old(consistentHash)
    {
      var boundary := appliedRevision;
      revision := boundary;
      changes := [];
      ghost var before, first := serverMapByID, trace;
      var i := 0;
      while i < |events|
        invariant 0 <= i <= |events|
        invariant revision == Latest(boundary, events, i) && boundary <= revision
        invariant IndexesAgree(cfg, serverMapByID, serverMapByType, consistentHash)
        invariant Admissible(cfg, serverMapByID)
        invariant Replayed(serverMapByID, changes) == ReplayAll(cfg, before, boundary, events, i)
        invariant Traced(first, trace, before, changes)
        invariant AllIgnored(cfg, boundary, events) ==>
          changes == [] && serverMapByType == old(serverMapByType) && consistentHash == old(consistentHash)
      {
        var event := events[i];
        if event.revision > boundary {
          if event.revision > revision {
            revision := event.revision;
          }
          ReplayIsTruthful(cfg, before, boundary, events, i);
          changes := ReplayEvent(event, changes, before, first);
        }
        i := i + 1;
      }
    }

    /** The body of that loop, for an event above the boundary. */
    method ReplayEvent(event: Event, changes: seq<Change>, ghost before: Servers, ghost first: seq<Servers>)
      returns (more: seq<Change>)
      requires IndexesAgree(cfg, serverMapByID, serverMapByType, consistentHash)
      requires Admissible(cfg, serverMapByID) && ApplyAll(before, changes) == serverMapByID
      requires Traced(first, trace, before, changes)
      modifies this`serverMapByID, this`serverMapByType, this`consistentHash, this`trace
      ensures IndexesAgree(cfg, serverMapByID, serverMapByType, consistentHash)
      ensures Admissible(cfg, serverMapByID)
      ensures Replayed(serverMapByID, more) == Replay(cfg, Replayed(old(serverMapByID), changes), event)
      ensures Traced(first, trace, before, more)
      ensures Ignored(cfg, event) ==>
        more == changes && serverMapByType == old(serverMapByType) && consistentHash == old(consistentHash)
    {
      var effect := ApplyEvent(event);
      if effect.None? {
        return changes;
      }
      Extend(before, changes, effect.value);
      TracedOne(first, trace, before, changes, effect.value, serverMapByID);
      trace := trace + [serverMapByID];
      return changes + [effect.value];
    }

    /** All cached servers of a type, or an error exactly when there are none. */
    method GetServersByType(typ: string) returns (servers: Option<Servers>)
      requires Valid()
      ensures servers.None? <==> forall id :: !IsOfType(serverMapByID, typ, id)
      ensures servers.Some? ==>
        forall id :: Lookup(servers.value, id) == if IsOfType(serverMapByID, typ, id) then Some(serverMapByID[id])
          else None
    {
      if typ in serverMapByType && |serverMapByType[typ]| > 0 {
        var found := serverMapByType[typ];
        var todo := found.Keys;
        var ret: Servers := map[];
        while todo != {}
          invariant todo <= found.Keys && ret == found - todo
          decreases todo
        {
          var id :| id in todo;
          ret := ret[id := found[id]];
          todo := todo - {id};
        }
        var someId :| someId in found;
        assert Filed(serverMapByType, typ, someId).Some?;
        assert forall id :: Lookup(ret, id) == Filed(serverMapByType, typ, id);
        servers := Some(ret);
      } else {
        assert forall id :: Filed(serverMapByType, typ, id).None?;
        servers := None;
      }
    }

    /** Exactly the inhabited types, each with one of its servers. */
    method GetServerTypes() returns (types: Servers)
      requires Valid()
      ensures forall t :: t in types <==> exists id :: IsOfType(serverMapByID, t, id)
      ensures forall t :: t in types ==>
        IsOfType(serverMapByID, t, types[t].id) && serverMapByID[types[t].id] == types[t]
    {
      types := map[];
      var todo := serverMapByType.Keys;
      while todo != {}
        invariant todo <= serverMapByType.Keys
        invariant forall t :: t in types <==> t in serverMapByType && t !in todo && serverMapByType[t] != map[]
        invariant forall t :: t in types ==>
          IsOfType(serverMapByID, t, types[t].id) && serverMapByID[types[t].id] == types[t]
        decreases todo
      {
        var t :| t in todo;
        if serverMapByType[t] != map[] {
          var id :| id in serverMapByType[t];
          assert Filed(serverMapByType, t, id).Some?;
          types := types[t := serverMapByType[t][id]];
        }
        todo := todo - {t};
      }
      forall t, id | IsOfType(serverMapByID, t, id)
        ensures t in types
      {
        assert Filed(serverMapByType, t, id).Some?;
      }
    }

    /** The node the hash picks among the servers of the type but self, or an error exactly when there are none. */
    method GetConsistentHashNode(typ: string, sessionID: string) returns (node: Option<string>)
      requires Valid()
      ensures var others := Others(serverMapByID, typ, cfg.self);
        node == if others == {} then None else Some(hash(others, sessionID))
      ensures node.Some? ==> IsOfType(serverMapByID, typ, node.value) && node.value != cfg.self
      ensures node.None? <==> forall id :: IsOfType(serverMapByID, typ, id) ==> id == cfg.self
    {
      RingIsOthers(cfg, serverMapByID, consistentHash, typ);
      if typ !in consistentHash || consistentHash[typ] == {} {
        assert forall id :: !OnRing(consistentHash, typ, id);
        node := None;
      } else {
        var id := hash(consistentHash[typ], sessionID);
        assert OnRing(consistentHash, typ, id);
        node := Some(id);
      }
    }
  }

  /** A snapshot with the content of the one before it announces nothing. */
  lemma RepeatedSnapshotIsSilent(
    cfg: Settings, kvs: seq<KeyValue>, cached: Servers, after: Servers, changes: seq<Change>)
    requires var before := SnapshotServers(cfg, kvs, cached);
             after == SnapshotServers(cfg, kvs, before) && Difference(before, after, changes)
    ensures changes == []
  {
    SnapshotIsIdempotent(cfg, kvs, cached);
    if changes != [] {
      SomethingDiffers(after, after, changes);
    }
  }

  lemma SomethingDiffers(before: Servers, after: Servers, changes: seq<Change>)
    requires AllDiffer(before, after, changes) && changes != []
    ensures before != after
  {
    assert Differs(before, after, changes[0]);
  }

  lemma {:induction false} Concat(before: Servers, first: seq<Change>, second: seq<Change>)
    requires AllTruthful(before, first)
    requires AllTruthful(ApplyAll(before, first), second)
    ensures AllTruthful(before, first + second)
    ensures ApplyAll(before, first + second) == ApplyAll(ApplyAll(before, first), second)
  {
    if second == [] {
      assert first + second == first;
    } else {
      var n := |second| - 1;
      Concat(before, first, second[..n]);
      assert first + second == (first + second[..n]) + [second[n]];
      Extend(before, first + second[..n], second[n]);
    }
  }
}
