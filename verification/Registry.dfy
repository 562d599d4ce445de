/**
 The values service discovery works on: registrations, the changes a reconciliation
 makes to the cached servers, and what a listener learns from the announced changes.
 */
module Registry {
  import opened Text
  import opened EtcdKeys

  datatype Server = Server(
    id: string, typ: string, metadata: map<string, string>, frontend: bool,
    hostname: string, stickiness: bool, subscribe: map<string, bool>)

  /** A stored value, seen through the JSON decoder: either it holds a server or it holds none. */
  datatype Registration = Undecodable | Json(server: Server)

  datatype KeyValue = KeyValue(key: string, value: Registration)

  /** One event of the etcd history, at the revision that made it. */
  datatype Event =
    | Put(revision: int, key: string, value: Registration)
    | Delete(revision: int, key: string)

  /** The server that runs the cache, and the server types it must not see. */
  datatype Settings = Settings(self: string, blacklist: seq<string>)

  type Servers = map<string, Server>

  predicate Blacklisted(cfg: Settings, typ: string, id: string)
  {
    typ in cfg.blacklist && id != cfg.self
  }

  /** The key parses, and its type is not hidden from this server. */
  predicate Visible(cfg: Settings, key: string)
  {
    ParseKey(key).Some? && !Blacklisted(cfg, ParseKey(key).value.typ, ParseKey(key).value.id)
  }

  function KeyId(key: string): string
    requires ParseKey(key).Some?
  {
    ParseKey(key).value.id
  }

  function ParseServer(value: Registration): Option<Server>
  {
    if value.Json? && value.server.id != "" && value.server.typ != "" then Some(value.server) else None
  }

  /** The server a value registers under a key: it must decode and agree with the key. */
  function Registered(key: string, value: Registration): Option<Server>
    requires ParseKey(key).Some?
  {
    var k := ParseKey(key).value;
    var sv := ParseServer(value);
    if sv.Some? && sv.value.id == k.id && sv.value.typ == k.typ then sv else None
  }

  // Changes

  datatype Change = Add(server: Server) | Modify(server: Server, old_: Server) | Del(server: Server)

  function Apply(servers: Servers, change: Change): Servers
  {
    if change.Del? then servers - {change.server.id} else servers[change.server.id := change.server]
  }

  function ApplyAll(servers: Servers, changes: seq<Change>): Servers
  {
    if changes == [] then servers
    else Apply(ApplyAll(servers, changes[..|changes| - 1]), changes[|changes| - 1])
  }

  /** The change tells the truth about the servers it is made on. */
  predicate Truthful(servers: Servers, change: Change)
  {
    var id := change.server.id;
    match change
    case Add(_) => id !in servers
    case Modify(_, previous) => id in servers && servers[id] == previous
    case Del(sv) => id in servers && servers[id] == sv
  }

  predicate AllTruthful(servers: Servers, changes: seq<Change>)
  {
    changes != [] ==>
      var n := |changes| - 1;
      AllTruthful(servers, changes[..n]) && Truthful(ApplyAll(servers, changes[..n]), changes[n])
  }

  lemma Extend(servers: Servers, changes: seq<Change>, change: Change)
    ensures ApplyAll(servers, changes + [change]) == Apply(ApplyAll(servers, changes), change)
    ensures AllTruthful(servers, changes + [change]) <==>
            AllTruthful(servers, changes) && Truthful(ApplyAll(servers, changes), change)
  {
    assert (changes + [change])[..|changes|] == changes;
  }

  // Listeners

  /** notifyChanges: a server is not told that it itself appeared or changed. */
  function Announced(cfg: Settings, changes: seq<Change>): seq<Change>
  {
    if changes == [] then []
    else
      var n := |changes| - 1;
      var rest := Announced(cfg, changes[..n]);
      if changes[n].Del? || changes[n].server.id != cfg.self then rest + [changes[n]] else rest
  }

  /** What one server ID has been through, as a listener hears it. */
  datatype Life = Absent | Live(server: Server) | Broken

  /**
   The automaton of (Add Modify* Del)*, in which a Modify must name as its old value, and a
   Del as its server, the one last announced. Anything else is Broken for good.
   */
  function Follow(life: Life, callback: Change): Life
  {
    match (life, callback)
    case (Absent, Add(sv)) => Live(sv)
    case (Live(last), Modify(sv, previous)) => if previous == last then Live(sv) else Broken
    case (Live(last), Del(sv)) => if sv == last then Absent else Broken
    case _ => Broken
  }

  function LifeOf(id: string, callbacks: seq<Change>): Life
  {
    if callbacks == [] then Absent
    else
      var n := |callbacks| - 1;
      var life := LifeOf(id, callbacks[..n]);
      if callbacks[n].server.id == id then Follow(life, callbacks[n]) else life
  }

  /** For every ID but its own, the callbacks spell a legal life that ends at the cached server. */
  ghost predicate ListenerInStep(cfg: Settings, callbacks: seq<Change>, servers: Servers)
  {
    forall id :: id != cfg.self ==> LifeOf(id, callbacks) == LifeIn(servers, id)
  }

  ghost predicate Keyed(servers: Servers)
  {
    forall id :: id in servers ==> servers[id].id == id
  }

  /** What the callbacks should say of an ID. */
  function LifeIn(servers: Servers, id: string): Life
  {
    if id in servers then Live(servers[id]) else Absent
  }

  lemma {:induction false} LifeKept(
    cfg: Settings, callbacks: seq<Change>, before: Servers, changes: seq<Change>, id: string)
    requires id != cfg.self && LifeOf(id, callbacks) == LifeIn(before, id) && AllTruthful(before, changes)
    ensures LifeOf(id, callbacks + Announced(cfg, changes)) == LifeIn(ApplyAll(before, changes), id)
  {
    if changes == [] {
      assert callbacks + Announced(cfg, changes) == callbacks;
    } else {
      var n := |changes| - 1;
      LifeKept(cfg, callbacks, before, changes[..n], id);
      var heard := callbacks + Announced(cfg, changes[..n]);
      if changes[n].Del? || changes[n].server.id != cfg.self {
        var all := callbacks + Announced(cfg, changes);
        assert all == heard + [changes[n]];
        assert all[..|all| - 1] == heard;
      }
    }
  }

  lemma AnnouncedKeepsInStep(cfg: Settings, callbacks: seq<Change>, before: Servers, changes: seq<Change>)
    requires ListenerInStep(cfg, callbacks, before)
    requires AllTruthful(before, changes)
    ensures ListenerInStep(cfg, callbacks + Announced(cfg, changes), ApplyAll(before, changes))
  {
    forall id | id != cfg.self
      ensures LifeOf(id, callbacks + Announced(cfg, changes)) == LifeIn(ApplyAll(before, changes), id)
    {
      LifeKept(cfg, callbacks, before, changes, id);
    }
  }

  /** A listener that keeps its own map of servers, updated by nothing but the callbacks. */
  function Mirror(callbacks: seq<Change>): Servers
  {
    ApplyAll(map[], callbacks)
  }

  /** That listener always holds exactly the cached servers other than self. */
  lemma {:induction false} MirrorIsCache(cfg: Settings, callbacks: seq<Change>, servers: Servers)
    requires ListenerInStep(cfg, callbacks, servers)
    ensures Mirror(callbacks) - {cfg.self} == servers - {cfg.self}
  {
    forall id | id != cfg.self
      ensures id in Mirror(callbacks) <==> id in servers
      ensures id in servers ==> Mirror(callbacks)[id] == servers[id]
    {
      MirrorFollows(id, callbacks);
    }
  }

  lemma {:induction false} MirrorFollows(id: string, callbacks: seq<Change>)
    requires !LifeOf(id, callbacks).Broken?
    ensures id in Mirror(callbacks) <==> LifeOf(id, callbacks).Live?
    ensures id in Mirror(callbacks) ==> Mirror(callbacks)[id] == LifeOf(id, callbacks).server
  {
    if callbacks != [] {
      MirrorFollows(id, callbacks[..|callbacks| - 1]);
    }
  }

  // What a listener hears about the server that runs the cache

  /** No callback tells of self appearing or changing. */
  predicate NeverTold(cfg: Settings, callbacks: seq<Change>)
  {
    forall i :: 0 <= i < |callbacks| && callbacks[i].server.id == cfg.self ==> callbacks[i].Del?
  }

  /** The servers removed under an ID, in order. */
  function Dels(changes: seq<Change>, id: string): seq<Server>
  {
    if changes == [] then []
    else
      var n := |changes| - 1;
      var rest := Dels(changes[..n], id);
      if changes[n].Del? && changes[n].server.id == id then rest + [changes[n].server] else rest
  }

  /** The servers that left under an ID as the cache went through these states. */
  function Departures(trace: seq<Servers>, id: string): seq<Server>
  {
    if |trace| < 2 then []
    else
      var n := |trace| - 1;
      var rest := Departures(trace[..n], id);
      if id in trace[n - 1] && id !in trace[n] then rest + [trace[n - 1][id]] else rest
  }

  /** Self is announced when it leaves, each time with the server that was cached, and never otherwise. */
  predicate HearsOfSelf(cfg: Settings, callbacks: seq<Change>, trace: seq<Servers>, servers: Servers)
  {
    && NeverTold(cfg, callbacks)
    && trace != [] && trace[|trace| - 1] == servers
    && Dels(callbacks, cfg.self) == Departures(trace, cfg.self)
  }

  /** The states on the way from one change to the next. */
  function Passed(before: Servers, changes: seq<Change>): (states: seq<Servers>)
    ensures |states| == |changes|
  {
    if changes == [] then []
    else Passed(before, changes[..|changes| - 1]) + [ApplyAll(before, changes)]
  }

  /** The trace has been extended by the states these changes went through. */
  predicate Traced(first: seq<Servers>, trace: seq<Servers>, before: Servers, changes: seq<Change>)
  {
    trace == first + Passed(before, changes)
  }

  lemma TracedOne(
    first: seq<Servers>, trace: seq<Servers>, before: Servers, changes: seq<Change>, change: Change, now: Servers)
    requires Traced(first, trace, before, changes) && now == ApplyAll(before, changes + [change])
    ensures Traced(first, trace + [now], before, changes + [change])
  {
    assert (changes + [change])[..|changes|] == changes;
  }

  lemma TracedTwice(
    first: seq<Servers>, middle: seq<Servers>, trace: seq<Servers>, before: Servers, stored: seq<Change>,
    dropped: seq<Change>)
    requires Traced(first, middle, before, stored) && Traced(middle, trace, ApplyAll(before, stored), dropped)
    ensures Traced(first, trace, before, stored + dropped)
  {
    PassedConcat(before, stored, dropped);
  }

  lemma {:induction false} PassedConcat(before: Servers, first: seq<Change>, second: seq<Change>)
    ensures Passed(before, first + second) == Passed(before, first) + Passed(ApplyAll(before, first), second)
    ensures ApplyAll(before, first + second) == ApplyAll(ApplyAll(before, first), second)
  {
    if second == [] {
      assert first + second == first;
    } else {
      var n := |second| - 1;
      PassedConcat(before, first, second[..n]);
      assert first + second == (first + second[..n]) + [second[n]];
      assert (first + second)[..|first + second| - 1] == first + second[..n];
    }
  }

  /** Truthful changes remove exactly what leaves. */
  lemma {:induction false} DelsAreDepartures(trace: seq<Servers>, before: Servers, changes: seq<Change>, id: string)
    requires trace != [] && trace[|trace| - 1] == before && Keyed(before) && AllTruthful(before, changes)
    ensures var all := trace + Passed(before, changes);
      && Departures(all, id) == Departures(trace, id) + Dels(changes, id)
      && all[|all| - 1] == ApplyAll(before, changes)
  {
    var all := trace + Passed(before, changes);
    if changes == [] {
      assert all == trace;
    } else {
      var n := |changes| - 1;
      DelsAreDepartures(trace, before, changes[..n], id);
      assert all[..|all| - 1] == trace + Passed(before, changes[..n]);
      TruthfulDeparts(ApplyAll(before, changes[..n]), changes[n], id);
    }
  }

  lemma TruthfulDeparts(servers: Servers, change: Change, id: string)
    requires Truthful(servers, change)
    ensures id in servers && id !in Apply(servers, change) <==> change.Del? && change.server.id == id
    ensures change.Del? && change.server.id == id ==> servers[id] == change.server
  {
  }

  lemma {:induction false} DelsConcat(first: seq<Change>, second: seq<Change>, id: string)
    ensures Dels(first + second, id) == Dels(first, id) + Dels(second, id)
  {
    if second == [] {
      assert first + second == first;
    } else {
      var n := |second| - 1;
      DelsConcat(first, second[..n], id);
      assert (first + second)[..|first + second| - 1] == first + second[..n];
    }
  }

  lemma {:induction false} AnnouncedOfSelf(cfg: Settings, changes: seq<Change>)
    ensures NeverTold(cfg, Announced(cfg, changes))
    ensures Dels(Announced(cfg, changes), cfg.self) == Dels(changes, cfg.self)
  {
    if changes != [] {
      var n := |changes| - 1;
      AnnouncedOfSelf(cfg, changes[..n]);
      var rest := Announced(cfg, changes[..n]);
      if changes[n].Del? || changes[n].server.id != cfg.self {
        assert (rest + [changes[n]])[..|rest|] == rest;
      }
    }
  }

  /** Announcing truthful changes keeps it so. */
  lemma AnnouncedKeepsSelf(
    cfg: Settings, callbacks: seq<Change>, trace: seq<Servers>, trace': seq<Servers>, before: Servers,
    changes: seq<Change>)
    requires HearsOfSelf(cfg, callbacks, trace, before) && Keyed(before) && AllTruthful(before, changes)
    requires Traced(trace, trace', before, changes)
    ensures HearsOfSelf(cfg, callbacks + Announced(cfg, changes), trace', ApplyAll(before, changes))
  {
    AnnouncedOfSelf(cfg, changes);
    DelsConcat(callbacks, Announced(cfg, changes), cfg.self);
    DelsAreDepartures(trace, before, changes, cfg.self);
  }

  // Snapshots

  /**
   The servers a snapshot stands for. A value that does not register a server under its key
   keeps the server cached under that ID, if there is one.
   */
  function SnapshotServers(cfg: Settings, kvs: seq<KeyValue>, cached: Servers): Servers
  {
    if kvs == [] then map[]
    else
      var n := |kvs| - 1;
      var servers := SnapshotServers(cfg, kvs[..n], cached);
      var kv := kvs[n];
      if !Visible(cfg, kv.key) then servers
      else
        var id := KeyId(kv.key);
        var sv := Registered(kv.key, kv.value);
        if sv.Some? then servers[id := sv.value]
        else if id in cached then servers[id := cached[id]]
        else servers
  }

  /** Taking the same snapshot a second time changes nothing, whatever it contains. */
  lemma SnapshotIsIdempotent(cfg: Settings, kvs: seq<KeyValue>, cached: Servers)
    ensures SnapshotServers(cfg, kvs, SnapshotServers(cfg, kvs, cached)) == SnapshotServers(cfg, kvs, cached)
  {
    var once := SnapshotServers(cfg, kvs, cached);
    var twice := SnapshotServers(cfg, kvs, once);
    forall id
      ensures Lookup(once, id) == Lookup(twice, id)
    {
      SnapshotPerId(cfg, kvs, cached, id);
      SnapshotPerId(cfg, kvs, once, id);
      PickTwice(cfg, kvs, id, Lookup(cached, id));
    }
    assert forall id :: id in once ==> Lookup(once, id) == Lookup(twice, id);
    assert forall id :: id in twice ==> Lookup(once, id) == Lookup(twice, id);
  }

  function Lookup(servers: Servers, id: string): Option<Server>
  {
    if id in servers then Some(servers[id]) else None
  }

  /** SnapshotServers for a single ID. */
  function Pick(cfg: Settings, kvs: seq<KeyValue>, id: string, cached: Option<Server>): Option<Server>
  {
    if kvs == [] then None
    else
      var n := |kvs| - 1;
      var kv := kvs[n];
      var earlier := Pick(cfg, kvs[..n], id, cached);
      if !Visible(cfg, kv.key) || KeyId(kv.key) != id then earlier
      else if Registered(kv.key, kv.value).Some? then Registered(kv.key, kv.value)
      else if cached.Some? then cached
      else earlier
  }

  lemma {:induction false} SnapshotPerId(cfg: Settings, kvs: seq<KeyValue>, cached: Servers, id: string)
    ensures Lookup(SnapshotServers(cfg, kvs, cached), id) == Pick(cfg, kvs, id, Lookup(cached, id))
  {
    if kvs != [] {
      SnapshotPerId(cfg, kvs[..|kvs| - 1], cached, id);
    }
  }

  lemma {:induction false} PickTwice(cfg: Settings, kvs: seq<KeyValue>, id: string, cached: Option<Server>)
    ensures Pick(cfg, kvs, id, Pick(cfg, kvs, id, cached)) == Pick(cfg, kvs, id, cached)
  {
    if kvs != [] {
      PickTwice(cfg, kvs[..|kvs| - 1], id, cached);
    }
  }

  // Watch events

  /** The event has a key that does not parse or is hidden, or a value that holds no server of the key's ID and type. */
  predicate Ignored(cfg: Settings, event: Event)
  {
    var key := ParseKey(event.key);
    || key.None?
    || (key.value.typ in cfg.blacklist && key.value.id != cfg.self)
    || (event.Put? &&
      !(event.value.Json? && event.value.server.id == key.value.id && event.value.server.typ == key.value.typ))
  }

  /** The change one watch event makes, if any. */
  function Effect(cfg: Settings, servers: Servers, event: Event): Option<Change>
  {
    if !Visible(cfg, event.key) then None
    else
      var id := KeyId(event.key);
      match event
      case Put(_, key, value) =>
        var sv := Registered(key, value);
        if sv.None? then None
        else if id in servers then Some(Modify(sv.value, servers[id]))
        else Some(Add(sv.value))
      case Delete(_, _) =>
        if id in servers then Some(Del(servers[id])) else None
  }

  /** The servers a watch response leaves behind and the changes it made on the way. */
  datatype Replayed = Replayed(servers: Servers, changes: seq<Change>)

  function Replay(cfg: Settings, start: Replayed, event: Event): Replayed
  {
    var effect := Effect(cfg, start.servers, event);
    if effect.None? then start
    else Replayed(Apply(start.servers, effect.value), start.changes + [effect.value])
  }

  /** Replaying the first n events of a response; none at or below the boundary is replayed. */
  function ReplayAll(cfg: Settings, servers: Servers, boundary: int, events: seq<Event>, n: nat): Replayed
    requires n <= |events|
  {
    if n == 0 then Replayed(servers, [])
    else
      var before := ReplayAll(cfg, servers, boundary, events, n - 1);
      if events[n - 1].revision > boundary then Replay(cfg, before, events[n - 1]) else before
  }

  lemma {:induction false} ReplayIsTruthful(cfg: Settings, servers: Servers, boundary: int, events: seq<Event>, n: nat)
    requires Keyed(servers) && n <= |events|
    ensures var r := ReplayAll(cfg, servers, boundary, events, n);
            AllTruthful(servers, r.changes) && ApplyAll(servers, r.changes) == r.servers && Keyed(r.servers)
  {
    if n > 0 {
      ReplayIsTruthful(cfg, servers, boundary, events, n - 1);
      ReplayOneIsTruthful(cfg, servers, ReplayAll(cfg, servers, boundary, events, n - 1), events[n - 1]);
    }
  }

  lemma ReplayOneIsTruthful(cfg: Settings, servers: Servers, before: Replayed, event: Event)
    requires AllTruthful(servers, before.changes) && ApplyAll(servers, before.changes) == before.servers
    requires Keyed(before.servers)
    ensures var r := Replay(cfg, before, event);
            AllTruthful(servers, r.changes) && ApplyAll(servers, r.changes) == r.servers && Keyed(r.servers)
  {
    var effect := Effect(cfg, before.servers, event);
    if effect.Some? {
      Extend(servers, before.changes, effect.value);
    }
  }

  /** The highest of the boundary and the revisions of the first n events. */
  function Latest(boundary: int, events: seq<Event>, n: nat): int
    requires n <= |events|
  {
    if n == 0 then boundary
    else
      var latest := Latest(boundary, events, n - 1);
      if events[n - 1].revision > latest then events[n - 1].revision else latest
  }
}
