/** Choosing the server a call goes to, over the service-discovery cache. */
module Router {
  import opened Text
  import opened EtcdKeys
  import opened Registry
  import opened Discovery

  datatype Session = Session(uid: string, frontendID: string, frontendSessionID: int, backends: map<string, string>)

  datatype RouteError =
    | ServiceDiscoveryNotInitialized
    | NoServersAvailableOfType
    | ServerNotFound
    | ForbiddenServerOfSession

  /** A Go (server, error) pair: nothing in the type keeps both from being nil. */
  datatype Answer = Answer(server: Option<Server>, error: Option<RouteError>)

  type RoutingFunc = (Servers, Option<Session>) -> Answer

  /** All servers carry the same two routing flags. */
  predicate Uniform(servers: Servers, frontend: bool, stickiness: bool)
  {
    forall id :: id in servers ==> servers[id].frontend == frontend && servers[id].stickiness == stickiness
  }

  /** The map lists exactly the cached servers of the type: the cache has not moved since it was read. */
  ghost predicate Current(servers: Servers, cached: Servers, typ: string)
  {
    forall id :: Lookup(servers, id) == if IsOfType(cached, typ, id) then Some(cached[id]) else None
  }

  /** The server the session is bound to, by its ID. */
  function BoundTo(servers: Servers, id: string): Answer
  {
    if id == "" then Answer(None, Some(ForbiddenServerOfSession))
    else if id in servers then Answer(Some(servers[id]), None)
    else Answer(None, Some(ServerNotFound))
  }

  function BackendID(session: Session, typ: string): string
  {
    if typ in session.backends then session.backends[typ] else ""
  }

  function Decimal(n: nat): string
  {
    if n < 10 then ["0123456789"[n]] else Decimal(n / 10) + ["0123456789"[n % 10]]
  }

  /** What a session is hashed by: its user, else its place on its frontend. */
  function HashKey(session: Session): Option<string>
  {
    if session.uid != "" then Some(session.uid)
    else if session.frontendID != "" && session.frontendSessionID > 0 then
      Some(session.frontendID + "-" + Decimal(session.frontendSessionID))
    else None
  }

  class Router {
    var serviceDiscovery: EtcdServiceDiscovery?
    var routesMap: map<string, RoutingFunc>

    constructor ()
      ensures serviceDiscovery == null && routesMap == map[]
    {
      serviceDiscovery, routesMap := null, map[];
    }

    method AddRoute(typ: string, routing: RoutingFunc)
      modifies this`routesMap
      ensures routesMap == old(routesMap)[typ := routing]
    {
      routesMap := routesMap[typ := routing];
    }

    /**
     `servers` was read before this call, so the cache may have moved on since. Either a server
     of the list or an error comes back, never neither and never both; without movement a
     session that reaches a plain backend type always gets a server.
     */
    method DefaultRoute(typ: string, servers: Servers, session: Option<Session>) returns (answer: Answer)
      requires serviceDiscovery != null && serviceDiscovery.Valid()
      requires servers != map[]
      requires forall id :: id in servers ==> servers[id].id == id && servers[id].typ == typ
      ensures answer.server.Some? <==> answer.error.None?
      ensures answer.server.Some? ==> Lookup(servers, answer.server.value.id) == answer.server
      ensures session.None? ==> answer.server.Some?
      ensures session.Some? && Uniform(servers, true, false) ==> answer == BoundTo(servers, session.value.frontendID)
      ensures session.Some? && Uniform(servers, true, true) ==> answer == BoundTo(servers, session.value.frontendID)
      ensures session.Some? && Uniform(servers, false, true) ==>
        answer == BoundTo(servers, BackendID(session.value, typ))
      ensures Uniform(servers, false, false) && Current(servers, serviceDiscovery.serverMapByID, typ) ==>
        answer.server.Some?
      ensures Uniform(servers, false, false) && answer.server.None? ==> answer.error == Some(ServerNotFound)
      ensures Uniform(servers, false, false) && session.Some? && HashKey(session.value).Some? ==>
        var others := Others(serviceDiscovery.serverMapByID, typ, serviceDiscovery.cfg.self);
        others != {} ==> answer == BoundTo(servers, serviceDiscovery.hash(others, HashKey(session.value).value))
    {
      var srvList: seq<Server> := [];
      var todo := servers.Keys;
      while todo != {}
        invariant todo <= servers.Keys && |srvList| + |todo| == |servers|
        invariant forall i :: 0 <= i < |srvList| ==> Lookup(servers, srvList[i].id) == Some(srvList[i])
        decreases todo
      {
        var id :| id in todo;
        srvList := srvList + [servers[id]];
        todo := todo - {id};
      }
      var pick :| 0 <= pick < |srvList|;
      var server := srvList[pick];
      if session.None? {
        return Answer(Some(server), None);
      }
      var s := session.value;
      var svId := "";
      if server.frontend {
        svId := s.frontendID;
      } else if server.stickiness {
        svId := BackendID(s, server.typ);
      } else {
        var node: Option<string>;
        if s.uid != "" {
          node := serviceDiscovery.GetConsistentHashNode(typ, s.uid);
        } else if s.frontendID != "" && s.frontendSessionID > 0 {
          node := serviceDiscovery.GetConsistentHashNode(typ, s.frontendID + "-" + Decimal(s.frontendSessionID));
        } else {
          return Answer(Some(server), None);
        }
        if node.None? {
          return Answer(Some(server), None);
        }
        svId := node.value;
      }
      if svId != "" {
        if svId !in servers {
          return Answer(None, Some(ServerNotFound));
        }
        return Answer(Some(servers[svId]), None);
      }
      return Answer(None, Some(ForbiddenServerOfSession));
    }

    /** A type without servers is an error; one without a routing function uses the default route. */
    method Route(typ: string, session: Option<Session>) returns (answer: Answer)
      requires serviceDiscovery != null ==> serviceDiscovery.Valid()
      ensures serviceDiscovery == null ==> answer == Answer(None, Some(ServiceDiscoveryNotInitialized))
      ensures serviceDiscovery != null ==>
        var cached := serviceDiscovery.serverMapByID;
        && ((forall id :: !IsOfType(cached, typ, id)) ==> answer == Answer(None, Some(NoServersAvailableOfType)))
        && (typ !in routesMap ==>
             && (answer.server.Some? <==> answer.error.None?)
             && (answer.server.Some? ==>
               IsOfType(cached, typ, answer.server.value.id) && cached[answer.server.value.id] == answer.server.value))
        && (typ !in routesMap && (exists id :: IsOfType(cached, typ, id))
            && (session.None? || forall id :: IsOfType(cached, typ, id) ==>
              !cached[id].frontend && !cached[id].stickiness) ==>
             answer.server.Some?)
        && (typ !in routesMap && session.Some? && HashKey(session.value).Some?
            && (forall id :: IsOfType(cached, typ, id) ==> !cached[id].frontend && !cached[id].stickiness) ==>
             var others := Others(cached, typ, serviceDiscovery.cfg.self);
             others != {} ==>
               && answer.server.Some?
               && answer.server.value.id == serviceDiscovery.hash(others, HashKey(session.value).value))
        && (typ in routesMap && (exists id :: IsOfType(cached, typ, id)) ==>
             exists servers :: Current(servers, cached, typ) && answer == routesMap[typ](servers, session))
    {
      if serviceDiscovery == null {
        return Answer(None, Some(ServiceDiscoveryNotInitialized));
      }
      var found := serviceDiscovery.GetServersByType(typ);
      if found.None? {
        return Answer(None, Some(NoServersAvailableOfType));
      }
      var servers := found.value;
      assert Current(servers, serviceDiscovery.serverMapByID, typ);
      if typ !in routesMap {
        ghost var id :| IsOfType(serviceDiscovery.serverMapByID, typ, id);
        assert Lookup(servers, id).Some?;
        forall id | id in servers
          ensures IsOfType(serviceDiscovery.serverMapByID, typ, id) && servers[id] == serviceDiscovery.serverMapByID[id]
        {
          assert Lookup(servers, id).Some?;
        }
        answer := DefaultRoute(typ, servers, session);
      } else {
        answer := routesMap[typ](servers, session);
      }
    }
  }
}
