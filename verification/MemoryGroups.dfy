/** The in-memory group service: one list of UIDs per group, and a clean-up of groups past their TTL. */
module MemoryGroups {
  import opened Groups
  import opened Text

  datatype MemoryGroup = MemoryGroup(uids: seq<string>, lastRefresh: int, ttl: int)

  predicate Expired(group: MemoryGroup, now: int)
  {
    group.ttl != 0 && now - group.lastRefresh > group.ttl
  }

  function Model(groups: map<string, MemoryGroup>): GroupMap
  {
    map n | n in groups :: Members(groups[n].uids)
  }

  predicate Distinct(groups: map<string, MemoryGroup>)
  {
    forall n :: n in groups ==> NoDuplicates(groups[n].uids)
  }

  /** The groups other than `name` are as before, and `name` keeps its deadline. */
  predicate KeepsTimes(before: map<string, MemoryGroup>, after: map<string, MemoryGroup>, name: string)
  {
    && (forall n :: n in before && n != name ==> n in after && after[n] == before[n])
    && (forall n :: n in after ==>
      n in before && after[n].lastRefresh == before[n].lastRefresh && after[n].ttl == before[n].ttl)
  }

  /** The last element takes the place of the removed one. */
  function SwapRemove(uids: seq<string>, i: nat): seq<string>
    requires i < |uids|
  {
    uids[i := uids[|uids| - 1]][..|uids| - 1]
  }

  lemma ModelOfUpdate(groups: map<string, MemoryGroup>, name: string, group: MemoryGroup)
    ensures Model(groups[name := group]) == Model(groups)[name := Members(group.uids)]
  {
  }

  lemma ModelOfRemoval(groups: map<string, MemoryGroup>, name: string)
    ensures Model(groups - {name}) == Model(groups) - {name}
  {
  }

  lemma Appended(uids: seq<string>, uid: string)
    requires NoDuplicates(uids) && uid !in uids
    ensures NoDuplicates(uids + [uid]) && Members(uids + [uid]) == Members(uids) + {uid}
  {
  }

  lemma SwapRemoved(uids: seq<string>, i: nat)
    requires NoDuplicates(uids) && i < |uids|
    ensures NoDuplicates(SwapRemove(uids, i)) && Members(SwapRemove(uids, i)) == Members(uids) - {uids[i]}
  {
    var shorter := SwapRemove(uids, i);
    forall u | u in uids && u != uids[i]
      ensures u in shorter
    {
      var j :| 0 <= j < |uids| && uids[j] == u;
      assert shorter[if j == |uids| - 1 then i else j] == u;
    }
  }

  method ElementIndex(slice: seq<string>, element: string) returns (index: nat, found: bool)
    ensures found <==> element in slice
    ensures found ==> index < |slice| && slice[index] == element && element !in slice[..index]
    ensures !found ==> index == 0
  {
    for i := 0 to |slice|
      invariant element !in slice[..i]
    {
      if slice[i] == element {
        return i, true;
      }
    }
    return 0, false;
  }

  class MemoryGroupService {
    var groups: map<string, MemoryGroup>

    ghost predicate Valid()
      reads this
    {
      Distinct(groups)
    }

    constructor ()
      ensures Valid() && Model(groups) == map[]
    {
      groups := map[];
    }

    method GroupCreate(name: string) returns (err: Option<Error>)
      requires Valid()
      modifies this
      ensures Valid() && Model(groups) == Apply(old(Model(groups)), Create(name))
      ensures err == if name in old(groups) then Some(GroupAlreadyExists) else None
      ensures err.None? ==> groups == old(groups)[name := MemoryGroup([], 0, 0)]
      ensures err.Some? ==> groups == old(groups)
    {
      if name in groups {
        return Some(GroupAlreadyExists);
      }
      ModelOfUpdate(groups, name, MemoryGroup([], 0, 0));
      assert Members([]) == {};
      groups := groups[name := MemoryGroup([], 0, 0)];
      return None;
    }

    method GroupCreateWithTTL(name: string, ttl: int, now: int) returns (err: Option<Error>)
      requires Valid()
      modifies this
      ensures Valid() && Model(groups) == Apply(old(Model(groups)), Create(name))
      ensures err == if name in old(groups) then Some(GroupAlreadyExists) else None
      ensures err.None? ==> groups == old(groups)[name := MemoryGroup([], now, ttl)]
      ensures err.Some? ==> groups == old(groups)
    {
      if name in groups {
        return Some(GroupAlreadyExists);
      }
      ModelOfUpdate(groups, name, MemoryGroup([], now, ttl));
      assert Members([]) == {};
      groups := groups[name := MemoryGroup([], now, ttl)];
      return None;
    }

    method GroupMembers(name: string) returns (uids: seq<string>, err: Option<Error>)
      requires Valid()
      ensures err == if name in Model(groups) then None else Some(GroupNotFound)
      ensures err.None? ==> NoDuplicates(uids) && Members(uids) == Model(groups)[name]
    {
      if name !in groups {
        return [], Some(GroupNotFound);
      }
      return groups[name].uids, None;
    }

    method GroupContainsMember(name: string, uid: string) returns (contains: bool, err: Option<Error>)
      requires Valid()
      ensures err == if name in Model(groups) then None else Some(GroupNotFound)
      ensures contains <==> name in Model(groups) && uid in Model(groups)[name]
    {
      if name !in groups {
        return false, Some(GroupNotFound);
      }
      var _, found := ElementIndex(groups[name].uids, uid);
      return found, None;
    }

    method GroupAddMember(name: string, uid: string) returns (err: Option<Error>)
      requires Valid()
      modifies this
      ensures Valid() && Model(groups) == Apply(old(Model(groups)), AddMember(name, uid))
      ensures err == (if name !in old(Model(groups)) then Some(GroupNotFound)
                      else if uid in old(Model(groups))[name] then Some(MemberAlreadyExists) else None)
      ensures KeepsTimes(old(groups), groups, name)
    {
      if name !in groups {
        return Some(GroupNotFound);
      }
      var group := groups[name];
      var _, contains := ElementIndex(group.uids, uid);
      if contains {
        return Some(MemberAlreadyExists);
      }
      Appended(group.uids, uid);
      ModelOfUpdate(groups, name, group.(uids := group.uids + [uid]));
      groups := groups[name := group.(uids := group.uids + [uid])];
      return None;
    }

    method GroupRemoveMember(name: string, uid: string) returns (err: Option<Error>)
      requires Valid()
      modifies this
      ensures Valid() && Model(groups) == Apply(old(Model(groups)), RemoveMember(name, uid))
      ensures err == (if name !in old(Model(groups)) then Some(GroupNotFound)
                      else if uid !in old(Model(groups))[name] then Some(MemberNotFound) else None)
      ensures KeepsTimes(old(groups), groups, name)
    {
      if name !in groups {
        return Some(GroupNotFound);
      }
      var group := groups[name];
      var index, contains := ElementIndex(group.uids, uid);
      if !contains {
        return Some(MemberNotFound);
      }
      var uids := group.uids[index := group.uids[|group.uids| - 1]];
      uids := uids[..|uids| - 1];
      SwapRemoved(group.uids, index);
      ModelOfUpdate(groups, name, group.(uids := uids));
      groups := groups[name := group.(uids := uids)];
      return None;
    }

    method GroupRemoveAll(name: string) returns (err: Option<Error>)
      requires Valid()
      modifies this
      ensures Valid() && Model(groups) == Apply(old(Model(groups)), RemoveAll(name))
      ensures err == if name !in old(Model(groups)) then Some(GroupNotFound) else None
      ensures KeepsTimes(old(groups), groups, name)
    {
      if name !in groups {
        return Some(GroupNotFound);
      }
      ModelOfUpdate(groups, name, groups[name].(uids := []));
      assert Members([]) == {};
      groups := groups[name := groups[name].(uids := [])];
      return None;
    }

    method GroupDelete(name: string) returns (err: Option<Error>)
      requires Valid()
      modifies this
      ensures Valid() && Model(groups) == Apply(old(Model(groups)), Delete(name))
      ensures err == if name !in old(Model(groups)) then Some(GroupNotFound) else None
      ensures KeepsTimes(old(groups), groups, name)
    {
      if name !in groups {
        return Some(GroupNotFound);
      }
      ModelOfRemoval(groups, name);
      groups := groups - {name};
      return None;
    }

    method GroupCountMembers(name: string) returns (count: nat, err: Option<Error>)
      requires Valid()
      ensures err == if name in Model(groups) then None else Some(GroupNotFound)
      ensures count == if name in Model(groups) then |Model(groups)[name]| else 0
    {
      if name !in groups {
        return 0, Some(GroupNotFound);
      }
      LengthIsSize(groups[name].uids);
      return |groups[name].uids|, None;
    }

    method GroupRenewTTL(name: string, now: int) returns (err: Option<Error>)
      requires Valid()
      modifies this
      ensures Valid() && Model(groups) == old(Model(groups))
      ensures err == (if name !in old(groups) then Some(GroupNotFound)
                      else if old(groups)[name].ttl == 0 then Some(TTLNotFound) else None)
      ensures err.Some? ==> groups == old(groups)
      ensures err.None? ==> groups == old(groups)[name := old(groups)[name].(lastRefresh := now)]
    {
      if name !in groups {
        return Some(GroupNotFound);
      }
      if groups[name].ttl == 0 {
        return Some(TTLNotFound);
      }
      ModelOfUpdate(groups, name, groups[name].(lastRefresh := now));
      groups := groups[name := groups[name].(lastRefresh := now)];
      return None;
    }

    /** One tick of the clean-up: exactly the groups past their TTL go, and the others are untouched. */
    method GroupTTLCleanup(now: int)
      requires Valid()
      modifies this
      ensures Valid()
      ensures forall n :: n in groups <==>
        n in old(groups) && (old(groups)[n].ttl == 0 || now <= old(groups)[n].lastRefresh + old(groups)[n].ttl)
      ensures forall n :: n in groups ==> groups[n] == old(groups)[n]
    {
      var names := groups.Keys;
      while names != {}
        invariant names <= groups.Keys <= old(groups).Keys
        invariant forall n :: n in groups ==> groups[n] == old(groups)[n]
        invariant forall n :: n in old(groups) && n !in names ==> (n in groups <==> !Expired(old(groups)[n], now))
        decreases |names|
      {
        var name :| name in names;
        names := names - {name};
        if Expired(groups[name], now) {
          groups := groups - {name};
        }
      }
    }
  }
}
