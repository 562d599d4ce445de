/** The operations of the etcd group service, and every interleaving of the clients that call them. */
module EtcdGroupService {
  import opened EtcdGroups
  import opened Groups
  import opened Text

  /**
   Whatever groups the store represents, it then represents them after the operation, which fails
   exactly when it should.
   */
  ghost predicate Implements(before: set<string>, after: set<string>, ok: bool, op: Op)
  {
    forall g, names :: Represents(before, g, names) && Separate(names) && op.name in names ==>
      Represents(after, Apply(g, op), names) && (ok <==> Accepts(g, op))
  }

  lemma TransactionImplements(keys: set<string>, op: Op)
    ensures Implements(keys, Commit(keys, op), Compare(keys, op), op)
  {
    forall g, names | Represents(keys, g, names) && Separate(names) && op.name in names
      ensures Represents(Commit(keys, op), Apply(g, op), names) && (Compare(keys, op) <==> Accepts(g, op))
    {
      CommitRefines(keys, g, names, op);
    }
  }

  /** A client of a store that is there already and that others change too. */
  class EtcdGroupService {
    var keys: set<string>

    method CreateGroup(name: string) returns (err: Option<Error>)
      modifies this
      ensures keys == Commit(old(keys), Create(name)) && Implements(old(keys), keys, err.None?, Create(name))
      ensures err == if Compare(old(keys), Create(name)) then None else Some(GroupAlreadyExists)
    {
      TransactionImplements(keys, Create(name));
      if GroupKey(name) in keys {
        return Some(GroupAlreadyExists);
      }
      keys := keys + {GroupKey(name)};
      return None;
    }

    method GroupMembers(name: string) returns (uids: seq<string>, err: Option<Error>)
      ensures err == if GroupKey(name) in keys then None else Some(GroupNotFound)
      ensures err.None? ==> NoDuplicates(uids) && forall u :: u in uids <==> MemberKey(name, u) in keys
      ensures forall g, names :: Represents(keys, g, names) && name in names ==>
        (err.None? <==> name in g) && (err.None? ==> Members(uids) == g[name])
    {
      if GroupKey(name) !in keys {
        return [], Some(GroupNotFound);
      }
      uids := Uids(Range(keys, name), name);
      forall u
        ensures MemberKey(name, u) in Range(keys, name) <==> MemberKey(name, u) in keys
      {
        InRange(name, MemberKey(name, u));
      }
      return uids, None;
    }

    /** Cuts the prefix off each key. */
    static method Uids(range: set<string>, name: string) returns (uids: seq<string>)
      requires forall k :: k in range ==> MemberKey(name, "") <= k
      ensures NoDuplicates(uids) && forall u :: u in uids <==> MemberKey(name, u) in range
    {
      uids := [];
      var rest := range;
      while rest != {}
        invariant rest <= range && NoDuplicates(uids)
        invariant forall u :: u in uids <==> MemberKey(name, u) in range - rest
        decreases |rest|
      {
        var k :| k in rest;
        InRange(name, k);
        var uid := k[|MemberKey(name, "")|..];
        forall u ensures MemberKey(name, u) == k <==> u == uid { Tail(name, u, uid); }
        uids := uids + [uid];
        rest := rest - {k};
      }
    }

    method GroupContainsMember(name: string, uid: string) returns (contains: bool, err: Option<Error>)
      ensures err == if GroupKey(name) in keys then None else Some(GroupNotFound)
      ensures contains <==> GroupKey(name) in keys && MemberKey(name, uid) in keys
      ensures forall g, names :: Represents(keys, g, names) && name in names ==>
        (err.None? <==> name in g) && (contains <==> name in g && uid in g[name])
    {
      if GroupKey(name) !in keys {
        return false, Some(GroupNotFound);
      }
      return MemberKey(name, uid) in keys, None;
    }

    method GetGroupKV(name: string) returns (err: Option<Error>)
      ensures err == if GroupKey(name) in keys then None else Some(GroupNotFound)
      ensures forall g, names :: Represents(keys, g, names) && name in names ==> (err.None? <==> name in g)
    {
      return if GroupKey(name) in keys then None else Some(GroupNotFound);
    }

    /** The transaction at the end of GroupAddMember; whatever makes it fail is reported as an existing member. */
    method CommitAddMember(name: string, uid: string) returns (err: Option<Error>)
      modifies this
      ensures keys == Commit(old(keys), AddMember(name, uid))
      ensures Implements(old(keys), keys, err.None?, AddMember(name, uid))
      ensures err == if Compare(old(keys), AddMember(name, uid)) then None else Some(MemberAlreadyExists)
    {
      TransactionImplements(keys, AddMember(name, uid));
      if GroupKey(name) in keys && MemberKey(name, uid) !in keys {
        keys := keys + {MemberKey(name, uid)};
        return None;
      }
      return Some(MemberAlreadyExists);
    }

    /** Without another client in between. */
    method GroupAddMember(name: string, uid: string) returns (err: Option<Error>)
      modifies this
      ensures keys == Commit(old(keys), AddMember(name, uid))
      ensures Implements(old(keys), keys, err.None?, AddMember(name, uid))
      ensures forall g, names :: Represents(old(keys), g, names) && name in names ==>
        err == if name !in g then Some(GroupNotFound) else if uid in g[name] then Some(MemberAlreadyExists) else None
    {
      TransactionImplements(keys, AddMember(name, uid));
      err := GetGroupKV(name);
      if err.Some? {
        return;
      }
      err := CommitAddMember(name, uid);
    }

    method GroupRemoveMember(name: string, uid: string) returns (err: Option<Error>)
      modifies this
      ensures keys == Commit(old(keys), RemoveMember(name, uid))
      ensures Implements(old(keys), keys, err.None?, RemoveMember(name, uid))
      ensures err == if Compare(old(keys), RemoveMember(name, uid)) then None else Some(MemberNotFound)
    {
      TransactionImplements(keys, RemoveMember(name, uid));
      if MemberKey(name, uid) !in keys {
        return Some(MemberNotFound);
      }
      keys := keys - {MemberKey(name, uid)};
      return None;
    }

    method GroupRemoveAll(name: string) returns (err: Option<Error>)
      modifies this
      ensures keys == Commit(old(keys), RemoveAll(name)) && Implements(old(keys), keys, err.None?, RemoveAll(name))
      ensures err == if Compare(old(keys), RemoveAll(name)) then None else Some(GroupNotFound)
    {
      TransactionImplements(keys, RemoveAll(name));
      if GroupKey(name) !in keys {
        return Some(GroupNotFound);
      }
      keys := keys - Range(keys, name);
      return None;
    }

    method GroupDelete(name: string) returns (err: Option<Error>)
      modifies this
      ensures keys == Commit(old(keys), Delete(name)) && Implements(old(keys), keys, err.None?, Delete(name))
      ensures err == if Compare(old(keys), Delete(name)) then None else Some(GroupNotFound)
    {
      TransactionImplements(keys, Delete(name));
      if GroupKey(name) !in keys {
        return Some(GroupNotFound);
      }
      keys := keys - Range(keys, name);
      keys := keys - {GroupKey(name)};
      return None;
    }

    /** Counts keys without looking for the group; where the store represents groups, these are the members. */
    method GroupCountMembers(name: string) returns (count: nat)
      ensures forall g, names :: Represents(keys, g, names) && name in names ==>
        count == if name in g then |g[name]| else 0
    {
      forall g, names | Represents(keys, g, names) && name in names
        ensures |Range(keys, name)| == if name in g then |g[name]| else 0
      {
        RangeIsMembers(keys, g, names, name);
      }
      return |Range(keys, name)|;
    }
  }

  // Any number of clients

  /** The store, and the clients between the read of GroupAddMember and its transaction. */
  datatype System = System(keys: set<string>, adding: map<nat, (string, string)>)

  datatype Step =
    | Transact(op: Op)
    | ReadGroup(client: nat, name: string, uid: string)
    | CommitAdd(client: nat)

  predicate Enabled(s: System, step: Step)
  {
    match step
    case Transact(op) => !op.AddMember?
    case ReadGroup(c, n, _) => c !in s.adding && GroupKey(n) in s.keys
    case CommitAdd(c) => c in s.adding
  }

  /** The operation whose transaction a step commits. */
  function Committed(s: System, step: Step): Option<Op>
    requires Enabled(s, step)
  {
    match step
    case Transact(op) => Some(op)
    case ReadGroup(_, _, _) => None
    case CommitAdd(c) => Some(AddMember(s.adding[c].0, s.adding[c].1))
  }

  function Perform(s: System, step: Step): System
    requires Enabled(s, step)
  {
    match step
    case Transact(op) => s.(keys := Commit(s.keys, op))
    case ReadGroup(c, n, u) => s.(adding := s.adding[c := (n, u)])
    case CommitAdd(c) => System(Commit(s.keys, AddMember(s.adding[c].0, s.adding[c].1)), s.adding - {c})
  }

  ghost predicate Uses(step: Step, names: iset<string>)
  {
    match step
    case Transact(op) => op.name in names
    case ReadGroup(_, n, _) => n in names
    case CommitAdd(_) => true
  }

  ghost predicate IsRun(names: iset<string>, states: seq<System>, steps: seq<Step>)
  {
    && |states| == |steps| + 1 && states[0] == System({}, map[])
    && forall i :: 0 <= i < |steps| ==>
      Enabled(states[i], steps[i]) && Uses(steps[i], names) && states[i + 1] == Perform(states[i], steps[i])
  }

  /** The group map after the operations committed so far, one at a time. */
  ghost function History(names: iset<string>, states: seq<System>, steps: seq<Step>, i: nat): GroupMap
    requires IsRun(names, states, steps) && i <= |steps|
  {
    if i == 0 then map[] else
    match Committed(states[i - 1], steps[i - 1])
    case None => History(names, states, steps, i - 1)
    case Some(op) => Apply(History(names, states, steps, i - 1), op)
  }

  ghost predicate KnownNames(s: System, names: iset<string>)
  {
    forall c :: c in s.adding ==> s.adding[c].0 in names
  }

  /** However the clients are interleaved, the store represents the operations committed so far. */
  lemma {:induction false} RunsRefine(names: iset<string>, states: seq<System>, steps: seq<Step>, i: nat)
    requires Separate(names) && IsRun(names, states, steps) && i <= |steps|
    ensures Represents(states[i].keys, History(names, states, steps, i), names) && KnownNames(states[i], names)
  {
    if i > 0 {
      RunsRefine(names, states, steps, i - 1);
      assert Uses(steps[i - 1], names);
      var op := Committed(states[i - 1], steps[i - 1]);
      if op.Some? {
        CommitRefines(states[i - 1].keys, History(names, states, steps, i - 1), names, op.value);
      }
    }
  }

  /** No member key without its group key. */
  ghost predicate NoOrphans(keys: set<string>, names: iset<string>)
  {
    forall n, u :: n in names && MemberKey(n, u) in keys ==> GroupKey(n) in keys
  }

  ghost predicate AlwaysGrouped(names: iset<string>)
  {
    forall states: seq<System>, steps, i ::
      IsRun(names, states, steps) && 0 <= i < |states| ==> NoOrphans(states[i].keys, names)
  }

  ghost predicate AlwaysRepresents(names: iset<string>)
  {
    forall states: seq<System>, steps, i ::
      IsRun(names, states, steps) && 0 <= i < |states| ==>
        Represents(states[i].keys, History(names, states, steps, i), names)
  }

  /**
   Clients that keep to some names always leave a store that represents what they committed if and
   only if no two of the names clash, and leave no orphans behind if and only if that is so.
   */
  lemma RefinesExactly(names: iset<string>)
    ensures AlwaysRepresents(names) <==> Separate(names)
    ensures AlwaysGrouped(names) <==> Separate(names)
  {
    if Separate(names) {
      forall states: seq<System>, steps, i | IsRun(names, states, steps) && 0 <= i < |states|
        ensures Represents(states[i].keys, History(names, states, steps, i), names) && NoOrphans(states[i].keys, names)
      {
        RunsRefine(names, states, steps, i);
      }
    } else {
      var n, m :| n in names && m in names && Clash(n, m);
      var states, steps := OrphanRun(names, n, m);
      RepresentsHasNoOrphans(states[3].keys, History(names, states, steps, 3), names);
    }
  }

  lemma RepresentsHasNoOrphans(keys: set<string>, g: GroupMap, names: iset<string>)
    ensures Represents(keys, g, names) ==> NoOrphans(keys, names)
  {
  }

  /**
   Creating the shorter group and adding one member to it makes a member of the longer group, which
   does not exist.
   */
  lemma OrphanRun(names: iset<string>, n: string, m: string) returns (states: seq<System>, steps: seq<Step>)
    requires n in names && m in names && Clash(n, m)
    ensures IsRun(names, states, steps) && |states| == 4
    ensures !NoOrphans(states[3].keys, names)
  {
    var v := ClashMeets(n, m);
    steps := [Transact(Create(m)), ReadGroup(0, m, v), CommitAdd(0)];
    var s0 := System({}, map[]);
    var s1 := Perform(s0, steps[0]);
    var s2 := Perform(s1, steps[1]);
    Tail(m, v, v);
    states := [s0, s1, s2, Perform(s2, steps[2])];
    Tail(n, "", "");
    assert GroupKey(n)[7..] == n && GroupKey(m)[7..] == m;
    assert states[3].keys == {GroupKey(m), MemberKey(m, v)};
    assert MemberKey(n, "") in states[3].keys && GroupKey(n) !in states[3].keys;
  }

  /** For one: group "a/uids/b" is stored under the key of member "b" of group "a". */
  lemma SharedKey()
    ensures GroupKey("a/uids/b") == MemberKey("a", "b") && Clash("a/uids/b", "a")
  {
    assert GroupKey("a/uids/b") == "groups/" + "a/uids/b" == "groups/a/uids/b";
    assert "a" + SEPARATOR == "a/uids/" && "a/uids/b" + "/" == "a/uids/" + "b/";
  }
}
