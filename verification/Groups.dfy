/** What both group services implement: named groups, each a set of member UIDs. */
module Groups {

  type GroupMap = map<string, set<string>>

  datatype Error = GroupAlreadyExists | GroupNotFound | MemberAlreadyExists | MemberNotFound | TTLNotFound

  datatype Op =
    | Create(name: string)
    | AddMember(name: string, uid: string)
    | RemoveMember(name: string, uid: string)
    | RemoveAll(name: string)
    | Delete(name: string)

  /** The operations that succeed. */
  predicate Accepts(g: GroupMap, op: Op)
  {
    match op
    case Create(n) => n !in g
    case AddMember(n, u) => n in g && u !in g[n]
    case RemoveMember(n, u) => n in g && u in g[n]
    case RemoveAll(n) => n in g
    case Delete(n) => n in g
  }

  /** An operation that fails changes nothing. */
  function Apply(g: GroupMap, op: Op): GroupMap
  {
    if !Accepts(g, op) then g else
    match op
    case Create(n) => g[n := {}]
    case AddMember(n, u) => g[n := g[n] + {u}]
    case RemoveMember(n, u) => g[n := g[n] - {u}]
    case RemoveAll(n) => g[n := {}]
    case Delete(n) => g - {n}
  }

  // What a history of operations leaves behind

  /** The groups after the first i operations, successful or not. */
  function After(ops: seq<Op>, i: nat): GroupMap
    requires i <= |ops|
  {
    if i == 0 then map[] else Apply(After(ops, i - 1), ops[i - 1])
  }

  ghost predicate CreatedLast(ops: seq<Op>, i: nat, name: string)
    requires i <= |ops|
  {
    exists j :: 0 <= j < i && ops[j] == Create(name) && NoneSince(ops, j, i, name)
  }

  ghost predicate NoneSince(ops: seq<Op>, j: nat, i: nat, name: string)
    requires i <= |ops|
  {
    forall k :: j < k < i ==> ops[k] != Delete(name)
  }

  /** A group exists exactly when it was created and not deleted since. */
  lemma {:induction false} ExistsExactly(ops: seq<Op>, i: nat, name: string)
    requires i <= |ops|
    ensures name in After(ops, i) <==> CreatedLast(ops, i, name)
  {
    if i > 0 {
      ExistsExactly(ops, i - 1, name);
      if CreatedLast(ops, i - 1, name) && ops[i - 1] != Delete(name) {
        var j :| 0 <= j < i - 1 && ops[j] == Create(name) && NoneSince(ops, j, i - 1, name);
        assert NoneSince(ops, j, i, name);
      }
      if ops[i - 1] == Create(name) { assert NoneSince(ops, i - 1, i, name); }
      if CreatedLast(ops, i, name) && ops[i - 1] != Create(name) {
        var j :| 0 <= j < i && ops[j] == Create(name) && NoneSince(ops, j, i, name);
        assert NoneSince(ops, j, i - 1, name);
      }
    }
  }

  predicate TakesOut(op: Op, name: string, uid: string)
  {
    op == RemoveMember(name, uid) || op == RemoveAll(name) || op == Delete(name)
  }

  ghost predicate AddedLast(ops: seq<Op>, i: nat, name: string, uid: string)
    requires i <= |ops|
  {
    exists j :: 0 <= j < i && ops[j] == AddMember(name, uid) && name in After(ops, j) &&
      StaysSince(ops, j, i, name, uid)
  }

  ghost predicate StaysSince(ops: seq<Op>, j: nat, i: nat, name: string, uid: string)
    requires i <= |ops|
  {
    forall k :: j < k < i ==> !TakesOut(ops[k], name, uid)
  }

  /**
   A UID is a member exactly when it was added to the group while that existed, and nothing has
   taken it out since.
   */
  lemma {:induction false} MemberExactly(ops: seq<Op>, i: nat, name: string, uid: string)
    requires i <= |ops|
    ensures name in After(ops, i) && uid in After(ops, i)[name] <==> AddedLast(ops, i, name, uid)
  {
    if i > 0 {
      MemberExactly(ops, i - 1, name, uid);
      if AddedLast(ops, i - 1, name, uid) && !TakesOut(ops[i - 1], name, uid) {
        var j :| 0 <= j < i - 1 && ops[j] == AddMember(name, uid) && name in After(ops, j) &&
          StaysSince(ops, j, i - 1, name, uid);
        assert StaysSince(ops, j, i, name, uid);
      }
      if ops[i - 1] == AddMember(name, uid) { assert StaysSince(ops, i - 1, i, name, uid); }
      if AddedLast(ops, i, name, uid) {
        var j :| 0 <= j < i && ops[j] == AddMember(name, uid) && name in After(ops, j) &&
          StaysSince(ops, j, i, name, uid);
        if j < i - 1 {
          assert StaysSince(ops, j, i - 1, name, uid);
          assert !TakesOut(ops[i - 1], name, uid);
        }
      }
    }
  }

  // Lists of UIDs

  predicate NoDuplicates(uids: seq<string>)
  {
    forall i, j :: 0 <= i < j < |uids| ==> uids[i] != uids[j]
  }

  function Members(uids: seq<string>): set<string>
  {
    set u | u in uids
  }

  lemma {:induction false} LengthIsSize(uids: seq<string>)
    requires NoDuplicates(uids)
    ensures |Members(uids)| == |uids|
  {
    if uids != [] {
      var shorter := uids[..|uids| - 1];
      LengthIsSize(shorter);
      assert Members(uids) == Members(shorter) + {uids[|uids| - 1]};
    }
  }
}
