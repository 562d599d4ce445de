/**
 The etcd group service without leases: a group is a key, each member another key below it, and
 every change is one compare-and-put transaction. The store keeps only keys, since all values are empty.
 */
module EtcdGroups {
  import opened Groups
  import opened Text

  const SEPARATOR := "/uids/"

  function GroupKey(name: string): string
  {
    "groups/" + name
  }

  function MemberKey(name: string, uid: string): string
  {
    GroupKey(name) + SEPARATOR + uid
  }

  /** What a prefix request for the group's members returns. */
  function Range(keys: set<string>, name: string): set<string>
  {
    set k | k in keys && MemberKey(name, "") <= k
  }

  /** The store after the transaction of an operation: unchanged when the comparison fails. */
  function Commit(keys: set<string>, op: Op): set<string>
  {
    if !Compare(keys, op) then keys else
    match op
    case Create(n) => keys + {GroupKey(n)}
    case AddMember(n, u) => keys + {MemberKey(n, u)}
    case RemoveMember(n, u) => keys - {MemberKey(n, u)}
    case RemoveAll(n) => keys - Range(keys, n)
    case Delete(n) => keys - Range(keys, n) - {GroupKey(n)}
  }

  /** The comparison of the transaction. */
  predicate Compare(keys: set<string>, op: Op)
  {
    match op
    case Create(n) => GroupKey(n) !in keys
    case AddMember(n, u) => GroupKey(n) in keys && MemberKey(n, u) !in keys
    case RemoveMember(n, u) => MemberKey(n, u) in keys
    case RemoveAll(n) => GroupKey(n) in keys
    case Delete(n) => GroupKey(n) in keys
  }

  // Names whose keys get in each other's way

  /** The longer name carries the separator of the shorter one. */
  predicate Clash(longer: string, shorter: string)
  {
    shorter + SEPARATOR <= longer + "/"
  }

  ghost predicate Separate(names: iset<string>)
  {
    forall n, m :: n in names && m in names ==> !Clash(n, m)
  }

  lemma Tail(n: string, u: string, v: string)
    ensures MemberKey(n, u) == "groups/" + (n + SEPARATOR + u)
    ensures MemberKey(n, u)[|MemberKey(n, "")|..] == u
    ensures MemberKey(n, u) == MemberKey(n, v) ==> u == v
    ensures GroupKey(n) != MemberKey(n, u)
  {
    assert MemberKey(n, u) == "groups/" + (n + SEPARATOR + u);
    assert MemberKey(n, u) == MemberKey(n, "") + u;
    assert MemberKey(n, v) == MemberKey(n, "") + v && MemberKey(n, v)[|MemberKey(n, "")|..] == v;
  }

  /** The slashes of two separators that overlap fall on letters. */
  lemma Overlapping(n: string, u: string, m: string, v: string)
    requires |m| < |n| < |m| + 5
    ensures n + SEPARATOR + u != m + SEPARATOR + v
  {
    assert (n + SEPARATOR + u)[|n|] == '/';
    assert (m + SEPARATOR + v)[|n|] == SEPARATOR[|n| - |m|];
  }

  lemma Meet(n: string, u: string, m: string, v: string)
    requires n + SEPARATOR + u == m + SEPARATOR + v && |n| >= |m|
    ensures n == m || Clash(n, m)
  {
    var a, b := n + SEPARATOR + u, m + SEPARATOR + v;
    if |n| == |m| {
      assert n == a[..|n|] && m == b[..|n|];
    } else if |n| < |m| + 5 {
      Overlapping(n, u, m, v);
    } else {
      forall i | 0 <= i < |m| + 6
        ensures (n + "/")[i] == (m + SEPARATOR)[i]
      {
        assert (n + "/")[i] == a[i] && b[i] == (m + SEPARATOR)[i];
      }
    }
  }

  lemma Below(m: string, v: string)
    ensures Clash(m + SEPARATOR + v, m)
  {
    assert (m + SEPARATOR + v) + "/" == (m + SEPARATOR) + (v + "/");
  }

  lemma Apart(n: string, u: string, m: string, v: string)
    requires n != m && !Clash(n, m) && !Clash(m, n)
    ensures GroupKey(n) != GroupKey(m) && GroupKey(n) != MemberKey(m, v) && MemberKey(n, u) != MemberKey(m, v)
  {
    Tail(n, u, u);
    Tail(m, v, v);
    Below(m, v);
    assert GroupKey(n)[7..] == n && GroupKey(m)[7..] == m;
    assert MemberKey(n, u)[7..] == n + SEPARATOR + u && MemberKey(m, v)[7..] == m + SEPARATOR + v;
    if n + SEPARATOR + u == m + SEPARATOR + v {
      if |n| >= |m| { Meet(n, u, m, v); } else { Meet(m, v, n, u); }
    }
  }

  /** Different names share a member key exactly when one carries the separator of the other. */
  lemma ClashExactly(n: string, m: string)
    requires n != m
    ensures (exists u, v :: MemberKey(n, u) == MemberKey(m, v)) <==> Clash(n, m) || Clash(m, n)
  {
    if Clash(n, m) {
      var v := ClashMeets(n, m);
    } else if Clash(m, n) {
      var v := ClashMeets(m, n);
    } else {
      forall u, v ensures MemberKey(n, u) != MemberKey(m, v) { Apart(n, u, m, v); }
    }
  }

  lemma ClashMeets(n: string, m: string) returns (v: string)
    requires Clash(n, m)
    ensures MemberKey(n, "") == MemberKey(m, v) && n != m
  {
    var whole := n + SEPARATOR;
    v := whole[|m| + 6..];
    assert n + "/" <= whole;
    assert whole == m + SEPARATOR + v;
    Tail(n, "", "");
    Tail(m, v, v);
    assert whole + "" == whole;
  }

  lemma ClashNeedsSlash(n: string, m: string)
    requires Clash(n, m)
    ensures '/' in n
  {
    assert (n + "/")[|m|] == (m + SEPARATOR)[|m|];
    assert n[|m|] == '/';
  }

  /** Names without a slash never clash. */
  lemma SlashFreeNamesAreSeparate()
    ensures Separate(iset n: string | '/' !in n)
  {
    forall n: string, m: string | Clash(n, m)
      ensures '/' in n
    {
      ClashNeedsSlash(n, m);
    }
  }

  // The store represents a group map

  ghost predicate Represents(keys: set<string>, g: GroupMap, names: iset<string>)
  {
    && (forall n :: n in names ==> (GroupKey(n) in keys <==> n in g))
    && (forall n, u :: n in names ==> (MemberKey(n, u) in keys <==> n in g && u in g[n]))
  }

  lemma GroupKeyIsOwn(names: iset<string>, name: string)
    requires Separate(names) && name in names
    ensures forall m :: m in names && m != name ==> GroupKey(m) != GroupKey(name)
    ensures forall m, v :: m in names ==> MemberKey(m, v) != GroupKey(name)
  {
    forall m | m in names && m != name ensures GroupKey(m) != GroupKey(name) { Apart(m, "", name, ""); }
    forall m, v | m in names ensures MemberKey(m, v) != GroupKey(name) {
      if m == name { Tail(name, v, v); } else { Apart(name, "", m, v); }
    }
  }

  lemma MemberKeyIsOwn(names: iset<string>, name: string, uid: string)
    requires Separate(names) && name in names
    ensures forall m :: m in names ==> GroupKey(m) != MemberKey(name, uid)
    ensures forall m, v :: m in names && MemberKey(m, v) == MemberKey(name, uid) ==> m == name && v == uid
  {
    forall m | m in names ensures GroupKey(m) != MemberKey(name, uid) {
      if m == name { Tail(name, uid, uid); } else { Apart(m, "", name, uid); }
    }
    forall m, v | m in names && MemberKey(m, v) == MemberKey(name, uid) ensures m == name && v == uid {
      if m == name { Tail(name, v, uid); } else { Apart(m, v, name, uid); }
    }
  }

  /** A key in the range of a group is one of its member keys. */
  lemma InRange(name: string, k: string)
    ensures MemberKey(name, "") <= k <==> exists u :: k == MemberKey(name, u)
    ensures MemberKey(name, "") <= k ==> k == MemberKey(name, k[|MemberKey(name, "")|..])
  {
    var prefix := MemberKey(name, "");
    if prefix <= k {
      assert k == prefix + k[|prefix|..] == MemberKey(name, k[|prefix|..]);
    }
    forall u | k == MemberKey(name, u) ensures prefix <= k { assert MemberKey(name, u) == prefix + u; }
  }

  lemma RangeIsOwn(keys: set<string>, names: iset<string>, name: string)
    requires Separate(names) && name in names
    ensures forall m :: m in names ==> GroupKey(m) !in Range(keys, name)
    ensures forall m, v :: m in names ==>
      (MemberKey(m, v) in Range(keys, name) <==> m == name && MemberKey(m, v) in keys)
  {
    forall m | m in names ensures GroupKey(m) !in Range(keys, name) {
      InRange(name, GroupKey(m));
      forall u ensures GroupKey(m) != MemberKey(name, u) { MemberKeyIsOwn(names, name, u); }
    }
    forall m, v | m in names
      ensures MemberKey(m, v) in Range(keys, name) <==> m == name && MemberKey(m, v) in keys
    {
      InRange(name, MemberKey(m, v));
      forall u ensures MemberKey(m, v) == MemberKey(name, u) ==> m == name { MemberKeyIsOwn(names, name, u); }
    }
  }

  /** Every transaction does to the store what the operation does to the group map, and fails exactly when it fails. */
  lemma CommitRefines(keys: set<string>, g: GroupMap, names: iset<string>, op: Op)
    requires Represents(keys, g, names) && Separate(names) && op.name in names
    ensures Compare(keys, op) <==> Accepts(g, op)
    ensures Represents(Commit(keys, op), Apply(g, op), names)
  {
    if Accepts(g, op) {
      match op
      case Create(n) => GroupKeyIsOwn(names, n);
      case AddMember(n, u) => MemberKeyIsOwn(names, n, u);
      case RemoveMember(n, u) => MemberKeyIsOwn(names, n, u);
      case RemoveAll(n) => RangeIsOwn(keys, names, n);
      case Delete(n) =>
        RangeIsOwn(keys, names, n);
        GroupKeyIsOwn(names, n);
    }
  }

  lemma {:induction false} SameSize(range: set<string>, members: set<string>, name: string)
    requires forall k :: k in range ==> MemberKey(name, "") <= k
    requires forall u :: MemberKey(name, u) in range <==> u in members
    ensures |range| == |members|
  {
    if members == {} {
      forall k | k in range ensures false { InRange(name, k); }
    } else {
      var u :| u in members;
      forall v ensures MemberKey(name, v) == MemberKey(name, u) ==> v == u { Tail(name, v, u); }
      SameSize(range - {MemberKey(name, u)}, members - {u}, name);
    }
  }

  /** A prefix request returns exactly the members of the group, no matter what other groups there are. */
  lemma RangeIsMembers(keys: set<string>, g: GroupMap, names: iset<string>, name: string)
    requires Represents(keys, g, names) && name in names
    ensures forall u :: MemberKey(name, u) in Range(keys, name) <==> name in g && u in g[name]
    ensures |Range(keys, name)| == if name in g then |g[name]| else 0
  {
    forall u
      ensures MemberKey(name, u) in Range(keys, name) <==> name in g && u in g[name]
    {
      InRange(name, MemberKey(name, u));
    }
    SameSize(Range(keys, name), if name in g then g[name] else {}, name);
  }
}
