/** Registration keys of service discovery: `servers/<type>/<id>`. */
module EtcdKeys {
  import opened Text

  datatype ServerKey = ServerKey(typ: string, id: string)

  function GetKey(id: string, typ: string): string
  {
    "servers/" + typ + "/" + id
  }

  function ParseKey(key: string): Option<ServerKey>
  {
    var parts := Split(key, '/');
    if |parts| != 3 || parts[0] != "servers" || parts[1] == "" || parts[2] == "" then None
    else Some(ServerKey(parts[1], parts[2]))
  }

  predicate KeyPart(s: string)
  {
    s != "" && '/' !in s
  }

  /** The parser accepts a key exactly when it is the printed form of two usable parts. */
  lemma KeyRoundTrip(key: string, k: ServerKey)
    ensures ParseKey(key) == Some(k) <==>
            KeyPart(k.typ) && KeyPart(k.id) && key == GetKey(k.id, k.typ)
  {
    if ParseKey(key) == Some(k) {
      var parts := Split(key, '/');
      JoinOfSplit(key, '/');
      JoinOfThree(parts, '/');
    }
    if KeyPart(k.typ) && KeyPart(k.id) {
      var parts := ["servers", k.typ, k.id];
      SplitOfJoin(parts, '/');
      JoinOfThree(parts, '/');
      assert Join(parts, '/') == GetKey(k.id, k.typ);
    }
  }
}
