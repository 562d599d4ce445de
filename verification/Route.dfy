/** Route syntax: `server.service.method`, with the server type optional. */
module Route {
  import opened Text

  datatype Route = Route(svType: string, service: string, method_: string)

  datatype DecodeError = FieldCantBeEmpty | InvalidRoute
  datatype Decoded = Accepted(route: Route) | Rejected(error: DecodeError)

  /** The characters unicode.IsSpace accepts. */
  predicate IsSpace(c: char)
  {
    || '\t' <= c <= '\r' || c == ' ' || c == '\U{85}' || c == '\U{A0}'
    || c == '\U{1680}' || '\U{2000}' <= c <= '\U{200A}'
    || c == '\U{2028}' || c == '\U{2029}' || c == '\U{202F}'
    || c == '\U{205F}' || c == '\U{3000}'
  }

  /** strings.TrimSpace(s) == "" */
  predicate Blank(s: string)
  {
    forall c :: c in s ==> IsSpace(c)
  }

  function Short(r: Route): string
  {
    r.service + "." + r.method_
  }

  function Print(r: Route): string
  {
    if r.svType != "" then r.svType + "." + r.service + "." + r.method_ else Short(r)
  }

  function Decode(route: string): Decoded
  {
    var parts := Split(route, '.');
    if exists i :: 0 <= i < |parts| && Blank(parts[i]) then Rejected(FieldCantBeEmpty)
    else if |parts| == 3 then Accepted(Route(parts[0], parts[1], parts[2]))
    else if |parts| == 2 then Accepted(Route("", parts[0], parts[1]))
    else Rejected(InvalidRoute)
  }

  /** A field the syntax can carry: not blank and free of dots. */
  predicate Field(s: string)
  {
    !Blank(s) && '.' !in s
  }

  predicate WellFormed(r: Route)
  {
    (r.svType == "" || Field(r.svType)) && Field(r.service) && Field(r.method_)
  }

  /** Whatever is accepted is well formed and prints back to the same text. */
  lemma PrintOfDecode(text: string)
    requires Decode(text).Accepted?
    ensures WellFormed(Decode(text).route)
    ensures Print(Decode(text).route) == text
  {
    var parts := Split(text, '.');
    JoinOfSplit(text, '.');
    if |parts| == 3 {
      JoinOfThree(parts, '.');
    }
  }

  lemma DecodeOfPrint(r: Route)
    requires WellFormed(r)
    ensures Decode(Print(r)) == Accepted(r)
  {
    var parts := (if r.svType == "" then [] else [r.svType]) + [r.service, r.method_];
    SplitOfJoin(parts, '.');
    if r.svType != "" {
      JoinOfThree(parts, '.');
    }
    assert Join(parts, '.') == Print(r);
  }

  /** Exactly the printed forms of well-formed routes are accepted, and each is accepted as itself. */
  lemma AcceptedExactly(text: string, r: Route)
    ensures Decode(text) == Accepted(r) <==> WellFormed(r) && text == Print(r)
  {
    if Decode(text) == Accepted(r) { PrintOfDecode(text); }
    if WellFormed(r) { DecodeOfPrint(r); }
  }
}
