/** What seeding makes is what reloading requires: fresh storage that fits the live object. */
module ConfigSkeleton {
  import opened Text
  import opened ConfigValues
  import opened ConfigApply
  import opened ConfigPaths
  import opened ConfigReload
  import opened ConfigSeed
  import opened ConfigSeeder

  /** The live value, unfolded as far as d reaches. */
  ghost function Unfold(live: Heap, v: Value, d: Tree): Tree
    decreases d
  {
    match d
    case PointerT(_, Some(cell)) =>
      if v.Pointer? && v.address.Some? && v.address.value in live
      then PointerT(v.typ, Some(Cell(v.address.value, Unfold(live, live[v.address.value], cell.content))))
      else Unread(v)
    case InterfaceT(_, Some(inner)) =>
      if v.Interface? && v.inner.Some? then InterfaceT(v.typ, Some(Unfold(live, v.inner.value, inner))) else Unread(v)
    case StructT(_, fields) =>
      if v.Struct? && |v.fields| == |fields|
      then StructT(v.typ, seq(|fields|, i requires 0 <= i < |fields| =>
          Field(v.fields[i].excluded, v.fields[i].squash,
                if v.fields[i].excluded then Unread(v.fields[i].value)
                else Unfold(live, v.fields[i].value, fields[i].value))))
      else Unread(v)
    case ArrayT(_, elems) =>
      if v.Array? && |v.elems| == |elems|
      then ArrayT(v.typ, seq(|elems|, i requires 0 <= i < |elems| => Unfold(live, v.elems[i], elems[i])))
      else Unread(v)
    case _ => Unread(v)
  }

  lemma {:induction false} UnfoldDenotes(live: Heap, v: Value, d: Tree)
    ensures Denotes(live, v, Unfold(live, v, d))
    decreases d
  {
    match d
    case PointerT(_, Some(cell)) =>
      if v.Pointer? && v.address.Some? && v.address.value in live {
        UnfoldDenotes(live, live[v.address.value], cell.content);
      }
    case InterfaceT(_, Some(inner)) =>
      if v.Interface? && v.inner.Some? { UnfoldDenotes(live, v.inner.value, inner); }
    case StructT(_, fields) =>
      if v.Struct? && |v.fields| == |fields| {
        forall i | 0 <= i < |fields|
          ensures Denotes(live, v.fields[i].value, Unfold(live, v.fields[i].value, fields[i].value))
        {
          UnfoldDenotes(live, v.fields[i].value, fields[i].value);
        }
      }
    case ArrayT(_, elems) =>
      if v.Array? && |v.elems| == |elems| {
        forall i | 0 <= i < |elems|
          ensures Denotes(live, v.elems[i], Unfold(live, v.elems[i], elems[i]))
        {
          UnfoldDenotes(live, v.elems[i], elems[i]);
        }
      }
    case _ =>
  }

  lemma {:induction false} KeptTypesMatch(live: Heap, v: Value, d: Tree, active: set<Typed>)
    requires KeepsTypes(live, v, d, active)
    ensures Matches(Unfold(live, v, d), d) && Readable(d)
    decreases d
  {
    match d
    case PointerT(_, Some(cell)) =>
      KeptTypesMatch(live, live[v.address.value], cell.content, active + {(v.typ, v.address.value)});
    case InterfaceT(_, Some(inner)) => KeptTypesMatch(live, v.inner.value, inner, active);
    case StructT(_, fields) =>
      forall i | 0 <= i < |fields| && !fields[i].excluded
        ensures Matches(Unfold(live, v.fields[i].value, fields[i].value), fields[i].value) && Readable(fields[i].value)
      {
        KeptTypesMatch(live, v.fields[i].value, fields[i].value, active);
      }
    case ArrayT(_, elems) =>
      forall i | 0 <= i < |elems|
        ensures Matches(Unfold(live, v.elems[i], elems[i]), elems[i]) && Readable(elems[i])
      {
        KeptTypesMatch(live, v.elems[i], elems[i], active);
      }
    case _ =>
  }

  /** Whether a decoded tree fits does not depend on where it is stored. */
  lemma {:induction false} FitsAnywhere(t: Tree, d: Tree)
    requires Matches(t, Erase(d)) && Readable(Erase(d))
    ensures Matches(t, d) && Readable(d)
    decreases d
  {
    match d
    case PointerT(_, Some(cell)) =>
      if t.PointerT? && t.cell.Some? { FitsAnywhere(t.cell.value.content, cell.content); } else { ReadableAnywhere(d); }
    case InterfaceT(_, Some(inner)) =>
      ReadableAnywhere(d);
      if t.InterfaceT? && t.inner.Some? && TypeOf(t.inner.value) == TypeOf(Erase(inner)) {
        FitsAnywhere(t.inner.value, inner);
      }
    case StructT(_, fields) =>
      forall i | 0 <= i < |fields| && !fields[i].excluded
        ensures Matches(t.fields[i].value, fields[i].value) && Readable(fields[i].value)
      {
        assert Erase(d).fields[i].value == Erase(fields[i].value);
        FitsAnywhere(t.fields[i].value, fields[i].value);
      }
      assert forall i :: 0 <= i < |fields| ==> Erase(d).fields[i].excluded == fields[i].excluded;
    case ArrayT(_, elems) =>
      forall i | 0 <= i < |elems|
        ensures Matches(t.elems[i], elems[i]) && Readable(elems[i])
      {
        assert Erase(d).elems[i] == Erase(elems[i]);
        FitsAnywhere(t.elems[i], elems[i]);
      }
    case _ =>
  }

  lemma {:induction false} ReadableAnywhere(d: Tree)
    requires Readable(Erase(d))
    ensures Readable(d) && TypeOf(d) == TypeOf(Erase(d))
    decreases d
  {
    match d
    case PointerT(_, Some(cell)) => ReadableAnywhere(cell.content);
    case InterfaceT(_, Some(inner)) => ReadableAnywhere(inner);
    case StructT(_, fields) =>
      forall i | 0 <= i < |fields| && !fields[i].excluded
        ensures Readable(fields[i].value)
      {
        assert Erase(d).fields[i].excluded == fields[i].excluded && Readable(Erase(d).fields[i].value);
        ReadableAnywhere(fields[i].value);
      }
    case ArrayT(_, elems) =>
      forall i | 0 <= i < |elems|
        ensures Readable(elems[i])
      {
        assert Readable(Erase(d).elems[i]);
        ReadableAnywhere(elems[i]);
      }
    case _ =>
  }

  /**
   The skeleton seeded from a loader's pointer is a document for that loader: fresh, readable,
   unshared, and of the live object's type wherever a merge would enter.
   */
  lemma SkeletonIsDocument(
    live: Heap, graph: set<Typed>, typ: string, a: nat, storage: Heap, dst: Value, t: Tree, low: nat, high: nat)
    requires Closed(live, graph) && a in live && (typ, a) in graph
    requires FreshTree(storage, dst, t, low, high)
    requires Erase(t) == Shape(live, graph, Pointer(typ, Some(a)), true, {}).tree
    ensures t.PointerT? && t.cell.Some? && dst == Pointer(typ, Some(t.cell.value.address))
    ensures Decodes(Document(storage, t.cell.value.address), t.cell.value.content)
    ensures var d := t.cell.value.content;
      Denotes(live, live[a], Unfold(live, live[a], Erase(d))) && Matches(Unfold(live, live[a], Erase(d)), d)
    ensures AllocatedExactly(live, Pointer(typ, Some(a)), Erase(t), true, {})
  {
    SkeletonAllocatedExactly(live, graph, Pointer(typ, Some(a)), true, {});
    var d := t.cell.value.content;
    var pointee := Shape(live, graph, live[a], false, {(typ, a)}).tree;
    assert {} + {(typ, a)} == {(typ, a)};
    assert Erase(d) == pointee;
    ShapeKeepsTypes(live, graph, live[a], false, {(typ, a)});
    KeptTypesMatch(live, live[a], pointee, {(typ, a)});
    FitsAnywhere(Unfold(live, live[a], pointee), d);
    UnfoldDenotes(live, live[a], pointee);
  }
}
