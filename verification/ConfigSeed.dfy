/** The skeleton a configuration is decoded into: the structure of the live object without its contents. */
module ConfigSeed {
  import opened Text
  import opened ConfigValues

  /** The zero value of the type of v. */
  function ZeroValue(v: Value): (z: Value)
    ensures z.typ == v.typ
  {
    match v
    case Scalar(typ, _) => Scalar(typ, 0)
    case Collection(typ, _) => Collection(typ, None)
    case Pointer(typ, _) => Pointer(typ, None)
    case Interface(typ, _) => Interface(typ, None)
    case Struct(typ, fields) =>
      Struct(typ, seq(|fields|, i requires 0 <= i < |fields| => fields[i].(value := ZeroValue(fields[i].value))))
    case Array(typ, elems) => Array(typ, seq(|elems|, i requires 0 <= i < |elems| => ZeroValue(elems[i])))
  }

  ghost function Zero(v: Value): (t: Tree)
    ensures TypeOf(t) == v.typ
  {
    match v
    case Scalar(typ, _) => ScalarT(typ, 0)
    case Collection(typ, _) => CollectionT(typ, None)
    case Pointer(typ, _) => PointerT(typ, None)
    case Interface(typ, _) => InterfaceT(typ, None)
    case Struct(typ, fields) =>
      StructT(typ,
        seq(|fields|, i requires 0 <= i < |fields| =>
          Field(fields[i].excluded, fields[i].squash, Zero(fields[i].value))))
    case Array(typ, elems) => ArrayT(typ, seq(|elems|, i requires 0 <= i < |elems| => Zero(elems[i])))
  }

  /** A pointer is told from others by its type and its address, since a struct and its first field share one. */
  type Typed = (string, nat)

  /** Every pointer in v leads somewhere in the heap and is among those of the graph. */
  ghost predicate PointsInto(heap: Heap, graph: set<Typed>, v: Value)
    decreases v
  {
    match v
    case Pointer(typ, Some(a)) => a in heap && (typ, a) in graph
    case Interface(_, Some(inner)) => PointsInto(heap, graph, inner)
    case Struct(_, fields) => forall i :: 0 <= i < |fields| ==> PointsInto(heap, graph, fields[i].value)
    case Array(_, elems) => forall i :: 0 <= i < |elems| ==> PointsInto(heap, graph, elems[i])
    case _ => true
  }

  ghost predicate Closed(heap: Heap, graph: set<Typed>)
  {
    forall a :: a in heap ==> PointsInto(heap, graph, heap[a])
  }

  /** The pointers in a value. */
  function Pointers(v: Value): set<Typed>
  {
    match v
    case Pointer(typ, Some(a)) => {(typ, a)}
    case Interface(_, Some(inner)) => Pointers(inner)
    case Struct(_, fields) => set i, p | 0 <= i < |fields| && p in Pointers(fields[i].value) :: p
    case Array(_, elems) => set i, p | 0 <= i < |elems| && p in Pointers(elems[i]) :: p
    case _ => {}
  }

  predicate NoneDangling(heap: Heap, v: Value)
  {
    forall p :: p in Pointers(v) ==> p.1 in heap
  }

  function GraphOf(heap: Heap): set<Typed>
  {
    set a, p | a in heap && p in Pointers(heap[a]) :: p
  }

  lemma {:induction false} PointersKnown(heap: Heap, graph: set<Typed>, v: Value)
    requires NoneDangling(heap, v) && Pointers(v) <= graph
    ensures PointsInto(heap, graph, v)
    decreases v
  {
    match v
    case Interface(_, Some(inner)) => PointersKnown(heap, graph, inner);
    case Struct(_, fields) =>
      forall i | 0 <= i < |fields|
        ensures PointsInto(heap, graph, fields[i].value)
      {
        assert Pointers(fields[i].value) <= Pointers(v);
        PointersKnown(heap, graph, fields[i].value);
      }
    case Array(_, elems) =>
      forall i | 0 <= i < |elems|
        ensures PointsInto(heap, graph, elems[i])
      {
        assert Pointers(elems[i]) <= Pointers(v);
        PointersKnown(heap, graph, elems[i]);
      }
    case _ =>
  }

  /** Every heap without dangling pointers is a finite graph, cyclic or not. */
  lemma GraphIsFinite(heap: Heap, root: Value)
    requires NoneDangling(heap, root) && forall a :: a in heap ==> NoneDangling(heap, heap[a])
    ensures var graph := GraphOf(heap) + Pointers(root); Closed(heap, graph) && PointsInto(heap, graph, root)
  {
    var graph := GraphOf(heap) + Pointers(root);
    PointersKnown(heap, graph, root);
    forall a | a in heap
      ensures PointsInto(heap, graph, heap[a])
    {
      assert Pointers(heap[a]) <= GraphOf(heap);
      PointersKnown(heap, graph, heap[a]);
    }
  }

  datatype Seeded = Seeded(tree: Tree, needed: bool)

  /**
   The skeleton of v, with 0 for every fresh address. The object graph may be cyclic: a pointer
   that is being followed already is left nil, so each step follows a pointer not yet active or
   goes to a smaller value.
   */
  ghost function Shape(live: Heap, graph: set<Typed>, v: Value, allocate: bool, active: set<Typed>): Seeded
    requires Closed(live, graph) && PointsInto(live, graph, v)
    decreases graph - active, v
  {
    match v
    case Pointer(typ, Some(a)) =>
      if (typ, a) in active then Seeded(Zero(v), false)
      else
        var pointee := Shape(live, graph, live[a], false, active + {(typ, a)});
        if allocate || pointee.needed then Seeded(PointerT(typ, Some(Cell(0, pointee.tree))), true)
        else Seeded(Zero(v), false)
    case Interface(typ, Some(inner)) =>
      Seeded(InterfaceT(typ, Some(Shape(live, graph, inner, true, active).tree)), true)
    case Struct(typ, fields) =>
      Seeded(
        StructT(typ, seq(|fields|, i requires 0 <= i < |fields| =>
          Field(fields[i].excluded, fields[i].squash,
                if fields[i].excluded then Zero(fields[i].value)
                else Shape(live, graph, fields[i].value, fields[i].squash, active).tree))),
        exists i :: 0 <= i < |fields| && !fields[i].excluded &&
          Shape(live, graph, fields[i].value, fields[i].squash, active).needed)
    case Array(typ, elems) =>
      Seeded(
        ArrayT(typ, seq(|elems|, i requires 0 <= i < |elems| => Shape(live, graph, elems[i], false, active).tree)),
        exists i :: 0 <= i < |elems| && Shape(live, graph, elems[i], false, active).needed)
    case _ => Seeded(Zero(v), false)
  }

  /** Only zero scalars and no map or slice entries, anywhere. */
  ghost predicate Blank(t: Tree)
    decreases t
  {
    match t
    case ScalarT(_, n) => n == 0
    case CollectionT(_, entries) => entries.None?
    case PointerT(_, cell) => cell.Some? ==> Blank(cell.value.content)
    case InterfaceT(_, inner) => inner.Some? ==> Blank(inner.value)
    case StructT(_, fields) => forall i :: 0 <= i < |fields| ==> Blank(fields[i].value)
    case ArrayT(_, elems) => forall i :: 0 <= i < |elems| ==> Blank(elems[i])
    case Unread(_) => false
  }

  lemma {:induction false} ZeroIsBlank(v: Value)
    ensures Blank(Zero(v))
    decreases v
  {
    match v
    case Struct(_, fields) =>
      forall i | 0 <= i < |fields| ensures Blank(Zero(fields[i].value)) { ZeroIsBlank(fields[i].value); }
    case Array(_, elems) =>
      forall i | 0 <= i < |elems| ensures Blank(Zero(elems[i])) { ZeroIsBlank(elems[i]); }
    case _ =>
  }

  /** No configuration value of the live object survives in the skeleton. */
  lemma {:induction false} ShapeIsBlank(live: Heap, graph: set<Typed>, v: Value, allocate: bool, active: set<Typed>)
    requires Closed(live, graph) && PointsInto(live, graph, v)
    ensures Blank(Shape(live, graph, v, allocate, active).tree)
    decreases graph - active, v
  {
    ZeroIsBlank(v);
    match v
    case Pointer(typ, Some(a)) =>
      if (typ, a) !in active { ShapeIsBlank(live, graph, live[a], false, active + {(typ, a)}); }
    case Interface(_, Some(inner)) => ShapeIsBlank(live, graph, inner, true, active);
    case Struct(_, fields) =>
      var t := Shape(live, graph, v, allocate, active).tree;
      forall i | 0 <= i < |fields|
        ensures Blank(t.fields[i].value)
      {
        ZeroIsBlank(fields[i].value);
        ShapeIsBlank(live, graph, fields[i].value, fields[i].squash, active);
      }
    case Array(_, elems) =>
      forall i | 0 <= i < |elems|
        ensures Blank(Shape(live, graph, elems[i], false, active).tree)
      {
        ShapeIsBlank(live, graph, elems[i], false, active);
      }
    case _ =>
  }

  /** `needed` is reported exactly when the skeleton is more than the zero value the decoder starts from anyway. */
  lemma {:induction false} NeededExactly(live: Heap, graph: set<Typed>, v: Value, allocate: bool, active: set<Typed>)
    requires Closed(live, graph) && PointsInto(live, graph, v)
    ensures Shape(live, graph, v, allocate, active).needed <==> Shape(live, graph, v, allocate, active).tree != Zero(v)
    decreases graph - active, v
  {
    var s, z := Shape(live, graph, v, allocate, active), Zero(v);
    match v
    case Struct(_, fields) =>
      forall i | 0 <= i < |fields|
        ensures s.tree.fields[i] != z.fields[i] <==>
                !fields[i].excluded && Shape(live, graph, fields[i].value, fields[i].squash, active).needed
      {
        NeededExactly(live, graph, fields[i].value, fields[i].squash, active);
      }
      assert s.tree == z <==> s.tree.fields == z.fields;
      assert s.tree.fields == z.fields <==> forall i :: 0 <= i < |fields| ==> s.tree.fields[i] == z.fields[i];
    case Array(_, elems) =>
      forall i | 0 <= i < |elems|
        ensures s.tree.elems[i] != z.elems[i] <==> Shape(live, graph, elems[i], false, active).needed
      {
        NeededExactly(live, graph, elems[i], false, active);
      }
      assert s.tree == z <==> s.tree.elems == z.elems;
      assert s.tree.elems == z.elems <==> forall i :: 0 <= i < |elems| ==> s.tree.elems[i] == z.elems[i];
    case _ =>
  }

  /**
   The skeleton has the type of the live object. Outside excluded fields, an interface that holds
   a value holds one of the same concrete type in the skeleton, and a squashed pointer that is
   set is allocated, unless it leads back into what is being followed.
   */
  ghost predicate KeepsTypes(live: Heap, v: Value, t: Tree, active: set<Typed>)
    decreases t
  {
    && TypeOf(t) == v.typ
    && match t
       case ScalarT(_, _) => v.Scalar?
       case CollectionT(_, _) => v.Collection?
       case PointerT(_, cell) =>
         && v.Pointer?
         && (cell.Some? ==>
               && v.address.Some? && v.address.value in live && (v.typ, v.address.value) !in active
               && KeepsTypes(live, live[v.address.value], cell.value.content, active + {(v.typ, v.address.value)}))
       case InterfaceT(_, inner) =>
         && v.Interface? && (inner.Some? <==> v.inner.Some?)
         && (inner.Some? ==> KeepsTypes(live, v.inner.value, inner.value, active))
       case StructT(_, fields) =>
         && v.Struct? && |v.fields| == |fields|
         && forall i :: 0 <= i < |fields| ==>
              && fields[i].excluded == v.fields[i].excluded && fields[i].squash == v.fields[i].squash
              && if fields[i].excluded then fields[i].value == Zero(v.fields[i].value)
                 else (&& KeepsTypes(live, v.fields[i].value, fields[i].value, active)
                       && (fields[i].squash ==> Allocated(v.fields[i].value, fields[i].value, active)))
       case ArrayT(_, elems) =>
         && v.Array? && |v.elems| == |elems|
         && forall i :: 0 <= i < |elems| ==> KeepsTypes(live, v.elems[i], elems[i], active)
       case Unread(_) => false
  }

  predicate Allocated(v: Value, t: Tree, active: set<Typed>)
  {
    v.Pointer? && v.address.Some? && (v.typ, v.address.value) !in active ==> t.PointerT? && t.cell.Some?
  }

  lemma {:induction false} ShapeKeepsTypes(live: Heap, graph: set<Typed>, v: Value, allocate: bool, active: set<Typed>)
    requires Closed(live, graph) && PointsInto(live, graph, v)
    ensures KeepsTypes(live, v, Shape(live, graph, v, allocate, active).tree, active)
    decreases graph - active, v
  {
    match v
    case Pointer(typ, Some(a)) =>
      if (typ, a) !in active { ShapeKeepsTypes(live, graph, live[a], false, active + {(typ, a)}); }
    case Interface(_, Some(inner)) => ShapeKeepsTypes(live, graph, inner, true, active);
    case Struct(_, fields) =>
      var t := Shape(live, graph, v, allocate, active).tree;
      forall i | 0 <= i < |fields|
        ensures if fields[i].excluded then t.fields[i].value == Zero(fields[i].value)
                else (&& KeepsTypes(live, fields[i].value, t.fields[i].value, active)
                      && (fields[i].squash ==> Allocated(fields[i].value, t.fields[i].value, active)))
      {
        ShapeKeepsTypes(live, graph, fields[i].value, fields[i].squash, active);
      }
    case Array(_, elems) =>
      forall i | 0 <= i < |elems|
        ensures KeepsTypes(live, elems[i], Shape(live, graph, elems[i], false, active).tree, active)
      {
        ShapeKeepsTypes(live, graph, elems[i], false, active);
      }
    case _ =>
  }
}
