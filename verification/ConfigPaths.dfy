/**
 Where the skeleton has storage: told by paths through the live object, to the places a decoder
 cannot fill unless they are seeded.
 */
module ConfigPaths {
  import opened Text
  import opened ConfigValues
  import opened ConfigSeed

  datatype Hop = IntoField(i: nat) | IntoElem(i: nat) | IntoInterface | IntoPointer

  /** A pointer that is set and does not lead back into what is being followed. */
  predicate Followable(live: Heap, v: Value, active: set<Typed>)
  {
    v.Pointer? && v.address.Some? && v.address.value in live && (v.typ, v.address.value) !in active
  }

  /**
   The path leads from v, through fields that are not excluded, elements, interfaces and pointers
   not yet followed, to a place that must be seeded: an interface that holds a value, or a pointer
   to be allocated, which is one in a squashed field or held by an interface.
   */
  ghost predicate Leads(live: Heap, v: Value, allocate: bool, active: set<Typed>, path: seq<Hop>)
    decreases |path|
  {
    if path == [] then (v.Interface? && v.inner.Some?) || (allocate && Followable(live, v, active))
    else
      match path[0]
      case IntoField(i) =>
        && v.Struct? && i < |v.fields| && !v.fields[i].excluded
        && Leads(live, v.fields[i].value, v.fields[i].squash, active, path[1..])
      case IntoElem(i) => v.Array? && i < |v.elems| && Leads(live, v.elems[i], false, active, path[1..])
      case IntoInterface => v.Interface? && v.inner.Some? && Leads(live, v.inner.value, true, active, path[1..])
      case IntoPointer =>
        && Followable(live, v, active)
        && Leads(live, live[v.address.value], false, active + {(v.typ, v.address.value)}, path[1..])
  }

  ghost predicate LeadsSomewhere(live: Heap, v: Value, allocate: bool, active: set<Typed>)
  {
    exists path :: Leads(live, v, allocate, active, path)
  }

  /**
   The skeleton has what the path needs: every pointer on it allocated, every interface with a
   value of its concrete type.
   */
  ghost predicate Carries(live: Heap, v: Value, t: Tree, path: seq<Hop>)
    decreases |path|
  {
    && (v.Interface? && v.inner.Some? ==> t.InterfaceT? && t.inner.Some? && TypeOf(t.inner.value) == v.inner.value.typ)
    && (path == [] && v.Pointer? ==> t.PointerT? && t.cell.Some?)
    && (path != [] ==>
          match path[0]
          case IntoField(i) =>
            && v.Struct? && i < |v.fields| && t.StructT? && i < |t.fields|
            && Carries(live, v.fields[i].value, t.fields[i].value, path[1..])
          case IntoElem(i) =>
            v.Array? && i < |v.elems| && t.ArrayT? && i < |t.elems| && Carries(live, v.elems[i], t.elems[i], path[1..])
          case IntoInterface =>
            v.Interface? && v.inner.Some? && t.InterfaceT? && t.inner.Some? &&
              Carries(live, v.inner.value, t.inner.value, path[1..])
          case IntoPointer =>
            && v.Pointer? && v.address.Some? && v.address.value in live && t.PointerT? && t.cell.Some?
            && Carries(live, live[v.address.value], t.cell.value.content, path[1..]))
  }

  /**
   Everywhere in the skeleton: an interface holds a value of the live one's concrete type exactly
   when the live one holds one, and a pointer is allocated exactly when it can be followed and
   either must be or leads somewhere.
   */
  ghost predicate AllocatedExactly(live: Heap, v: Value, t: Tree, allocate: bool, active: set<Typed>)
    decreases t
  {
    && TypeOf(t) == v.typ
    && match t
       case ScalarT(_, _) => v.Scalar?
       case CollectionT(_, _) => v.Collection?
       case PointerT(_, cell) =>
         && v.Pointer?
         && (cell.Some? <==>
               && Followable(live, v, active)
               && (allocate || LeadsSomewhere(live, live[v.address.value], false, active + {(v.typ, v.address.value)})))
         && (cell.Some? ==>
               AllocatedExactly(live, live[v.address.value], cell.value.content, false,
                 active + {(v.typ, v.address.value)}))
       case InterfaceT(_, inner) =>
         && v.Interface? && (inner.Some? <==> v.inner.Some?)
         && (inner.Some? ==> AllocatedExactly(live, v.inner.value, inner.value, true, active))
       case StructT(_, fields) =>
         && v.Struct? && |v.fields| == |fields|
         && forall i :: 0 <= i < |fields| ==>
              && fields[i].excluded == v.fields[i].excluded && fields[i].squash == v.fields[i].squash
              && (fields[i].excluded || AllocatedExactly(live, v.fields[i].value, fields[i].value, fields[i].squash,
                active))
       case ArrayT(_, elems) =>
         && v.Array? && |v.elems| == |elems|
         && forall i :: 0 <= i < |elems| ==> AllocatedExactly(live, v.elems[i], elems[i], false, active)
       case Unread(_) => false
  }

  // `needed` is reported exactly when a path leads somewhere

  lemma {:induction false} LeadsIsNeeded(
    live: Heap, graph: set<Typed>, v: Value, allocate: bool, active: set<Typed>, path: seq<Hop>)
    requires Closed(live, graph) && PointsInto(live, graph, v) && Leads(live, v, allocate, active, path)
    ensures Shape(live, graph, v, allocate, active).needed
    decreases |path|
  {
    if path != [] {
      match path[0]
      case IntoField(i) => LeadsIsNeeded(live, graph, v.fields[i].value, v.fields[i].squash, active, path[1..]);
      case IntoElem(i) => LeadsIsNeeded(live, graph, v.elems[i], false, active, path[1..]);
      case IntoInterface =>
      case IntoPointer =>
        var a := v.address.value;
        LeadsIsNeeded(live, graph, live[a], false, active + {(v.typ, a)}, path[1..]);
    }
  }

  lemma {:induction false} NeededLeads(live: Heap, graph: set<Typed>, v: Value, allocate: bool, active: set<Typed>)
    returns (path: seq<Hop>)
    requires Closed(live, graph) && PointsInto(live, graph, v) && Shape(live, graph, v, allocate, active).needed
    ensures Leads(live, v, allocate, active, path)
    decreases graph - active, v
  {
    path := [];
    match v
    case Pointer(typ, Some(a)) =>
      if !allocate {
        var rest := NeededLeads(live, graph, live[a], false, active + {(typ, a)});
        path := [IntoPointer] + rest;
        assert path[1..] == rest;
      }
    case Struct(_, fields) =>
      var i :| 0 <= i < |fields| && !fields[i].excluded &&
        Shape(live, graph, fields[i].value, fields[i].squash, active).needed;
      var rest := NeededLeads(live, graph, fields[i].value, fields[i].squash, active);
      path := [IntoField(i)] + rest;
      assert path[1..] == rest;
    case Array(_, elems) =>
      var i :| 0 <= i < |elems| && Shape(live, graph, elems[i], false, active).needed;
      var rest := NeededLeads(live, graph, elems[i], false, active);
      path := [IntoElem(i)] + rest;
      assert path[1..] == rest;
    case _ =>
  }

  lemma NeededIsLeading(live: Heap, graph: set<Typed>, v: Value, allocate: bool, active: set<Typed>)
    requires Closed(live, graph) && PointsInto(live, graph, v)
    ensures Shape(live, graph, v, allocate, active).needed <==> LeadsSomewhere(live, v, allocate, active)
  {
    if Shape(live, graph, v, allocate, active).needed {
      var path := NeededLeads(live, graph, v, allocate, active);
    }
    if LeadsSomewhere(live, v, allocate, active) {
      var path :| Leads(live, v, allocate, active, path);
      LeadsIsNeeded(live, graph, v, allocate, active, path);
    }
  }

  /** The skeleton is allocated exactly where it has to be. */
  lemma {:induction false} SkeletonAllocatedExactly(
    live: Heap, graph: set<Typed>, v: Value, allocate: bool, active: set<Typed>)
    requires Closed(live, graph) && PointsInto(live, graph, v)
    ensures AllocatedExactly(live, v, Shape(live, graph, v, allocate, active).tree, allocate, active)
    decreases graph - active, v
  {
    match v
    case Pointer(typ, Some(a)) =>
      if (typ, a) !in active {
        NeededIsLeading(live, graph, live[a], false, active + {(typ, a)});
        SkeletonAllocatedExactly(live, graph, live[a], false, active + {(typ, a)});
      }
    case Interface(_, Some(inner)) => SkeletonAllocatedExactly(live, graph, inner, true, active);
    case Struct(_, fields) =>
      var t := Shape(live, graph, v, allocate, active).tree;
      forall i | 0 <= i < |fields| && !fields[i].excluded
        ensures AllocatedExactly(live, fields[i].value, t.fields[i].value, fields[i].squash, active)
      {
        SkeletonAllocatedExactly(live, graph, fields[i].value, fields[i].squash, active);
      }
    case Array(_, elems) =>
      forall i | 0 <= i < |elems|
        ensures AllocatedExactly(live, elems[i], Shape(live, graph, elems[i], false, active).tree, false, active)
      {
        SkeletonAllocatedExactly(live, graph, elems[i], false, active);
      }
    case _ =>
  }

  /** So it carries every path that leads somewhere. */
  lemma {:induction false} PathsCarried(
    live: Heap, v: Value, t: Tree, allocate: bool, active: set<Typed>, path: seq<Hop>)
    requires AllocatedExactly(live, v, t, allocate, active) && Leads(live, v, allocate, active, path)
    ensures Carries(live, v, t, path)
    decreases |path|
  {
    if path != [] {
      match path[0]
      case IntoField(i) =>
        PathsCarried(live, v.fields[i].value, t.fields[i].value, v.fields[i].squash, active, path[1..]);
      case IntoElem(i) => PathsCarried(live, v.elems[i], t.elems[i], false, active, path[1..]);
      case IntoInterface => PathsCarried(live, v.inner.value, t.inner.value, true, active, path[1..]);
      case IntoPointer =>
        var a := v.address.value;
        assert LeadsSomewhere(live, live[a], false, active + {(v.typ, a)});
        PathsCarried(live, live[a], t.cell.value.content, false, active + {(v.typ, a)}, path[1..]);
    }
  }

  /** A pointer held by an interface is allocated, whatever it points to. */
  lemma HeldPointerAllocated(live: Heap, v: Value, t: Tree, allocate: bool, active: set<Typed>)
    requires AllocatedExactly(live, v, t, allocate, active)
    requires v.Interface? && v.inner.Some? && Followable(live, v.inner.value, active)
    ensures t.InterfaceT? && t.inner.Some? && t.inner.value.PointerT? && t.inner.value.cell.Some?
  {
  }
}
