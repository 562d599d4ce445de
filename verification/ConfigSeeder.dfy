/** seedConfigDecodeShape as it works: fresh storage is allocated while the `active` map guards against cycles. */
module ConfigSeeder {
  import opened Text
  import opened ConfigValues
  import opened ConfigSeed

  /** The tree with every address forgotten. */
  ghost function Erase(t: Tree): Tree
    decreases t
  {
    match t
    case PointerT(typ, Some(cell)) => PointerT(typ, Some(Cell(0, Erase(cell.content))))
    case InterfaceT(typ, Some(inner)) => InterfaceT(typ, Some(Erase(inner)))
    case StructT(typ, fields) =>
      StructT(typ,
        seq(|fields|, i requires 0 <= i < |fields| =>
          Field(fields[i].excluded, fields[i].squash, Erase(fields[i].value))))
    case ArrayT(typ, elems) => ArrayT(typ, seq(|elems|, i requires 0 <= i < |elems| => Erase(elems[i])))
    case _ => t
  }

  lemma {:induction false} ZeroFacts(heap: Heap, v: Value)
    ensures Denotes(heap, ZeroValue(v), Zero(v)) && Addresses(Zero(v)) == {} && Unshared(Zero(v))
    ensures Erase(Zero(v)) == Zero(v)
    decreases v
  {
    match v
    case Struct(typ, fields) =>
      forall i | 0 <= i < |fields|
        ensures var z := Zero(fields[i].value);
          Denotes(heap, ZeroValue(fields[i].value), z) && Addresses(z) == {} && Unshared(z) && Erase(z) == z
      {
        ZeroFacts(heap, fields[i].value);
      }
      assert Erase(Zero(v)).fields == Zero(v).fields;
    case Array(typ, elems) =>
      forall i | 0 <= i < |elems|
        ensures var z := Zero(elems[i]);
          Denotes(heap, ZeroValue(elems[i]), z) && Addresses(z) == {} && Unshared(z) && Erase(z) == z
      {
        ZeroFacts(heap, elems[i]);
      }
      assert Erase(Zero(v)).elems == Zero(v).elems;
    case _ =>
  }

  ghost predicate Within(t: Tree, low: nat, high: nat)
  {
    forall a :: a in Addresses(t) ==> low <= a < high
  }

  /** The tree is made of storage allocated between two points in time, and of nothing else. */
  ghost predicate FreshTree(heap: Heap, v: Value, t: Tree, low: nat, high: nat)
  {
    Denotes(heap, v, t) && Unshared(t) && Within(t, low, high)
  }

  /** The old storage is still there and new storage starts at `low`. */
  ghost predicate Grown(heap: Heap, heap': Heap, low: nat)
  {
    && (forall a :: a in heap ==> a in heap' && heap'[a] == heap[a])
    && (forall a :: a in heap' && a !in heap ==> low <= a)
  }

  lemma FreshStays(heap: Heap, heap': Heap, v: Value, t: Tree, low: nat, high: nat, high': nat)
    requires FreshTree(heap, v, t, low, high) && Grown(heap, heap', high) && high <= high'
    ensures FreshTree(heap', v, t, low, high')
  {
    DenotesFrame(heap, heap', v, t);
  }

  /** Parts built one after the other, each from storage newer than those before it. */
  ghost predicate PartsBuilt(heap: Heap, values: seq<Value>, trees: seq<Tree>, low: nat, high: nat)
  {
    && |values| == |trees|
    && (forall j :: 0 <= j < |trees| ==> FreshTree(heap, values[j], trees[j], low, high))
    && (forall j, k :: 0 <= j < k < |trees| ==> Addresses(trees[j]) !! Addresses(trees[k]))
  }

  lemma OneMorePart(
    heap: Heap, heap': Heap, values: seq<Value>, trees: seq<Tree>, low: nat, middle: nat, high: nat, value: Value,
    tree: Tree)
    requires PartsBuilt(heap, values, trees, low, middle) && low <= middle <= high && Grown(heap, heap', middle)
    requires FreshTree(heap', value, tree, middle, high)
    ensures PartsBuilt(heap', values + [value], trees + [tree], low, high)
  {
    forall j | 0 <= j < |trees|
      ensures FreshTree(heap', values[j], trees[j], low, high) && Addresses(trees[j]) !! Addresses(tree)
    {
      FreshStays(heap, heap', values[j], trees[j], low, middle, high);
      assert Within(trees[j], low, middle) && Within(tree, middle, high);
    }
  }

  ghost function FieldTrees(fields: seq<Field<Value>>, trees: seq<Tree>): (result: seq<Field<Tree>>)
    requires |trees| == |fields|
    ensures |result| == |fields|
    ensures forall i :: 0 <= i < |fields| ==> result[i] == Field(fields[i].excluded, fields[i].squash, trees[i])
  {
    seq(|fields|, i requires 0 <= i < |fields| => Field(fields[i].excluded, fields[i].squash, trees[i]))
  }

  class Seeder {
    const live: Heap
    ghost const graph: set<Typed>
    var fresh_: Heap
    var next: nat
    var active: set<Typed>

    ghost predicate Valid()
      reads this
    {
      && Closed(live, graph)
      && live.Keys !! fresh_.Keys
      && (forall a :: a in live || a in fresh_ ==> a < next)
    }

    constructor (live: Heap, root: Value, next: nat)
      requires NoneDangling(live, root) && forall a :: a in live ==> NoneDangling(live, live[a]) && a < next
      ensures Valid() && PointsInto(live, graph, root)
      ensures this.live == live && this.next == next && fresh_ == map[] && active == {}
    {
      this.live, this.next, graph := live, next, GraphOf(live) + Pointers(root);
      fresh_, active := map[], {};
      GraphIsFinite(live, root);
    }

    /**
     Seeds a slot of the type of `src`, of which only the zero value is known, and returns what it
     then holds. The `active` map is as before; the result uses only storage allocated here, none
     of it twice, and none of the live object's.
     */
    method Seed(src: Value, allocate: bool) returns (dst: Value, needed: bool, ghost t: Tree)
      requires Valid() && PointsInto(live, graph, src)
      modifies this`fresh_, this`next, this`active
      ensures Valid() && active == old(active) && old(next) <= next
      ensures Grown(old(fresh_), fresh_, old(next))
      ensures FreshTree(fresh_, dst, t, old(next), next)
      ensures Seeded(Erase(t), needed) == Shape(live, graph, src, allocate, active)
      decreases graph - active, src, 1
    {
      dst, needed := ZeroValue(src), false;
      t := Zero(src);
      ZeroFacts(fresh_, src);
      match src {
        case Pointer(typ, Some(a)) =>
          if (typ, a) in active {
            return;
          }
          dst, needed, t := SeedPointer(typ, a, allocate);
        case Interface(typ, Some(inner)) =>
          var value, _, tree := Seed(inner, true);
          dst, needed := Interface(typ, Some(value)), true;
          t := InterfaceT(typ, Some(tree));
        case Struct(typ, fields) =>
          dst, needed, t := SeedFields(typ, fields);
        case Array(typ, elems) =>
          dst, needed, t := SeedElems(typ, elems);
        case _ =>
      }
    }

    method SeedPointer(typ: string, a: nat, allocate: bool) returns (dst: Value, needed: bool, ghost t: Tree)
      requires Valid() && a in live && (typ, a) in graph && (typ, a) !in active
      modifies this`fresh_, this`next, this`active
      ensures Valid() && active == old(active) && old(next) <= next
      ensures Grown(old(fresh_), fresh_, old(next))
      ensures FreshTree(fresh_, dst, t, old(next), next)
      ensures Seeded(Erase(t), needed) == Shape(live, graph, Pointer(typ, Some(a)), allocate, active)
      decreases graph - active, Pointer(typ, Some(a)), 0
    {
      active := active + {(typ, a)};
      var value, childNeeded, tree := Seed(live[a], false);
      active := active - {(typ, a)};
      if allocate || childNeeded {
        var address := Allocate(value, old(next), tree);
        return Pointer(typ, Some(address)), true, PointerT(typ, Some(Cell(address, tree)));
      }
      return Pointer(typ, None), false, PointerT(typ, None);
    }

    /** reflect.New, with its content. */
    method Allocate(value: Value, ghost low: nat, ghost tree: Tree) returns (address: nat)
      requires Valid() && FreshTree(fresh_, value, tree, low, next)
      modifies this`fresh_, this`next
      ensures Valid() && address == old(next) && next == old(next) + 1
      ensures fresh_ == old(fresh_)[address := value]
      ensures FreshTree(fresh_, value, tree, low, address)
    {
      ghost var before := fresh_;
      address := next;
      fresh_ := fresh_[address := value];
      next := next + 1;
      FreshStays(before, fresh_, value, tree, low, address, address);
    }

    method SeedFields(typ: string, fields: seq<Field<Value>>) returns (dst: Value, needed: bool, ghost t: Tree)
      requires Valid() && PointsInto(live, graph, Struct(typ, fields))
      modifies this`fresh_, this`next, this`active
      ensures Valid() && active == old(active) && old(next) <= next
      ensures Grown(old(fresh_), fresh_, old(next))
      ensures FreshTree(fresh_, dst, t, old(next), next)
      ensures Seeded(Erase(t), needed) == Shape(live, graph, Struct(typ, fields), false, active)
      decreases graph - active, Struct(typ, fields), 0
    {
      var values, someNeeded, trees := SeedFieldValues(fields, Struct(typ, fields));
      var out := Refilled(fields, values);
      dst, needed := Struct(typ, out), someNeeded;
      t := StructT(typ, FieldTrees(fields, trees));
      FieldsMakeStruct(live, graph, fresh_, typ, fields, out, values, trees, active, needed, old(next), next);
    }

    /** The loop over fields. */
    method SeedFieldValues(fields: seq<Field<Value>>, ghost src: Value)
      returns (values: seq<Value>, needed: bool, ghost trees: seq<Tree>)
      requires Valid() && src.Struct? && src.fields == fields && PointsInto(live, graph, src)
      modifies this`fresh_, this`next, this`active
      ensures Valid() && active == old(active) && old(next) <= next
      ensures Grown(old(fresh_), fresh_, old(next)) && |trees| == |fields|
      ensures PartsBuilt(fresh_, values, trees, old(next), next)
      ensures Follows(FieldShapes(live, graph, fields, active), trees, needed)
      decreases graph - active, src, 0, 0
    {
      values, needed, trees := [], false, [];
      ghost var shapes := FieldShapes(live, graph, fields, active);
      var i := 0;
      while i < |fields|
        invariant 0 <= i == |values| == |trees| <= |fields|
        invariant Valid() && active == old(active) && old(next) <= next
        invariant Grown(old(fresh_), fresh_, old(next))
        invariant PartsBuilt(fresh_, values, trees, old(next), next)
        invariant Follows(shapes, trees, needed)
      {
        ghost var before, middle := fresh_, next;
        var value, childNeeded, tree := SeedField(fields[i]);
        OneMorePart(before, fresh_, values, trees, old(next), middle, next, value, tree);
        FollowsOne(shapes, trees, needed, tree, childNeeded);
        values, trees := values + [value], trees + [tree];
        needed := needed || childNeeded;
        i := i + 1;
      }
    }

    /** The body of the loop over fields: excluded ones stay zero. */
    method SeedField(field: Field<Value>) returns (value: Value, needed: bool, ghost t: Tree)
      requires Valid() && PointsInto(live, graph, field.value)
      modifies this`fresh_, this`next, this`active
      ensures Valid() && active == old(active) && old(next) <= next
      ensures Grown(old(fresh_), fresh_, old(next))
      ensures FreshTree(fresh_, value, t, old(next), next)
      ensures Seeded(Erase(t), needed) == FieldShape(live, graph, field, active)
      decreases graph - active, field.value, 2
    {
      if field.excluded {
        ZeroFacts(fresh_, field.value);
        return ZeroValue(field.value), false, Zero(field.value);
      }
      value, needed, t := Seed(field.value, field.squash);
    }

    method SeedElems(typ: string, elems: seq<Value>) returns (dst: Value, needed: bool, ghost t: Tree)
      requires Valid() && PointsInto(live, graph, Array(typ, elems))
      modifies this`fresh_, this`next, this`active
      ensures Valid() && active == old(active) && old(next) <= next
      ensures Grown(old(fresh_), fresh_, old(next))
      ensures FreshTree(fresh_, dst, t, old(next), next)
      ensures Seeded(Erase(t), needed) == Shape(live, graph, Array(typ, elems), false, active)
      decreases graph - active, Array(typ, elems), 0
    {
      needed := false;
      var values: seq<Value> := [];
      ghost var trees: seq<Tree> := [];
      ghost var shapes := ElemShapes(live, graph, elems, active);
      var i := 0;
      while i < |elems|
        invariant 0 <= i == |values| == |trees| <= |elems|
        invariant Valid() && active == old(active) && old(next) <= next
        invariant Grown(old(fresh_), fresh_, old(next))
        invariant PartsBuilt(fresh_, values, trees, old(next), next)
        invariant Follows(shapes, trees, needed)
      {
        ghost var before, middle := fresh_, next;
        var value, childNeeded, tree := Seed(elems[i], false);
        OneMorePart(before, fresh_, values, trees, old(next), middle, next, value, tree);
        FollowsOne(shapes, trees, needed, tree, childNeeded);
        values, trees := values + [value], trees + [tree];
        needed := needed || childNeeded;
        i := i + 1;
      }
      dst := Array(typ, values);
      t := ArrayT(typ, trees);
      ElemsMakeArray(live, graph, fresh_, typ, elems, values, trees, active, needed, old(next), next);
    }
  }

  ghost function FieldShape(live: Heap, graph: set<Typed>, field: Field<Value>, active: set<Typed>): Seeded
    requires Closed(live, graph) && PointsInto(live, graph, field.value)
  {
    if field.excluded then Seeded(Zero(field.value), false) else Shape(live, graph, field.value, field.squash, active)
  }

  ghost function FieldShapes(live: Heap, graph: set<Typed>, fields: seq<Field<Value>>, active: set<Typed>): seq<Seeded>
    requires Closed(live, graph) && forall i :: 0 <= i < |fields| ==> PointsInto(live, graph, fields[i].value)
  {
    seq(|fields|, i requires 0 <= i < |fields| => FieldShape(live, graph, fields[i], active))
  }

  ghost function ElemShapes(live: Heap, graph: set<Typed>, elems: seq<Value>, active: set<Typed>): seq<Seeded>
    requires Closed(live, graph) && forall i :: 0 <= i < |elems| ==> PointsInto(live, graph, elems[i])
  {
    seq(|elems|, i requires 0 <= i < |elems| => Shape(live, graph, elems[i], false, active))
  }

  /** The trees built so far have the first shapes, and `needed` says whether one of those was. */
  ghost predicate Follows(shapes: seq<Seeded>, trees: seq<Tree>, needed: bool)
  {
    && |trees| <= |shapes|
    && (forall j :: 0 <= j < |trees| ==> Erase(trees[j]) == shapes[j].tree)
    && (needed <==> exists j :: 0 <= j < |trees| && shapes[j].needed)
  }

  lemma FollowsOne(shapes: seq<Seeded>, trees: seq<Tree>, needed: bool, tree: Tree, childNeeded: bool)
    requires Follows(shapes, trees, needed) && |trees| < |shapes| && shapes[|trees|] == Seeded(Erase(tree), childNeeded)
    ensures Follows(shapes, trees + [tree], needed || childNeeded)
  {
  }

  lemma ElemsMakeArray(
    live: Heap, graph: set<Typed>, heap: Heap, typ: string, elems: seq<Value>, values: seq<Value>, trees: seq<Tree>,
    active: set<Typed>, needed: bool,
    low: nat, high: nat)
    requires Closed(live, graph) && PointsInto(live, graph, Array(typ, elems))
    requires |values| == |trees| == |elems| && PartsBuilt(heap, values, trees, low, high)
    requires Follows(ElemShapes(live, graph, elems, active), trees, needed)
    ensures FreshTree(heap, Array(typ, values), ArrayT(typ, trees), low, high)
    ensures Seeded(Erase(ArrayT(typ, trees)), needed) == Shape(live, graph, Array(typ, elems), false, active)
  {
    var shapes, whole := ElemShapes(live, graph, elems, active), Shape(live, graph, Array(typ, elems), false, active);
    assert forall j :: 0 <= j < |elems| ==> FreshTree(heap, values[j], trees[j], low, high);
    assert forall j :: 0 <= j < |elems| ==> shapes[j] == Shape(live, graph, elems[j], false, active);
    assert Erase(ArrayT(typ, trees)).elems == whole.tree.elems;
  }

  lemma FieldsMakeStruct(
    live: Heap, graph: set<Typed>, heap: Heap, typ: string, fields: seq<Field<Value>>, out: seq<Field<Value>>,
    values: seq<Value>, trees: seq<Tree>, active: set<Typed>, needed: bool, low: nat, high: nat)
    requires Closed(live, graph) && PointsInto(live, graph, Struct(typ, fields))
    requires |out| == |values| == |trees| == |fields| && PartsBuilt(heap, values, trees, low, high)
    requires forall j :: 0 <= j < |fields| ==> out[j] == fields[j].(value := values[j])
    requires Follows(FieldShapes(live, graph, fields, active), trees, needed)
    ensures var t := StructT(typ, FieldTrees(fields, trees));
      FreshTree(heap, Struct(typ, out), t, low, high) &&
        Seeded(Erase(t), needed) == Shape(live, graph, Struct(typ, fields), false, active)
  {
    FieldsAreFresh(heap, typ, fields, out, values, trees, low, high);
    FieldsMakeShape(live, graph, typ, fields, trees, active, needed);
  }

  lemma FieldsAreFresh(
    heap: Heap, typ: string, fields: seq<Field<Value>>, out: seq<Field<Value>>, values: seq<Value>, trees: seq<Tree>,
    low: nat, high: nat)
    requires |out| == |values| == |trees| == |fields| && PartsBuilt(heap, values, trees, low, high)
    requires forall j :: 0 <= j < |fields| ==> out[j] == fields[j].(value := values[j])
    ensures var t := StructT(typ, FieldTrees(fields, trees));
      FreshTree(heap, Struct(typ, out), t, low, high)
  {
    assert forall j :: 0 <= j < |fields| ==> FreshTree(heap, values[j], trees[j], low, high);
  }

  lemma FieldsMakeShape(
    live: Heap, graph: set<Typed>, typ: string, fields: seq<Field<Value>>, trees: seq<Tree>, active: set<Typed>,
    needed: bool)
    requires Closed(live, graph) && PointsInto(live, graph, Struct(typ, fields)) && |trees| == |fields|
    requires Follows(FieldShapes(live, graph, fields, active), trees, needed)
    ensures var t := StructT(typ, FieldTrees(fields, trees));
      Seeded(Erase(t), needed) == Shape(live, graph, Struct(typ, fields), false, active)
  {
    var t := StructT(typ, FieldTrees(fields, trees));
    var shapes, whole := FieldShapes(live, graph, fields, active),
      Shape(live, graph, Struct(typ, fields), false, active);
    assert forall j :: 0 <= j < |fields| ==> shapes[j] == FieldShape(live, graph, fields[j], active);
    assert Erase(t).fields == whole.tree.fields;
  }
}
