/**
 Configuration objects as reflection sees them. A Value lives in a heap and points into it by
 address; a Tree is the same object unfolded along its pointers, each with its address.
 */
module ConfigValues {
  import opened Text

  /** Excluded fields are tagged `-` or unexported; they are not configuration. */
  datatype Field<T> = Field(excluded: bool, squash: bool, value: T)

  /** Every value carries the name of its type. A time.Time counts as a scalar. */
  datatype Value =
    | Scalar(typ: string, n: int)
    | Collection(typ: string, entries: Option<seq<int>>)    // a map or slice, possibly nil
    | Pointer(typ: string, address: Option<nat>)
    | Interface(typ: string, inner: Option<Value>)
    | Struct(typ: string, fields: seq<Field<Value>>)
    | Array(typ: string, elems: seq<Value>)

  type Heap = map<nat, Value>

  datatype Cell = Cell(address: nat, content: Tree)

  datatype Tree =
    | ScalarT(typ: string, n: int)
    | CollectionT(typ: string, entries: Option<seq<int>>)
    | PointerT(typ: string, cell: Option<Cell>)
    | InterfaceT(typ: string, inner: Option<Tree>)
    | StructT(typ: string, fields: seq<Field<Tree>>)
    | ArrayT(typ: string, elems: seq<Tree>)
    | Unread(value: Value)    // a part that is left folded, whatever it points to

  function TypeOf(t: Tree): string
  {
    if t.Unread? then t.value.typ else t.typ
  }

  /** The value v, in this heap, unfolds to the tree t. */
  ghost predicate Denotes(heap: Heap, v: Value, t: Tree)
    decreases t
  {
    match t
    case ScalarT(typ, n) => v == Scalar(typ, n)
    case CollectionT(typ, entries) => v == Collection(typ, entries)
    case PointerT(typ, None) => v == Pointer(typ, None)
    case PointerT(typ, Some(Cell(a, content))) =>
      v == Pointer(typ, Some(a)) && a in heap && Denotes(heap, heap[a], content)
    case InterfaceT(typ, None) => v == Interface(typ, None)
    case InterfaceT(typ, Some(inner)) =>
      v.Interface? && v.typ == typ && v.inner.Some? && Denotes(heap, v.inner.value, inner)
    case StructT(typ, fields) =>
      && v.Struct? && v.typ == typ && |v.fields| == |fields|
      && forall i :: 0 <= i < |fields| ==>
           && v.fields[i].excluded == fields[i].excluded && v.fields[i].squash == fields[i].squash
           && Denotes(heap, v.fields[i].value, fields[i].value)
    case ArrayT(typ, elems) =>
      && v.Array? && v.typ == typ && |v.elems| == |elems|
      && forall i :: 0 <= i < |elems| ==> Denotes(heap, v.elems[i], elems[i])
    case Unread(value) => v == value
  }

  /** The addresses a tree passes through; those of unread parts are not among them. */
  ghost function Addresses(t: Tree): set<nat>
    decreases t
  {
    match t
    case PointerT(_, Some(Cell(a, content))) => {a} + Addresses(content)
    case InterfaceT(_, Some(inner)) => Addresses(inner)
    case StructT(_, fields) => set i, a | 0 <= i < |fields| && a in Addresses(fields[i].value) :: a
    case ArrayT(_, elems) => set i, a | 0 <= i < |elems| && a in Addresses(elems[i]) :: a
    case _ => {}
  }

  /** No address is met twice: what the tree unfolds is not shared between two of its own paths. */
  ghost predicate Unshared(t: Tree)
    decreases t
  {
    match t
    case PointerT(_, Some(Cell(a, content))) => a !in Addresses(content) && Unshared(content)
    case InterfaceT(_, Some(inner)) => Unshared(inner)
    case StructT(_, fields) =>
      && (forall i :: 0 <= i < |fields| ==> Unshared(fields[i].value))
      && (forall i, j :: 0 <= i < j < |fields| ==> Addresses(fields[i].value) !! Addresses(fields[j].value))
    case ArrayT(_, elems) =>
      && (forall i :: 0 <= i < |elems| ==> Unshared(elems[i]))
      && (forall i, j :: 0 <= i < j < |elems| ==> Addresses(elems[i]) !! Addresses(elems[j]))
    case _ => true
  }

  /** The fields with these values in place of their own. */
  function Refilled(fields: seq<Field<Value>>, values: seq<Value>): (result: seq<Field<Value>>)
    requires |values| == |fields|
    ensures |result| == |fields| && forall i :: 0 <= i < |fields| ==> result[i] == fields[i].(value := values[i])
  {
    seq(|fields|, i requires 0 <= i < |fields| => fields[i].(value := values[i]))
  }

  ghost predicate AgreeOn(heap: Heap, heap': Heap, addresses: set<nat>)
  {
    forall a :: a in addresses && a in heap ==> a in heap' && heap'[a] == heap[a]
  }

  /** What a tree stands for depends on its own addresses only. */
  lemma {:induction false} DenotesFrame(heap: Heap, heap': Heap, v: Value, t: Tree)
    requires Denotes(heap, v, t) && AgreeOn(heap, heap', Addresses(t))
    ensures Denotes(heap', v, t)
    decreases t
  {
    match t
    case PointerT(_, Some(Cell(a, content))) =>
      assert Addresses(content) <= Addresses(t);
      DenotesFrame(heap, heap', heap[a], content);
    case InterfaceT(_, Some(inner)) => DenotesFrame(heap, heap', v.inner.value, inner);
    case StructT(_, fields) =>
      forall i | 0 <= i < |fields|
        ensures Denotes(heap', v.fields[i].value, fields[i].value)
      {
        assert Addresses(fields[i].value) <= Addresses(t);
        DenotesFrame(heap, heap', v.fields[i].value, fields[i].value);
      }
    case ArrayT(_, elems) =>
      forall i | 0 <= i < |elems|
        ensures Denotes(heap', v.elems[i], elems[i])
      {
        assert Addresses(elems[i]) <= Addresses(t);
        DenotesFrame(heap, heap', v.elems[i], elems[i]);
      }
    case _ =>
  }

  /** A tree determines the value that unfolds to it, and the content of every address on the way. */
  lemma {:induction false} DenotesDetermines(heap: Heap, v: Value, heap': Heap, v': Value, t: Tree)
    requires Denotes(heap, v, t) && Denotes(heap', v', t)
    ensures v == v' && forall a :: a in Addresses(t) ==> a in heap && a in heap' && heap[a] == heap'[a]
    decreases t
  {
    match t
    case PointerT(_, Some(Cell(a, content))) => DenotesDetermines(heap, heap[a], heap', heap'[a], content);
    case InterfaceT(_, Some(inner)) => DenotesDetermines(heap, v.inner.value, heap', v'.inner.value, inner);
    case StructT(_, fields) =>
      forall i | 0 <= i < |fields|
        ensures v.fields[i] == v'.fields[i]
        ensures forall a :: a in Addresses(fields[i].value) ==> a in heap && a in heap' && heap[a] == heap'[a]
      {
        DenotesDetermines(heap, v.fields[i].value, heap', v'.fields[i].value, fields[i].value);
      }
      assert v.fields == v'.fields;
    case ArrayT(_, elems) =>
      forall i | 0 <= i < |elems|
        ensures v.elems[i] == v'.elems[i]
        ensures forall a :: a in Addresses(elems[i]) ==> a in heap && a in heap' && heap[a] == heap'[a]
      {
        DenotesDetermines(heap, v.elems[i], heap', v'.elems[i], elems[i]);
      }
      assert v.elems == v'.elems;
    case _ =>
  }
}
