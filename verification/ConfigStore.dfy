/** applyConfigValue as it works: in place, on a heap that holds the live and the decoded object. */
module ConfigStore {
  import opened Text
  import opened ConfigValues
  import opened ConfigApply

  lemma DenotesType(heap: Heap, v: Value, t: Tree)
    requires Denotes(heap, v, t)
    ensures v.typ == TypeOf(t)
  {
  }

  /** A merge reaches no address that neither tree had. */
  lemma {:induction false} MergeAddresses(t: Tree, d: Tree)
    requires Matches(t, d)
    ensures Addresses(Merge(t, d)) <= Addresses(t) + Addresses(d)
    decreases t
  {
    var r := Merge(t, d);
    match t
    case PointerT(_, Some(cell)) =>
      if d.cell.Some? { MergeAddresses(cell.content, d.cell.value.content); }
    case InterfaceT(_, Some(inner)) =>
      if d.inner.Some? && TypeOf(inner) == TypeOf(d.inner.value) { MergeAddresses(inner, d.inner.value); }
    case StructT(_, fields) =>
      forall i | 0 <= i < |fields|
        ensures Addresses(r.fields[i].value) <= Addresses(t) + Addresses(d)
      {
        assert Addresses(fields[i].value) <= Addresses(t) && Addresses(d.fields[i].value) <= Addresses(d);
        if !fields[i].excluded { MergeAddresses(fields[i].value, d.fields[i].value); }
      }
    case ArrayT(_, elems) =>
      forall i | 0 <= i < |elems|
        ensures Addresses(r.elems[i]) <= Addresses(t) + Addresses(d)
      {
        assert Addresses(elems[i]) <= Addresses(t) && Addresses(d.elems[i]) <= Addresses(d);
        MergeAddresses(elems[i], d.elems[i]);
      }
    case _ =>
  }

  /**
   The addresses whose content the merge changes: those entered, except where the decoded object
   has the very storage of the live one, as it does after a first merge put it there.
   */
  ghost function Changed(t: Tree, d: Tree): (changed: set<nat>)
    requires Matches(t, d)
    ensures changed <= Addresses(t)
    decreases t
  {
    match t
    case PointerT(_, Some(cell)) =>
      if d.cell.None? || d.cell.value == cell then {} else {cell.address} + Changed(cell.content, d.cell.value.content)
    case InterfaceT(_, Some(inner)) =>
      if d.inner.Some? && TypeOf(inner) == TypeOf(d.inner.value) then Changed(inner, d.inner.value) else {}
    case StructT(_, fields) =>
      set i, a | 0 <= i < |fields| && !fields[i].excluded && a in Changed(fields[i].value, d.fields[i].value) :: a
    case ArrayT(_, elems) => set i, a | 0 <= i < |elems| && a in Changed(elems[i], d.elems[i]) :: a
    case _ => {}
  }

  lemma {:induction false} ItselfUnchanged(t: Tree)
    requires Matches(t, t)
    ensures Changed(t, t) == {}
    decreases t
  {
    match t
    case InterfaceT(_, Some(inner)) => ItselfUnchanged(inner);
    case StructT(_, fields) =>
      forall i | 0 <= i < |fields| && !fields[i].excluded
        ensures Changed(fields[i].value, fields[i].value) == {}
      {
        ItselfUnchanged(fields[i].value);
      }
    case ArrayT(_, elems) =>
      forall i | 0 <= i < |elems|
        ensures Changed(elems[i], elems[i]) == {}
      {
        ItselfUnchanged(elems[i]);
      }
    case _ =>
  }

  /** Nothing changed but, perhaps, the contents of these addresses. */
  ghost predicate OnlyChanged(heap: Heap, heap': Heap, addresses: set<nat>)
  {
    heap'.Keys == heap.Keys && forall a :: a in heap && a !in addresses ==> heap'[a] == heap[a]
  }

  /** A tree away from the changed addresses still stands for the same. */
  lemma DenotesApart(heap: Heap, heap': Heap, v: Value, t: Tree, changed: set<nat>)
    requires Denotes(heap, v, t) && OnlyChanged(heap, heap', changed) && Addresses(t) !! changed
    ensures Denotes(heap', v, t)
  {
    DenotesFrame(heap, heap', v, t);
  }

  /** A position of a struct or array: the live part, the decoded part, and whether it is merged. */
  datatype Slot = Slot(t: Tree, d: Tree, merged: bool)

  ghost function Result(s: Slot): Tree
    requires s.merged ==> Matches(s.t, s.d)
  {
    if s.merged then Merge(s.t, s.d) else s.t
  }

  ghost function SlotChanged(s: Slot): set<nat>
    requires s.merged ==> Matches(s.t, s.d)
  {
    if s.merged then Changed(s.t, s.d) else {}
  }

  /** The positions can be merged one after the other without disturbing each other. */
  ghost predicate Independent(slots: seq<Slot>)
  {
    && (forall i :: 0 <= i < |slots| && slots[i].merged ==> Matches(slots[i].t, slots[i].d))
    && (forall i :: 0 <= i < |slots| ==> Unshared(slots[i].t))
    && (forall i, j :: 0 <= i < j < |slots| ==> Addresses(slots[i].t) !! Addresses(slots[j].t))
    && (forall i, j :: 0 <= i < |slots| && 0 <= j < |slots| ==> SlotChanged(slots[i]) !! Addresses(slots[j].d))
  }

  /** The first i positions have been merged, the others are untouched. */
  ghost predicate Halfway(heap: Heap, slots: seq<Slot>, live: seq<Value>, decoded: seq<Value>, done: seq<Value>)
    requires Independent(slots)
  {
    && |live| == |decoded| == |slots| && |done| <= |slots|
    && (forall j :: 0 <= j < |done| ==> Denotes(heap, done[j], Result(slots[j])))
    && (forall j :: |done| <= j < |slots| ==> Denotes(heap, live[j], slots[j].t))
    && (forall j :: 0 <= j < |slots| && slots[j].merged ==> Denotes(heap, decoded[j], slots[j].d))
  }

  lemma OneMore(
    heap: Heap, heap': Heap, slots: seq<Slot>, live: seq<Value>, decoded: seq<Value>, done: seq<Value>, next: Value)
    requires Independent(slots) && Halfway(heap, slots, live, decoded, done) && |done| < |slots|
    requires OnlyChanged(heap, heap', SlotChanged(slots[|done|]))
    requires Denotes(heap', next, Result(slots[|done|]))
    ensures Halfway(heap', slots, live, decoded, done + [next])
  {
    var i := |done|;
    forall j | 0 <= j < i
      ensures Denotes(heap', done[j], Result(slots[j]))
    {
      if slots[j].merged { MergeAddresses(slots[j].t, slots[j].d); }
      DenotesApart(heap, heap', done[j], Result(slots[j]), SlotChanged(slots[i]));
    }
    forall j | i < j < |slots|
      ensures Denotes(heap', live[j], slots[j].t)
    {
      DenotesApart(heap, heap', live[j], slots[j].t, SlotChanged(slots[i]));
    }
    forall j | 0 <= j < |slots| && slots[j].merged
      ensures Denotes(heap', decoded[j], slots[j].d)
    {
      DenotesApart(heap, heap', decoded[j], slots[j].d, SlotChanged(slots[i]));
    }
  }

  ghost function FieldSlots(t: Tree, d: Tree): seq<Slot>
    requires t.StructT? && d.StructT? && |t.fields| == |d.fields|
  {
    seq(|t.fields|, i requires 0 <= i < |t.fields| => Slot(t.fields[i].value, d.fields[i].value, !t.fields[i].excluded))
  }

  ghost function ElemSlots(t: Tree, d: Tree): seq<Slot>
    requires t.ArrayT? && d.ArrayT? && |t.elems| == |d.elems|
  {
    seq(|t.elems|, i requires 0 <= i < |t.elems| => Slot(t.elems[i], d.elems[i], true))
  }

  function FieldValues(fields: seq<Field<Value>>): (values: seq<Value>)
    ensures |values| == |fields| && forall i :: 0 <= i < |fields| ==> values[i] == fields[i].value
  {
    seq(|fields|, i requires 0 <= i < |fields| => fields[i].value)
  }

  class LiveConfig {
    var heap: Heap

    /**
     Merges `decoded` into `dst` and returns what `dst` then holds. Pointed-to storage is
     updated where it is; addresses outside the live tree are left alone.
     */
    method ApplyConfigValue(dst: Value, decoded: Value, ghost t: Tree, ghost d: Tree) returns (result: Value)
      requires Denotes(heap, dst, t) && Denotes(heap, decoded, d) && Matches(t, d)
      requires Unshared(t) && Changed(t, d) !! Addresses(d)
      modifies this
      ensures Denotes(heap, result, Merge(t, d))
      ensures OnlyChanged(old(heap), heap, Changed(t, d))
      decreases d, 1
    {
      DenotesType(heap, dst, t);
      DenotesType(heap, decoded, d);
      if dst.Interface? && dst.inner.Some? && decoded.inner.Some? && dst.inner.value.typ == decoded.inner.value.typ {
        DenotesType(heap, dst.inner.value, t.inner.value);
        DenotesType(heap, decoded.inner.value, d.inner.value);
        var value := ApplyConfigValue(dst.inner.value, decoded.inner.value, t.inner.value, d.inner.value);
        return Interface(dst.typ, Some(value));
      }
      if dst.Pointer? && dst.address.Some? && decoded.address.Some? {
        ApplyPointee(dst.address.value, decoded.address.value, t.cell.value, d.cell.value);
        return dst;
      }
      if dst.Array? {
        var elems := ApplyElems(dst.elems, decoded.elems, t, d);
        return Array(dst.typ, elems);
      }
      if !dst.Struct? {
        return decoded;
      }
      var fields := ApplyFields(dst.fields, decoded.fields, t, d);
      return Struct(dst.typ, fields);
    }

    method ApplyPointee(a: nat, from: nat, ghost t: Cell, ghost d: Cell)
      requires a == t.address && from == d.address && a in heap && from in heap
      requires Denotes(heap, heap[a], t.content) && Denotes(heap, heap[from], d.content)
      requires Matches(t.content, d.content) && a !in Addresses(t.content) && Unshared(t.content)
      requires t != d ==> {a} + Changed(t.content, d.content) !! {from} + Addresses(d.content)
      modifies this
      ensures a in heap && Denotes(heap, heap[a], Merge(t.content, d.content))
      ensures OnlyChanged(old(heap), heap, if t == d then {} else {a} + Changed(t.content, d.content))
      decreases d.content, 2
    {
      if t == d { ItselfUnchanged(t.content); }
      var value := ApplyConfigValue(heap[a], heap[from], t.content, d.content);
      ghost var before := heap;
      heap := heap[a := value];
      if t == d {
        MergeWithItself(t.content);
        DenotesDetermines(old(heap), old(heap)[a], before, value, t.content);
        assert heap == before;
      } else {
        MergeAddresses(t.content, d.content);
        DenotesApart(before, heap, value, Merge(t.content, d.content), {a});
      }
    }

    method ApplyElems(dst: seq<Value>, decoded: seq<Value>, ghost t: Tree, ghost d: Tree) returns (result: seq<Value>)
      requires t.ArrayT? && Matches(t, d) && Unshared(t) && Changed(t, d) !! Addresses(d)
      requires Denotes(heap, Array(t.typ, dst), t) && Denotes(heap, Array(d.typ, decoded), d)
      modifies this
      ensures Denotes(heap, Array(t.typ, result), Merge(t, d))
      ensures OnlyChanged(old(heap), heap, Changed(t, d))
      decreases d, 0
    {
      ghost var slots := ElemSlots(t, d);
      ElemsIndependent(t, d);
      result := [];
      var i := 0;
      while i < |dst|
        invariant 0 <= i == |result| <= |dst| == |slots|
        invariant Halfway(heap, slots, dst, decoded, result)
        invariant OnlyChanged(old(heap), heap, Changed(t, d))
      {
        ghost var before := heap;
        var value := ApplyConfigValue(dst[i], decoded[i], t.elems[i], d.elems[i]);
        OneMore(before, heap, slots, dst, decoded, result, value);
        assert SlotChanged(slots[i]) <= Changed(t, d);
        result := result + [value];
        i := i + 1;
      }
      AllElems(heap, t, d, dst, decoded, result);
    }

    method ApplyFields(dst: seq<Field<Value>>, decoded: seq<Field<Value>>, ghost t: Tree, ghost d: Tree)
      returns (result: seq<Field<Value>>)
      requires t.StructT? && Matches(t, d) && Unshared(t) && Changed(t, d) !! Addresses(d)
      requires Denotes(heap, Struct(t.typ, dst), t) && Denotes(heap, Struct(d.typ, decoded), d)
      modifies this
      ensures Denotes(heap, Struct(t.typ, result), Merge(t, d))
      ensures OnlyChanged(old(heap), heap, Changed(t, d))
      decreases d, 0
    {
      FieldsIndependent(t, d);
      var values := ApplyFieldValues(dst, decoded, t, d);
      result := Refilled(dst, values);
      AllFields(heap, t, d, dst, decoded, values, result);
    }

    /** The loop over fields. */
    method ApplyFieldValues(dst: seq<Field<Value>>, decoded: seq<Field<Value>>, ghost t: Tree, ghost d: Tree)
      returns (values: seq<Value>)
      requires t.StructT? && Matches(t, d) && Independent(FieldSlots(t, d))
      requires Denotes(heap, Struct(t.typ, dst), t) && Denotes(heap, Struct(d.typ, decoded), d)
      modifies this
      ensures |values| == |dst| && Halfway(heap, FieldSlots(t, d), FieldValues(dst), FieldValues(decoded), values)
      ensures OnlyChanged(old(heap), heap, Changed(t, d))
      decreases d, 0, 0
    {
      ghost var slots := FieldSlots(t, d);
      values := [];
      var i := 0;
      while i < |dst|
        invariant 0 <= i == |values| <= |dst| == |slots|
        invariant Halfway(heap, slots, FieldValues(dst), FieldValues(decoded), values)
        invariant OnlyChanged(old(heap), heap, Changed(t, d))
      {
        ghost var before := heap;
        var value := ApplyField(dst[i], decoded[i], slots[i]);
        OneMore(before, heap, slots, FieldValues(dst), FieldValues(decoded), values, value);
        assert SlotChanged(slots[i]) <= Changed(t, d);
        values := values + [value];
        i := i + 1;
      }
    }

    /** The body of the loop over fields: an excluded field keeps what it has. */
    method ApplyField(dst: Field<Value>, decoded: Field<Value>, ghost slot: Slot) returns (value: Value)
      requires slot.merged <==> !dst.excluded
      requires Denotes(heap, dst.value, slot.t)
      requires slot.merged ==>
        && Denotes(heap, decoded.value, slot.d) && Matches(slot.t, slot.d)
        && Unshared(slot.t) && Changed(slot.t, slot.d) !! Addresses(slot.d)
      modifies this
      ensures Denotes(heap, value, Result(slot)) && OnlyChanged(old(heap), heap, SlotChanged(slot))
      decreases slot.d, 2
    {
      if dst.excluded {
        return dst.value;
      }
      value := ApplyConfigValue(dst.value, decoded.value, slot.t, slot.d);
    }
  }

  lemma FieldsIndependent(t: Tree, d: Tree)
    requires t.StructT? && Matches(t, d) && Unshared(t) && Changed(t, d) !! Addresses(d)
    ensures Independent(FieldSlots(t, d))
  {
    var slots := FieldSlots(t, d);
    forall i, j | 0 <= i < |slots| && 0 <= j < |slots|
      ensures SlotChanged(slots[i]) !! Addresses(slots[j].d)
    {
      assert SlotChanged(slots[i]) <= Changed(t, d) && Addresses(d.fields[j].value) <= Addresses(d);
    }
  }

  lemma ElemsIndependent(t: Tree, d: Tree)
    requires t.ArrayT? && Matches(t, d) && Unshared(t) && Changed(t, d) !! Addresses(d)
    ensures Independent(ElemSlots(t, d))
  {
    var slots := ElemSlots(t, d);
    forall i, j | 0 <= i < |slots| && 0 <= j < |slots|
      ensures SlotChanged(slots[i]) !! Addresses(slots[j].d)
    {
      assert SlotChanged(slots[i]) <= Changed(t, d) && Addresses(d.elems[j]) <= Addresses(d);
    }
  }

  lemma AllElems(heap: Heap, t: Tree, d: Tree, dst: seq<Value>, decoded: seq<Value>, result: seq<Value>)
    requires t.ArrayT? && Matches(t, d) && Independent(ElemSlots(t, d))
    requires Halfway(heap, ElemSlots(t, d), dst, decoded, result) && |result| == |t.elems|
    ensures Denotes(heap, Array(t.typ, result), Merge(t, d))
  {
    var r := Merge(t, d);
    forall i | 0 <= i < |r.elems|
      ensures Denotes(heap, result[i], r.elems[i])
    {
      assert Result(ElemSlots(t, d)[i]) == r.elems[i];
    }
  }

  lemma AllFields(
    heap: Heap, t: Tree, d: Tree, dst: seq<Field<Value>>, decoded: seq<Field<Value>>, values: seq<Value>,
    result: seq<Field<Value>>)
    requires t.StructT? && Matches(t, d) && Independent(FieldSlots(t, d))
    requires |values| == |result| == |dst| == |t.fields|
    requires Halfway(heap, FieldSlots(t, d), FieldValues(dst), FieldValues(decoded), values)
    requires forall i :: 0 <= i < |dst| ==>
      result[i] == dst[i].(value := values[i]) && dst[i].excluded == t.fields[i].excluded &&
        dst[i].squash == t.fields[i].squash
    ensures Denotes(heap, Struct(t.typ, result), Merge(t, d))
  {
    var r := Merge(t, d);
    forall i | 0 <= i < |r.fields|
      ensures Denotes(heap, result[i].value, r.fields[i].value)
    {
      assert Result(FieldSlots(t, d)[i]) == r.fields[i].value;
    }
  }
}
