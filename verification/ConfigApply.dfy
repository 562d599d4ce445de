/** Merging a freshly decoded configuration into the live object. */
module ConfigApply {
  import opened Text
  import opened ConfigValues

  /** applyConfigValue replaces such a value as a whole: there is nothing in it to enter. */
  predicate ReplacedWhole(v: Value, d: Tree)
  {
    match v
    case Scalar(_, _) => d.ScalarT?
    case Collection(_, _) => d.CollectionT?
    case Pointer(_, address) => d.PointerT? && (address.None? || d.cell.None?)
    case Interface(_, inner) =>
      d.InterfaceT? && (inner.None? || d.inner.None? || inner.value.typ != TypeOf(d.inner.value))
    case _ => false
  }

  /**
   The live tree t has the type of d and is unfolded wherever the merge will enter it. Parts the
   merge replaces or keeps as a whole may stay unread, so they may well be cyclic or shared.
   */
  ghost predicate Matches(t: Tree, d: Tree)
    decreases t
  {
    && TypeOf(t) == TypeOf(d)
    && match t
       case ScalarT(_, _) => d.ScalarT?
       case CollectionT(_, _) => d.CollectionT?
       case PointerT(_, cell) =>
         && d.PointerT?
         && (cell.Some? && d.cell.Some? ==> Matches(cell.value.content, d.cell.value.content))
       case InterfaceT(_, inner) =>
         && d.InterfaceT?
         && (inner.Some? && d.inner.Some? && TypeOf(inner.value) == TypeOf(d.inner.value) ==>
           Matches(inner.value, d.inner.value))
       case StructT(_, fields) =>
         && d.StructT? && |d.fields| == |fields|
         && forall i :: 0 <= i < |fields| ==>
              && d.fields[i].excluded == fields[i].excluded && d.fields[i].squash == fields[i].squash
              && (fields[i].excluded || Matches(fields[i].value, d.fields[i].value))
       case ArrayT(_, elems) =>
         d.ArrayT? && |d.elems| == |elems| && forall i :: 0 <= i < |elems| ==> Matches(elems[i], d.elems[i])
       case Unread(v) => ReplacedWhole(v, d)
  }

  /** The decoded tree is unfolded everywhere but in excluded fields, so it is finite and acyclic. */
  ghost predicate Readable(d: Tree)
    decreases d
  {
    match d
    case PointerT(_, Some(cell)) => Readable(cell.content)
    case InterfaceT(_, Some(inner)) => Readable(inner)
    case StructT(_, fields) => forall i :: 0 <= i < |fields| ==> fields[i].excluded || Readable(fields[i].value)
    case ArrayT(_, elems) => forall i :: 0 <= i < |elems| ==> Readable(elems[i])
    case Unread(_) => false
    case _ => true
  }

  /** The merge: pointers, arrays, structs and interfaces of one concrete type are entered, the rest is replaced. */
  ghost function Merge(t: Tree, d: Tree): (r: Tree)
    requires Matches(t, d)
    ensures TypeOf(r) == TypeOf(d)
    decreases t
  {
    match t
    case InterfaceT(typ, Some(inner)) =>
      if d.inner.Some? && TypeOf(inner) == TypeOf(d.inner.value)
      then InterfaceT(typ, Some(Merge(inner, d.inner.value)))
      else d
    case PointerT(typ, Some(Cell(a, content))) =>
      if d.cell.Some? then PointerT(typ, Some(Cell(a, Merge(content, d.cell.value.content)))) else d
    case StructT(typ, fields) => StructT(typ, seq(|fields|, i requires 0 <= i < |fields| =>
        if fields[i].excluded then fields[i] else fields[i].(value := Merge(fields[i].value, d.fields[i].value))))
    case ArrayT(typ, elems) => ArrayT(typ, seq(|elems|, i requires 0 <= i < |elems| => Merge(elems[i], d.elems[i])))
    case _ => d
  }

  /** Everything that is configuration is equal; excluded fields are not looked at, nor are addresses. */
  ghost predicate SameConfig(t: Tree, d: Tree)
    decreases t
  {
    match t
    case ScalarT(_, _) => d == t
    case CollectionT(_, _) => d == t
    case PointerT(typ, None) => d == t
    case PointerT(typ, Some(Cell(_, content))) =>
      d.PointerT? && d.typ == typ && d.cell.Some? && SameConfig(content, d.cell.value.content)
    case InterfaceT(typ, None) => d == t
    case InterfaceT(typ, Some(inner)) =>
      d.InterfaceT? && d.typ == typ && d.inner.Some? && SameConfig(inner, d.inner.value)
    case StructT(typ, fields) =>
      && d.StructT? && d.typ == typ && |d.fields| == |fields|
      && forall i :: 0 <= i < |fields| ==>
           && d.fields[i].excluded == fields[i].excluded
           && (fields[i].excluded || SameConfig(fields[i].value, d.fields[i].value))
    case ArrayT(typ, elems) =>
      && d.ArrayT? && d.typ == typ && |d.elems| == |elems|
      && forall i :: 0 <= i < |elems| ==> SameConfig(elems[i], d.elems[i])
    case Unread(_) => d == t
  }

  /** Along every path that is merged in place, r has the excluded fields and the addresses of t. */
  ghost predicate KeepsRuntimeState(t: Tree, d: Tree, r: Tree)
    requires Matches(t, d)
    decreases t
  {
    match t
    case PointerT(_, Some(Cell(a, content))) =>
      d.cell.Some? ==>
        && r.PointerT? && r.cell.Some? && r.cell.value.address == a
        && KeepsRuntimeState(content, d.cell.value.content, r.cell.value.content)
    case InterfaceT(_, Some(inner)) =>
      d.inner.Some? && TypeOf(inner) == TypeOf(d.inner.value) ==>
        r.InterfaceT? && r.inner.Some? && KeepsRuntimeState(inner, d.inner.value, r.inner.value)
    case StructT(_, fields) =>
      && r.StructT? && |r.fields| == |fields|
      && forall i :: 0 <= i < |fields| ==>
           if fields[i].excluded then r.fields[i] == fields[i]
           else KeepsRuntimeState(fields[i].value, d.fields[i].value, r.fields[i].value)
    case ArrayT(_, elems) =>
      && r.ArrayT? && |r.elems| == |elems|
      && forall i :: 0 <= i < |elems| ==> KeepsRuntimeState(elems[i], d.elems[i], r.elems[i])
    case _ => true
  }

  lemma {:induction false} SameAsItself(t: Tree)
    requires Readable(t)
    ensures SameConfig(t, t) && Matches(t, t)
    decreases t
  {
    match t
    case PointerT(_, Some(cell)) => SameAsItself(cell.content);
    case InterfaceT(_, Some(inner)) => SameAsItself(inner);
    case StructT(_, fields) =>
      forall i | 0 <= i < |fields| && !fields[i].excluded
        ensures SameConfig(fields[i].value, fields[i].value) && Matches(fields[i].value, fields[i].value)
      {
        SameAsItself(fields[i].value);
      }
    case ArrayT(_, elems) =>
      forall i | 0 <= i < |elems|
        ensures SameConfig(elems[i], elems[i]) && Matches(elems[i], elems[i])
      {
        SameAsItself(elems[i]);
      }
    case _ =>
  }

  /** Whatever was live before, every configuration-visible position ends up as decoded. */
  lemma {:induction false} MergeTakesConfig(t: Tree, d: Tree)
    requires Matches(t, d) && Readable(d)
    ensures SameConfig(Merge(t, d), d)
    decreases t
  {
    SameAsItself(d);
    match t
    case PointerT(_, Some(cell)) =>
      if d.cell.Some? { MergeTakesConfig(cell.content, d.cell.value.content); }
    case InterfaceT(_, Some(inner)) =>
      if d.inner.Some? && TypeOf(inner) == TypeOf(d.inner.value) { MergeTakesConfig(inner, d.inner.value); }
    case StructT(_, fields) =>
      var r := Merge(t, d);
      forall i | 0 <= i < |fields|
        ensures r.fields[i].excluded == d.fields[i].excluded
        ensures r.fields[i].excluded || SameConfig(r.fields[i].value, d.fields[i].value)
      {
        if !fields[i].excluded { MergeTakesConfig(fields[i].value, d.fields[i].value); }
      }
    case ArrayT(_, elems) =>
      forall i | 0 <= i < |elems|
        ensures SameConfig(Merge(elems[i], d.elems[i]), d.elems[i])
      {
        MergeTakesConfig(elems[i], d.elems[i]);
      }
    case _ =>
  }

  lemma {:induction false} MergeKeepsRuntimeState(t: Tree, d: Tree)
    requires Matches(t, d)
    ensures KeepsRuntimeState(t, d, Merge(t, d))
    decreases t
  {
    match t
    case PointerT(_, Some(cell)) =>
      if d.cell.Some? { MergeKeepsRuntimeState(cell.content, d.cell.value.content); }
    case InterfaceT(_, Some(inner)) =>
      if d.inner.Some? && TypeOf(inner) == TypeOf(d.inner.value) { MergeKeepsRuntimeState(inner, d.inner.value); }
    case StructT(_, fields) =>
      var r := Merge(t, d);
      forall i | 0 <= i < |fields|
        ensures if fields[i].excluded then r.fields[i] == fields[i]
          else KeepsRuntimeState(fields[i].value, d.fields[i].value, r.fields[i].value)
      {
        if !fields[i].excluded { MergeKeepsRuntimeState(fields[i].value, d.fields[i].value); }
      }
    case ArrayT(_, elems) =>
      forall i | 0 <= i < |elems|
        ensures KeepsRuntimeState(elems[i], d.elems[i], Merge(elems[i], d.elems[i]))
      {
        MergeKeepsRuntimeState(elems[i], d.elems[i]);
      }
    case _ =>
  }

  lemma {:induction false} SameConfigChains(a: Tree, b: Tree, c: Tree)
    requires SameConfig(a, b) && SameConfig(b, c)
    ensures SameConfig(a, c)
    decreases a
  {
    match a
    case PointerT(_, Some(cell)) => SameConfigChains(cell.content, b.cell.value.content, c.cell.value.content);
    case InterfaceT(_, Some(inner)) => SameConfigChains(inner, b.inner.value, c.inner.value);
    case StructT(_, fields) =>
      forall i | 0 <= i < |fields| && !fields[i].excluded
        ensures SameConfig(fields[i].value, c.fields[i].value)
      {
        SameConfigChains(fields[i].value, b.fields[i].value, c.fields[i].value);
      }
    case ArrayT(_, elems) =>
      forall i | 0 <= i < |elems|
        ensures SameConfig(elems[i], c.elems[i])
      {
        SameConfigChains(elems[i], b.elems[i], c.elems[i]);
      }
    case _ =>
  }

  /** A configuration equal to the live one changes nothing, wherever it is stored. */
  lemma {:induction false} EqualChangesNothing(t: Tree, d: Tree)
    requires Matches(t, d) && SameConfig(t, d)
    ensures Merge(t, d) == t
    decreases t
  {
    match t
    case PointerT(_, Some(cell)) => EqualChangesNothing(cell.content, d.cell.value.content);
    case InterfaceT(_, Some(inner)) => EqualChangesNothing(inner, d.inner.value);
    case StructT(_, fields) =>
      forall i | 0 <= i < |fields| && !fields[i].excluded
        ensures Merge(fields[i].value, d.fields[i].value) == fields[i].value
      {
        EqualChangesNothing(fields[i].value, d.fields[i].value);
      }
      assert Merge(t, d).fields == fields;
    case ArrayT(_, elems) =>
      forall i | 0 <= i < |elems|
        ensures Merge(elems[i], d.elems[i]) == elems[i]
      {
        EqualChangesNothing(elems[i], d.elems[i]);
      }
      assert Merge(t, d).elems == elems;
    case _ =>
  }

  /** What fits the live object and the decoded one fits the result of their merge. */
  lemma {:induction false} MergeMatches(t: Tree, d: Tree, e: Tree)
    requires Matches(t, d) && Matches(t, e) && Matches(d, e)
    ensures Matches(Merge(t, d), e)
    decreases t
  {
    match t
    case PointerT(_, Some(cell)) =>
      if d.cell.Some? && e.cell.Some? { MergeMatches(cell.content, d.cell.value.content, e.cell.value.content); }
    case InterfaceT(_, Some(inner)) =>
      if d.inner.Some? && e.inner.Some? && TypeOf(inner) == TypeOf(d.inner.value) == TypeOf(e.inner.value) {
        MergeMatches(inner, d.inner.value, e.inner.value);
      }
    case StructT(_, fields) =>
      forall i | 0 <= i < |fields| && !fields[i].excluded
        ensures Matches(Merge(fields[i].value, d.fields[i].value), e.fields[i].value)
      {
        MergeMatches(fields[i].value, d.fields[i].value, e.fields[i].value);
      }
    case ArrayT(_, elems) =>
      forall i | 0 <= i < |elems|
        ensures Matches(Merge(elems[i], d.elems[i]), e.elems[i])
      {
        MergeMatches(elems[i], d.elems[i], e.elems[i]);
      }
    case _ =>
  }

  lemma {:induction false} MatchesEqual(t: Tree, d: Tree, e: Tree)
    requires Matches(t, d) && Matches(d, e) && SameConfig(d, e)
    ensures Matches(t, e)
    decreases t
  {
    match t
    case PointerT(_, Some(cell)) =>
      if d.cell.Some? { MatchesEqual(cell.content, d.cell.value.content, e.cell.value.content); }
    case InterfaceT(_, Some(inner)) =>
      if d.inner.Some? && TypeOf(inner) == TypeOf(d.inner.value) { MatchesEqual(inner, d.inner.value, e.inner.value); }
    case StructT(_, fields) =>
      forall i | 0 <= i < |fields| && !fields[i].excluded
        ensures Matches(fields[i].value, e.fields[i].value)
      {
        MatchesEqual(fields[i].value, d.fields[i].value, e.fields[i].value);
      }
    case ArrayT(_, elems) =>
      forall i | 0 <= i < |elems|
        ensures Matches(elems[i], e.elems[i])
      {
        MatchesEqual(elems[i], d.elems[i], e.elems[i]);
      }
    case _ =>
  }

  /** Merging an equal configuration a second time changes nothing: the same one, or one decoded afresh. */
  lemma MergeIsIdempotent(t: Tree, d: Tree, e: Tree)
    requires Matches(t, d) && Readable(d) && Matches(d, e) && SameConfig(d, e)
    ensures Matches(Merge(t, d), e)
    ensures Merge(Merge(t, d), e) == Merge(t, d)
  {
    MatchesEqual(t, d, e);
    MergeTakesConfig(t, d);
    SameConfigChains(Merge(t, d), d, e);
    MergeMatches(t, d, e);
    EqualChangesNothing(Merge(t, d), e);
  }

  lemma {:induction false} ReadableIfItself(d: Tree)
    requires Matches(d, d)
    ensures Readable(d)
    decreases d
  {
    match d
    case PointerT(_, Some(cell)) => ReadableIfItself(cell.content);
    case InterfaceT(_, Some(inner)) => ReadableIfItself(inner);
    case StructT(_, fields) =>
      forall i | 0 <= i < |fields| && !fields[i].excluded
        ensures Readable(fields[i].value)
      {
        ReadableIfItself(fields[i].value);
      }
    case ArrayT(_, elems) =>
      forall i | 0 <= i < |elems|
        ensures Readable(elems[i])
      {
        ReadableIfItself(elems[i]);
      }
    case _ =>
  }

  lemma MergeWithItself(d: Tree)
    requires Matches(d, d)
    ensures Merge(d, d) == d
  {
    ReadableIfItself(d);
    SameAsItself(d);
    EqualChangesNothing(d, d);
  }
}
