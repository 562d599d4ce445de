/** Reloading a live object again and again, each time from a configuration decoded into fresh storage. */
module ConfigReload {
  import opened Text
  import opened ConfigValues
  import opened ConfigApply
  import opened ConfigStore

  // One merge after another

  /** The merge shares no storage between two of its paths. */
  lemma {:induction false} MergeUnshared(t: Tree, d: Tree)
    requires Matches(t, d) && Unshared(t) && Unshared(d) && Addresses(t) !! Addresses(d)
    ensures Unshared(Merge(t, d))
    decreases t
  {
    match t
    case PointerT(_, Some(cell)) =>
      if d.cell.Some? {
        MergeUnshared(cell.content, d.cell.value.content);
        MergeAddresses(cell.content, d.cell.value.content);
      }
    case InterfaceT(_, Some(inner)) =>
      if d.inner.Some? && TypeOf(inner) == TypeOf(d.inner.value) { MergeUnshared(inner, d.inner.value); }
    case StructT(_, fields) =>
      FieldsUnshared(t, d);
      forall i | 0 <= i < |fields| && !fields[i].excluded
        ensures Unshared(Merge(fields[i].value, d.fields[i].value))
      {
        FieldApart(t, d, i);
        MergeUnshared(fields[i].value, d.fields[i].value);
      }
    case ArrayT(_, elems) =>
      ElemsUnshared(t, d);
      forall i | 0 <= i < |elems|
        ensures Unshared(Merge(elems[i], d.elems[i]))
      {
        assert Addresses(elems[i]) <= Addresses(t) && Addresses(d.elems[i]) <= Addresses(d);
        MergeUnshared(elems[i], d.elems[i]);
      }
    case _ =>
  }

  lemma FieldApart(t: Tree, d: Tree, i: nat)
    requires t.StructT? && Matches(t, d) && Addresses(t) !! Addresses(d) && i < |t.fields|
    ensures Addresses(t.fields[i].value) !! Addresses(d.fields[i].value)
  {
    assert Addresses(t.fields[i].value) <= Addresses(t) && Addresses(d.fields[i].value) <= Addresses(d);
  }

  lemma FieldsUnshared(t: Tree, d: Tree)
    requires t.StructT? && Matches(t, d) && Unshared(t) && Unshared(d) && Addresses(t) !! Addresses(d)
    ensures var r := Merge(t, d);
      forall i, j :: 0 <= i < j < |r.fields| ==> Addresses(r.fields[i].value) !! Addresses(r.fields[j].value)
  {
    var r := Merge(t, d);
    forall i | 0 <= i < |r.fields|
      ensures Addresses(r.fields[i].value) <= Addresses(t.fields[i].value) + Addresses(d.fields[i].value)
    {
      if !t.fields[i].excluded { MergeAddresses(t.fields[i].value, d.fields[i].value); }
    }
    forall i, j | 0 <= i < |r.fields| && 0 <= j < |r.fields|
      ensures Addresses(t.fields[i].value) !! Addresses(d.fields[j].value)
    {
      assert Addresses(t.fields[i].value) <= Addresses(t) && Addresses(d.fields[j].value) <= Addresses(d);
    }
  }

  lemma ElemsUnshared(t: Tree, d: Tree)
    requires t.ArrayT? && Matches(t, d) && Unshared(t) && Unshared(d) && Addresses(t) !! Addresses(d)
    ensures var r := Merge(t, d);
      forall i, j :: 0 <= i < j < |r.elems| ==> Addresses(r.elems[i]) !! Addresses(r.elems[j])
  {
    var r := Merge(t, d);
    forall i | 0 <= i < |r.elems|
      ensures Addresses(r.elems[i]) <= Addresses(t.elems[i]) + Addresses(d.elems[i])
    {
      MergeAddresses(t.elems[i], d.elems[i]);
    }
    forall i, j | 0 <= i < |r.elems| && 0 <= j < |r.elems|
      ensures Addresses(t.elems[i]) !! Addresses(d.elems[j])
    {
      assert Addresses(t.elems[i]) <= Addresses(t) && Addresses(d.elems[j]) <= Addresses(d);
    }
  }

  /** What a second merge of the same value would enter and change is storage of the live object from before. */
  lemma {:induction false} ChangedAgain(t: Tree, d: Tree)
    requires Matches(t, d) && Readable(d) && Matches(Merge(t, d), d)
    ensures Changed(Merge(t, d), d) <= Addresses(t)
    decreases t
  {
    match t
    case PointerT(_, Some(cell)) =>
      if d.cell.Some? { ChangedAgain(cell.content, d.cell.value.content); }
    case InterfaceT(_, Some(inner)) =>
      if d.inner.Some? {
        if TypeOf(inner) == TypeOf(d.inner.value) { ChangedAgain(inner, d.inner.value); } else { ItselfUnchanged(d); }
      }
    case StructT(_, fields) =>
      forall i | 0 <= i < |fields| && !fields[i].excluded
        ensures Changed(Merge(fields[i].value, d.fields[i].value), d.fields[i].value) <= Addresses(t)
      {
        ChangedAgain(fields[i].value, d.fields[i].value);
        assert Addresses(fields[i].value) <= Addresses(t);
      }
    case ArrayT(_, elems) =>
      forall i | 0 <= i < |elems|
        ensures Changed(Merge(elems[i], d.elems[i]), d.elems[i]) <= Addresses(t)
      {
        ChangedAgain(elems[i], d.elems[i]);
        assert Addresses(elems[i]) <= Addresses(t);
      }
    case _ => ItselfUnchanged(d);
  }

  /** The same decoded value may be merged a second time, and that changes nothing. */
  lemma SecondMerge(t: Tree, d: Tree)
    requires Matches(t, d) && Readable(d) && Unshared(t) && Unshared(d) && Addresses(t) !! Addresses(d)
    ensures var r := Merge(t, d);
      Matches(r, d) && Unshared(r) && Changed(r, d) !! Addresses(d) && Merge(r, d) == r
  {
    SameAsItself(d);
    MergeIsIdempotent(t, d, d);
    MergeUnshared(t, d);
    ChangedAgain(t, d);
  }

  // Any number of merges

  ghost predicate FitsAt(r: Tree, ds: seq<Tree>, k: nat)
    requires k < |ds|
  {
    Matches(r, ds[k])
  }

  /** The decoded trees are all of the live tree's type. */
  ghost predicate Compatible(t: Tree, ds: seq<Tree>)
  {
    && (forall k :: 0 <= k < |ds| ==> FitsAt(t, ds, k))
    && (forall j, k :: 0 <= j < k < |ds| ==> FitsAt(ds[j], ds, k))
  }

  ghost function MergeAll(t: Tree, ds: seq<Tree>, n: nat): (r: Tree)
    requires Compatible(t, ds) && n <= |ds|
    ensures forall k :: n <= k < |ds| ==> FitsAt(r, ds, k)
    decreases n
  {
    if n == 0 then t
    else
      var r := MergeAll(t, ds, n - 1);
      assert FitsAt(r, ds, n - 1);
      MatchesLater(r, ds, n - 1);
      Merge(r, ds[n - 1])
  }

  lemma MatchesLater(r: Tree, ds: seq<Tree>, n: nat)
    requires n < |ds| && (forall k :: n <= k < |ds| ==> FitsAt(r, ds, k))
    requires (forall k :: n < k < |ds| ==> FitsAt(ds[n], ds, k))
    ensures Matches(r, ds[n]) && forall k :: n < k < |ds| ==> FitsAt(Merge(r, ds[n]), ds, k)
  {
    assert FitsAt(r, ds, n);
    forall k | n < k < |ds|
      ensures FitsAt(Merge(r, ds[n]), ds, k)
    {
      assert FitsAt(r, ds, k) && FitsAt(ds[n], ds, k);
      MergeMatches(r, ds[n], ds[k]);
    }
  }

  // Runtime state over any number of merges

  predicate AllEnter(ds: seq<Tree>)
  {
    forall k :: 0 <= k < |ds| ==> ds[k].PointerT? && ds[k].cell.Some?
  }

  predicate AllHold(ds: seq<Tree>, typ: string)
  {
    forall k :: 0 <= k < |ds| ==> ds[k].InterfaceT? && ds[k].inner.Some? && TypeOf(ds[k].inner.value) == typ
  }

  predicate AllStructs(ds: seq<Tree>, width: nat)
  {
    forall k :: 0 <= k < |ds| ==> ds[k].StructT? && |ds[k].fields| == width
  }

  predicate AllArrays(ds: seq<Tree>, width: nat)
  {
    forall k :: 0 <= k < |ds| ==> ds[k].ArrayT? && |ds[k].elems| == width
  }

  function Contents(ds: seq<Tree>): seq<Tree>
    requires AllEnter(ds)
  {
    seq(|ds|, k requires 0 <= k < |ds| => ds[k].cell.value.content)
  }

  function Inners(ds: seq<Tree>, typ: string): seq<Tree>
    requires AllHold(ds, typ)
  {
    seq(|ds|, k requires 0 <= k < |ds| => ds[k].inner.value)
  }

  function FieldsAt(ds: seq<Tree>, width: nat, i: nat): seq<Tree>
    requires AllStructs(ds, width) && i < width
  {
    seq(|ds|, k requires 0 <= k < |ds| => ds[k].fields[i].value)
  }

  function ElemsAt(ds: seq<Tree>, width: nat, i: nat): seq<Tree>
    requires AllArrays(ds, width) && i < width
  {
    seq(|ds|, k requires 0 <= k < |ds| => ds[k].elems[i])
  }

  /** Along every path that all the merges entered in place, r has the excluded fields and addresses t had at first. */
  ghost predicate KeptThrough(t: Tree, ds: seq<Tree>, r: Tree)
    decreases t
  {
    match t
    case PointerT(_, Some(cell)) =>
      AllEnter(ds) ==>
        && r.PointerT? && r.cell.Some? && r.cell.value.address == cell.address
        && KeptThrough(cell.content, Contents(ds), r.cell.value.content)
    case InterfaceT(_, Some(inner)) =>
      AllHold(ds, TypeOf(inner)) ==>
        && r.InterfaceT? && r.inner.Some? && TypeOf(r.inner.value) == TypeOf(inner)
        && KeptThrough(inner, Inners(ds, TypeOf(inner)), r.inner.value)
    case StructT(_, fields) =>
      AllStructs(ds, |fields|) ==>
        && r.StructT? && |r.fields| == |fields|
        && forall i :: 0 <= i < |fields| ==>
          && r.fields[i].excluded == fields[i].excluded
          && if fields[i].excluded then r.fields[i] == fields[i]
             else KeptThrough(fields[i].value, FieldsAt(ds, |fields|, i), r.fields[i].value)
    case ArrayT(_, elems) =>
      AllArrays(ds, |elems|) ==>
        && r.ArrayT? && |r.elems| == |elems|
        && forall i :: 0 <= i < |elems| ==> KeptThrough(elems[i], ElemsAt(ds, |elems|, i), r.elems[i])
    case _ => true
  }

  lemma {:induction false} KeptAtFirst(t: Tree)
    ensures KeptThrough(t, [], t)
    decreases t
  {
    match t
    case PointerT(_, Some(cell)) =>
      KeptAtFirst(cell.content);
      assert Contents([]) == [];
    case InterfaceT(_, Some(inner)) =>
      KeptAtFirst(inner);
      assert Inners([], TypeOf(inner)) == [];
    case StructT(_, fields) =>
      forall i | 0 <= i < |fields|
        ensures KeptThrough(fields[i].value, FieldsAt([], |fields|, i), fields[i].value)
      {
        KeptAtFirst(fields[i].value);
        assert FieldsAt([], |fields|, i) == [];
      }
    case ArrayT(_, elems) =>
      forall i | 0 <= i < |elems|
        ensures KeptThrough(elems[i], ElemsAt([], |elems|, i), elems[i])
      {
        KeptAtFirst(elems[i]);
        assert ElemsAt([], |elems|, i) == [];
      }
    case _ =>
  }

  /** One more merge keeps what the merges before it kept. */
  lemma {:induction false} KeptOnce(t: Tree, ds: seq<Tree>, r: Tree, d: Tree)
    requires KeptThrough(t, ds, r) && Matches(r, d)
    ensures KeptThrough(t, ds + [d], Merge(r, d))
    decreases t
  {
    var more := ds + [d];
    assert forall k :: 0 <= k < |ds| ==> more[k] == ds[k];
    assert more[|ds|] == d;
    match t
    case PointerT(_, Some(cell)) =>
      if AllEnter(more) {
        KeptOnce(cell.content, Contents(ds), r.cell.value.content, d.cell.value.content);
        assert Contents(more) == Contents(ds) + [d.cell.value.content];
      }
    case InterfaceT(_, Some(inner)) =>
      var typ := TypeOf(inner);
      if AllHold(more, typ) {
        KeptOnce(inner, Inners(ds, typ), r.inner.value, d.inner.value);
        assert Inners(more, typ) == Inners(ds, typ) + [d.inner.value];
      }
    case StructT(_, fields) =>
      if AllStructs(more, |fields|) { KeptFields(t, ds, r, d); }
    case ArrayT(_, elems) =>
      if AllArrays(more, |elems|) {
        forall i | 0 <= i < |elems|
          ensures KeptThrough(elems[i], ElemsAt(more, |elems|, i), Merge(r.elems[i], d.elems[i]))
        {
          KeptOnce(elems[i], ElemsAt(ds, |elems|, i), r.elems[i], d.elems[i]);
          assert ElemsAt(more, |elems|, i) == ElemsAt(ds, |elems|, i) + [d.elems[i]];
        }
      }
    case _ =>
  }

  lemma KeptFields(t: Tree, ds: seq<Tree>, r: Tree, d: Tree)
    requires t.StructT? && KeptThrough(t, ds, r) && Matches(r, d) && AllStructs(ds + [d], |t.fields|)
    requires AllStructs(ds, |t.fields|)
    ensures KeptThrough(t, ds + [d], Merge(r, d))
    decreases t, 0
  {
    var more, fields := ds + [d], t.fields;
    forall i | 0 <= i < |fields| && !fields[i].excluded
      ensures KeptThrough(fields[i].value, FieldsAt(more, |fields|, i), Merge(r.fields[i].value, d.fields[i].value))
    {
      KeptOnce(fields[i].value, FieldsAt(ds, |fields|, i), r.fields[i].value, d.fields[i].value);
      assert FieldsAt(more, |fields|, i) == FieldsAt(ds, |fields|, i) + [d.fields[i].value];
    }
  }

  /** After any number of reloads the live object has the last configuration and its runtime state from the start. */
  lemma {:induction false} ReloadsKeepAndTake(t: Tree, ds: seq<Tree>, n: nat)
    requires Compatible(t, ds) && n <= |ds| && forall k :: 0 <= k < |ds| ==> Readable(ds[k])
    ensures KeptThrough(t, ds[..n], MergeAll(t, ds, n))
    ensures n > 0 ==> SameConfig(MergeAll(t, ds, n), ds[n - 1])
  {
    if n == 0 {
      KeptAtFirst(t);
      assert ds[..0] == [];
    } else {
      ReloadsKeepAndTake(t, ds, n - 1);
      var r := MergeAll(t, ds, n - 1);
      assert FitsAt(r, ds, n - 1);
      MergeTakesConfig(r, ds[n - 1]);
      KeptOnce(t, ds[..n - 1], r, ds[n - 1]);
      assert ds[..n] == ds[..n - 1] + [ds[n - 1]];
    }
  }

  /** A document that says what the one before it said changes nothing. */
  lemma RepeatedDocument(t: Tree, ds: seq<Tree>, n: nat)
    requires Compatible(t, ds) && 0 < n < |ds| && forall k :: 0 <= k < |ds| ==> Readable(ds[k])
    requires SameConfig(ds[n - 1], ds[n])
    ensures SameConfig(MergeAll(t, ds, n), ds[n]) && MergeAll(t, ds, n + 1) == MergeAll(t, ds, n)
  {
    ReloadsKeepAndTake(t, ds, n);
    assert FitsAt(MergeAll(t, ds, n), ds, n);
    SameConfigChains(MergeAll(t, ds, n), ds[n - 1], ds[n]);
    EqualChangesNothing(MergeAll(t, ds, n), ds[n]);
  }

  // The heap over any number of reloads

  /** Storage a decoder filled, with the cell of the decoded object. */
  datatype Document = Document(storage: Heap, address: nat)

  ghost predicate Decodes(doc: Document, d: Tree)
  {
    && doc.address in doc.storage && Denotes(doc.storage, doc.storage[doc.address], d)
    && Readable(d) && Unshared(d) && doc.address !in Addresses(d)
  }

  /** The cell holds the live tree, none of it shared. */
  ghost predicate Live(heap: Heap, a: nat, t: Tree)
  {
    a in heap && Denotes(heap, heap[a], t) && Unshared(t) && a !in Addresses(t)
  }

  lemma {:induction false} AddressesInHeap(heap: Heap, v: Value, t: Tree)
    requires Denotes(heap, v, t)
    ensures Addresses(t) <= heap.Keys
  {
    DenotesDetermines(heap, v, heap, v, t);
  }

  lemma LiveStays(heap: Heap, storage: Heap, a: nat, t: Tree)
    requires Live(heap, a, t) && heap.Keys !! storage.Keys
    ensures Live(heap + storage, a, t)
  {
    DenotesFrame(heap, heap + storage, heap[a], t);
  }

  lemma DocumentStays(heap: Heap, doc: Document, d: Tree)
    requires Decodes(doc, d) && heap.Keys !! doc.storage.Keys
    ensures Live(heap + doc.storage, doc.address, d) && Addresses(d) <= doc.storage.Keys
  {
    AddressesInHeap(doc.storage, doc.storage[doc.address], d);
    DenotesFrame(doc.storage, heap + doc.storage, doc.storage[doc.address], d);
  }

  /**
   What reloadSnapshot does with one loader once its document has been decoded, or could not be.
   A loader without a usable pointer and a failed decoding leave everything as it was, and so does
   a configuration equal to the live one.
   */
  method ReloadLoader(config: LiveConfig, confStruct: Value, decoded: Option<nat>, ghost t: Tree, ghost d: Tree)
    returns (reloaded: bool)
    requires confStruct.Pointer? && confStruct.address.Some? && decoded.Some? ==>
      && Live(config.heap, confStruct.address.value, t) && Matches(t, d)
      && decoded.value in config.heap && Denotes(config.heap, config.heap[decoded.value], d) && Readable(d)
      && {confStruct.address.value} + Changed(t, d) !! {decoded.value} + Addresses(d)
    modifies config
    ensures reloaded <==> confStruct.Pointer? && confStruct.address.Some? && decoded.Some?
    ensures !reloaded ==> config.heap == old(config.heap)
    ensures reloaded ==>
      && Matches(t, d) && confStruct.address.value in config.heap
      && Denotes(config.heap, config.heap[confStruct.address.value], Merge(t, d)) && SameConfig(Merge(t, d), d)
      && OnlyChanged(old(config.heap), config.heap, {confStruct.address.value} + Changed(t, d))
    ensures reloaded && SameConfig(t, d) ==> config.heap == old(config.heap)
  {
    if !confStruct.Pointer? || confStruct.address.None? || decoded.None? {
      return false;
    }
    var a := confStruct.address.value;
    config.ApplyPointee(a, decoded.value, Cell(a, t), Cell(decoded.value, d));
    MergeTakesConfig(t, d);
    if SameConfig(t, d) {
      EqualChangesNothing(t, d);
      SameHeap(old(config.heap), config.heap, a, t, d);
    }
    return true;
  }

  lemma SameHeap(heap: Heap, heap': Heap, a: nat, t: Tree, d: Tree)
    requires Matches(t, d) && OnlyChanged(heap, heap', {a} + Changed(t, d)) && a in heap
    requires Denotes(heap, heap[a], t) && Denotes(heap', heap'[a], t)
    ensures heap == heap'
  {
    DenotesDetermines(heap, heap[a], heap', heap'[a], t);
  }

  /** How many of the first n documents could be decoded. */
  function Decoded(documents: seq<Option<Document>>, n: nat): nat
    requires n <= |documents|
  {
    if n == 0 then 0 else Decoded(documents, n - 1) + if documents[n - 1].Some? then 1 else 0
  }

  /** Every document that was decoded has a tree, and storage that nothing else has. */
  ghost predicate Fresh(heap: Heap, documents: seq<Option<Document>>, ds: seq<Tree>)
  {
    && |ds| == Decoded(documents, |documents|)
    && (forall i :: 0 <= i < |documents| && documents[i].Some? ==>
          && documents[i].value.storage.Keys !! heap.Keys
          && Decoded(documents, i) < |ds| && Decodes(documents[i].value, ds[Decoded(documents, i)]))
    && (forall i, j :: 0 <= i < j < |documents| && documents[i].Some? && documents[j].Some? ==>
          documents[i].value.storage.Keys !! documents[j].value.storage.Keys)
  }

  ghost predicate LaterApart(heap: Heap, documents: seq<Option<Document>>, i: nat)
  {
    forall j :: i <= j < |documents| && documents[j].Some? ==> documents[j].value.storage.Keys !! heap.Keys
  }

  /** Of what there was at first, only the live object has changed. */
  ghost predicate OnlyLiveChanged(first: Heap, heap: Heap, a: nat, t: Tree)
  {
    first.Keys <= heap.Keys && forall x :: x in first && x != a && x !in Addresses(t) ==> heap[x] == first[x]
  }

  /** Of the storage there was at first, the live object still uses only its own. */
  ghost predicate OwnStorage(first: Heap, t: Tree, r: Tree)
  {
    forall x :: x in Addresses(r) && x in first ==> x in Addresses(t)
  }

  /** One document: the decoder allocates, then the live object is merged in place. */
  method ReloadOne(
    config: LiveConfig, typ: string, a: nat, doc: Document, ghost r: Tree, ghost d: Tree, ghost first: Heap,
    ghost t: Tree)
    requires Live(config.heap, a, r) && Matches(r, d) && Decodes(doc, d) && doc.storage.Keys !! config.heap.Keys
    requires OnlyLiveChanged(first, config.heap, a, t) && OwnStorage(first, t, r)
    modifies config
    ensures Live(config.heap, a, Merge(r, d)) && config.heap.Keys == old(config.heap).Keys + doc.storage.Keys
    ensures OnlyLiveChanged(first, config.heap, a, t) && OwnStorage(first, t, Merge(r, d))
    ensures SameConfig(r, d) ==> config.heap == old(config.heap) + doc.storage
  {
    AddressesInHeap(config.heap, config.heap[a], r);
    LiveStays(config.heap, doc.storage, a, r);
    DocumentStays(config.heap, doc, d);
    config.heap := config.heap + doc.storage;
    var _ := ReloadLoader(config, Pointer(typ, Some(a)), Some(doc.address), r, d);
    MergeUnshared(r, d);
    MergeAddresses(r, d);
  }

  /** Some of the documents are done: the live object is the merge of those among them that could be decoded. */
  ghost predicate Midway(
    first: Heap, heap: Heap, a: nat, documents: seq<Option<Document>>, t: Tree, ds: seq<Tree>, i: nat)
    requires Compatible(t, ds)
  {
    && i <= |documents| && Decoded(documents, i) <= |ds|
    && Live(heap, a, MergeAll(t, ds, Decoded(documents, i))) && LaterApart(heap, documents, i)
    && OnlyLiveChanged(first, heap, a, t) && OwnStorage(first, t, MergeAll(t, ds, Decoded(documents, i)))
  }

  method ReloadNext(
    config: LiveConfig, typ: string, a: nat, documents: seq<Option<Document>>, i: nat, ghost t: Tree,
    ghost ds: seq<Tree>, ghost first: Heap)
    requires Compatible(t, ds) && Fresh(first, documents, ds) && i < |documents|
    requires Midway(first, config.heap, a, documents, t, ds, i)
    modifies config
    ensures Midway(first, config.heap, a, documents, t, ds, i + 1)
  {
    ghost var k := Decoded(documents, i);
    if documents[i].Some? {
      assert FitsAt(MergeAll(t, ds, k), ds, k);
      ReloadOne(config, typ, a, documents[i].value, MergeAll(t, ds, k), ds[k], first, t);
    }
  }

  /**
   Any number of reloads of one live object, some of which fail to decode: each finds what it
   requires, and in the end the live object is the merge of all that could be decoded. So it has
   the last configuration, and the runtime state it had at first along every path that all the
   reloads entered. Nothing else that was there at first has changed.
   */
  method ReloadAll(
    config: LiveConfig, typ: string, a: nat, documents: seq<Option<Document>>, ghost t: Tree, ghost ds: seq<Tree>)
    requires Live(config.heap, a, t) && Compatible(t, ds) && Fresh(config.heap, documents, ds)
    modifies config
    ensures Live(config.heap, a, MergeAll(t, ds, |ds|))
    ensures ds != [] ==> SameConfig(MergeAll(t, ds, |ds|), ds[|ds| - 1])
    ensures KeptThrough(t, ds, MergeAll(t, ds, |ds|))
    ensures OnlyLiveChanged(old(config.heap), config.heap, a, t)
  {
    ghost var first := config.heap;
    var i := 0;
    Begins(first, a, documents, t, ds);
    while i < |documents|
      invariant Midway(first, config.heap, a, documents, t, ds, i)
    {
      ReloadNext(config, typ, a, documents, i, t, ds, first);
      i := i + 1;
    }
    Ends(first, config.heap, a, documents, t, ds);
  }

  lemma Begins(first: Heap, a: nat, documents: seq<Option<Document>>, t: Tree, ds: seq<Tree>)
    requires Live(first, a, t) && Compatible(t, ds) && Fresh(first, documents, ds)
    ensures Midway(first, first, a, documents, t, ds, 0)
  {
  }

  lemma Ends(first: Heap, heap: Heap, a: nat, documents: seq<Option<Document>>, t: Tree, ds: seq<Tree>)
    requires Compatible(t, ds) && Fresh(first, documents, ds) && Midway(first, heap, a, documents, t, ds, |documents|)
    ensures Live(heap, a, MergeAll(t, ds, |ds|)) && OnlyLiveChanged(first, heap, a, t)
    ensures ds != [] ==> SameConfig(MergeAll(t, ds, |ds|), ds[|ds| - 1])
    ensures KeptThrough(t, ds, MergeAll(t, ds, |ds|))
  {
    AllReadable(documents, ds, |documents|, first);
    ReloadsKeepAndTake(t, ds, |ds|);
    assert ds[..|ds|] == ds;
  }

  lemma {:induction false} AllReadable(documents: seq<Option<Document>>, ds: seq<Tree>, n: nat, heap: Heap)
    requires Fresh(heap, documents, ds) && n <= |documents| && Decoded(documents, n) <= |ds|
    ensures forall k :: 0 <= k < Decoded(documents, n) ==> Readable(ds[k])
  {
    if n > 0 {
      AllReadable(documents, ds, n - 1, heap);
    }
  }
}
