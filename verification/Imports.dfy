/** Collecting a protobuf file and everything it imports, into a map shared between calls. */
module Imports {
  import opened Text

  type Path = string

  /** Stands for the FileDescriptorProto made from a registered file. */
  datatype Descriptor = Descriptor(path: Path)

  /** The registered files, with what each imports; an import may have no descriptor. */
  type Files = map<Path, seq<Option<Path>>>

  datatype LookupError = WrongKindOfName | MapIsNil | NotFound

  predicate Imports(files: Files, p: Path, q: Path)
  {
    p in files && Some(q) in files[p]
  }

  /** Imports lead to registered files. */
  ghost predicate Registered(files: Files)
  {
    forall p, q :: Imports(files, p, q) ==> q in files
  }

  /** Each step of the path is an import, and no file on it was in the map already. */
  ghost predicate NewPath(files: Files, old_: set<Path>, path: seq<Path>)
  {
    && |path| >= 1
    && (forall i :: 0 <= i < |path| ==> path[i] !in old_)
    && (forall i :: 0 <= i < |path| - 1 ==> Imports(files, path[i], path[i + 1]))
  }

  /** A file reached from another without passing through the old entries. */
  ghost predicate NewlyReachable(files: Files, old_: set<Path>, from: Path, to: Path)
  {
    exists path :: NewPath(files, old_, path) && path[0] == from && path[|path| - 1] == to
  }

  /** The files are closed under imports, up to the larger set. */
  ghost predicate ImportsWithin(files: Files, inner: set<Path>, outer: set<Path>)
  {
    forall p, q :: p in inner && Imports(files, p, q) ==> q in outer
  }

  ghost predicate OwnDescriptors(descs: map<Path, Descriptor>)
  {
    forall p :: p in descs ==> descs[p] == Descriptor(p)
  }

  lemma ReachSelf(files: Files, old_: set<Path>, p: Path)
    requires p !in old_
    ensures NewlyReachable(files, old_, p, p)
  {
    assert NewPath(files, old_, [p]) && [p][0] == p && [p][|[p]| - 1] == p;
  }

  lemma ReachThrough(files: Files, old_: set<Path>, middle: set<Path>, p: Path, q: Path, r: Path)
    requires p !in old_ && Imports(files, p, q) && old_ <= middle && NewlyReachable(files, middle, q, r)
    ensures NewlyReachable(files, old_, p, r)
  {
    var path :| NewPath(files, middle, path) && path[0] == q && path[|path| - 1] == r;
    var longer := [p] + path;
    assert forall i :: 0 < i < |longer| ==> longer[i] == path[i - 1];
    assert NewPath(files, old_, longer) && longer[0] == p && longer[|longer| - 1] == r;
  }

  /** If the new entries import only what is in the map, nothing newly reachable is missing. */
  lemma {:induction false} PathStaysIn(files: Files, old_: set<Path>, all: set<Path>, path: seq<Path>, i: nat)
    requires NewPath(files, old_, path) && path[0] in all && ImportsWithin(files, all - old_, all) && i < |path|
    ensures path[i] in all
  {
    if i > 0 {
      PathStaysIn(files, old_, all, path, i - 1);
      assert Imports(files, path[i - 1], path[i]);
    }
  }

  /** The map after a call: the old entries and the newly reachable files, no more and no fewer. */
  ghost predicate Collected(files: Files, before: map<Path, Descriptor>, after: map<Path, Descriptor>, p: Path)
  {
    && (forall q :: q in before ==> q in after && after[q] == before[q])
    && (forall q :: q in after && q !in before ==> after[q] == Descriptor(q))
    && (forall q :: q in after <==> q in before || NewlyReachable(files, before.Keys, p, q))
  }

  class DescriptorMap {
    var descs: map<Path, Descriptor>

    constructor ()
      ensures descs == map[]
    {
      descs := map[];
    }

    method RecursionImports(files: Files, file: Path)
      requires Registered(files) && file in files
      modifies this
      ensures Outcome(files, old(descs), descs, file)
      decreases files.Keys - descs.Keys, 2
    {
      if file in descs {
        NothingNew(files, descs, file);
        return;
      }
      Start(files, descs, file);
      ghost var before := descs;
      descs := descs[file := Descriptor(file)];
      CollectImports(files, file, before);
    }

    method CollectImports(files: Files, file: Path, ghost before: map<Path, Descriptor>)
      requires Registered(files) && file in files && Growing(files, before, descs, file)
      modifies this
      ensures Outcome(files, before, descs, file)
      decreases files.Keys - before.Keys, 1
    {
      var i := 0;
      while i < |files[file]|
        invariant 0 <= i <= |files[file]|
        invariant Growing(files, before, descs, file) && Covered(files[file], i, descs)
      {
        if files[file][i].Some? {
          CollectOne(files, file, files[file][i].value, before);
        }
        i := i + 1;
      }
      Complete(files, before, descs, file);
    }

    method CollectOne(files: Files, file: Path, imported: Path, ghost before: map<Path, Descriptor>)
      requires Registered(files) && Imports(files, file, imported) && Growing(files, before, descs, file)
      modifies this
      ensures Growing(files, before, descs, file) && imported in descs
      ensures forall q :: q in old(descs) ==> q in descs
      decreases files.Keys - before.Keys, 0
    {
      ghost var middle := descs;
      Fewer(files, before, middle, file);
      RecursionImports(files, imported);
      Grown(files, before, middle, descs, file, imported);
    }
  }

  predicate IsProtoFile(name: string)
  {
    |name| >= 6 && name[|name| - 6..] == ".proto"
  }

  /** ProtoFileDescriptors: by registered path, into a map that may be nil. */
  method ProtoFileDescriptors(files: Files, name: string, collected: DescriptorMap?) returns (err: Option<LookupError>)
    requires Registered(files)
    modifies collected
    ensures err == (if !IsProtoFile(name) then Some(WrongKindOfName) else if collected == null then Some(MapIsNil)
                    else if name !in files then Some(NotFound) else None)
    ensures err.Some? && collected != null ==> collected.descs == old(collected.descs)
    ensures err.None? ==> Outcome(files, old(collected.descs), collected.descs, name)
  {
    if !IsProtoFile(name) {
      return Some(WrongKindOfName);
    }
    if collected == null {
      return Some(MapIsNil);
    }
    if name !in files {
      return Some(NotFound);
    }
    collected.RecursionImports(files, name);
    return None;
  }

  /** ProtoDescriptors: by message name, through the file that declares the message, which may have no descriptor. */
  method ProtoDescriptors(files: Files, messages: map<string, Option<Path>>, name: string, collected: DescriptorMap?)
    returns (err: Option<LookupError>)
    requires Registered(files) && forall m :: m in messages && messages[m].Some? ==> messages[m].value in files
    modifies collected
    ensures err == (if IsProtoFile(name) then Some(WrongKindOfName) else if collected == null then Some(MapIsNil)
                    else if name !in messages then Some(NotFound)
                    else if messages[name].None? then Some(WrongKindOfName) else None)
    ensures err.Some? && collected != null ==> collected.descs == old(collected.descs)
    ensures err.None? ==> Outcome(files, old(collected.descs), collected.descs, messages[name].value)
  {
    if IsProtoFile(name) {
      return Some(WrongKindOfName);
    }
    if collected == null {
      return Some(MapIsNil);
    }
    if name !in messages {
      return Some(NotFound);
    }
    if messages[name].None? {
      return Some(WrongKindOfName);
    }
    collected.RecursionImports(files, messages[name].value);
    return None;
  }

  ghost predicate Outcome(files: Files, before: map<Path, Descriptor>, after: map<Path, Descriptor>, file: Path)
  {
    && file in after && Collected(files, before, after, file)
    && ImportsWithin(files, after.Keys - before.Keys, after.Keys)
  }

  predicate Covered(imports: seq<Option<Path>>, n: nat, descs: map<Path, Descriptor>)
    requires n <= |imports|
  {
    forall j :: 0 <= j < n && imports[j].Some? ==> imports[j].value in descs
  }

  lemma NothingNew(files: Files, descs: map<Path, Descriptor>, file: Path)
    requires file in descs
    ensures Outcome(files, descs, descs, file)
  {
    NoNewPath(files, descs.Keys, file);
  }

  lemma Start(files: Files, descs: map<Path, Descriptor>, file: Path)
    requires file !in descs
    ensures Growing(files, descs, descs[file := Descriptor(file)], file)
  {
    ReachSelf(files, descs.Keys, file);
  }

  lemma Fewer(files: Files, before: map<Path, Descriptor>, descs: map<Path, Descriptor>, file: Path)
    requires file in files && Growing(files, before, descs, file)
    ensures files.Keys - descs.Keys < files.Keys - before.Keys
  {
    assert file in files.Keys - before.Keys && file !in files.Keys - descs.Keys;
  }

  lemma NoNewPath(files: Files, old_: set<Path>, p: Path)
    requires p in old_
    ensures forall q :: !NewlyReachable(files, old_, p, q)
  {
  }

  /** In the middle of a call for `file`: every other new entry is complete, and all are reachable. */
  ghost predicate Growing(files: Files, before: map<Path, Descriptor>, descs: map<Path, Descriptor>, file: Path)
  {
    && file !in before && file in descs
    && (forall q :: q in before ==> q in descs && descs[q] == before[q])
    && (forall q :: q in descs && q !in before ==>
      descs[q] == Descriptor(q) && NewlyReachable(files, before.Keys, file, q))
    && ImportsWithin(files, descs.Keys - before.Keys - {file}, descs.Keys)
  }

  lemma Grown(
    files: Files, before: map<Path, Descriptor>, middle: map<Path, Descriptor>, after: map<Path, Descriptor>,
    file: Path, imported: Path)
    requires Growing(files, before, middle, file) && Imports(files, file, imported)
    requires Outcome(files, middle, after, imported)
    ensures Growing(files, before, after, file) && imported in after
    ensures forall q :: q in middle ==> q in after
  {
    forall q | q in after && q !in before
      ensures after[q] == Descriptor(q) && NewlyReachable(files, before.Keys, file, q)
    {
      if q !in middle { ReachThrough(files, before.Keys, middle.Keys, file, imported, q); }
    }
  }

  lemma Complete(files: Files, before: map<Path, Descriptor>, after: map<Path, Descriptor>, file: Path)
    requires file in files && Growing(files, before, after, file)
    requires Covered(files[file], |files[file]|, after)
    ensures Outcome(files, before, after, file)
  {
    forall q | NewlyReachable(files, before.Keys, file, q)
      ensures q in after
    {
      var path :| NewPath(files, before.Keys, path) && path[0] == file && path[|path| - 1] == q;
      PathStaysIn(files, before.Keys, after.Keys, path, |path| - 1);
    }
  }

  // A map that was closed before

  /** Reachable through any imports at all. */
  ghost predicate Reachable(files: Files, from: Path, to: Path)
  {
    NewlyReachable(files, {}, from, to)
  }

  /** On a map closed under imports a call adds exactly the reachable files, and the map is closed again. */
  lemma ClosedStaysClosed(files: Files, before: map<Path, Descriptor>, after: map<Path, Descriptor>, file: Path)
    requires ImportsWithin(files, before.Keys, before.Keys) && Outcome(files, before, after, file)
    ensures ImportsWithin(files, after.Keys, after.Keys)
    ensures forall q :: q in after <==> q in before || Reachable(files, file, q)
    ensures OwnDescriptors(before) ==> OwnDescriptors(after)
  {
    forall q | q in after
      ensures q in before || Reachable(files, file, q)
    {
      if q !in before {
        var path :| NewPath(files, before.Keys, path) && path[0] == file && path[|path| - 1] == q;
        assert NewPath(files, {}, path);
      }
    }
    forall q | Reachable(files, file, q)
      ensures q in after
    {
      var path :| NewPath(files, {}, path) && path[0] == file && path[|path| - 1] == q;
      PathStaysIn(files, {}, after.Keys, path, |path| - 1);
    }
  }

  /** Whatever file is asked for, everything reachable from it ends up in the map. */
  ghost predicate AlwaysComplete(files: Files, before: map<Path, Descriptor>)
  {
    forall file, after, q ::
      file in files && Outcome(files, before, after, file) && Reachable(files, file, q) ==> q in after
  }

  /**
   The walk stops at entries that are there already, so it collects everything reachable, for
   every file asked for, if and only if the map was closed under imports before.
   */
  lemma CompleteExactly(files: Files, before: map<Path, Descriptor>)
    ensures AlwaysComplete(files, before) <==> ImportsWithin(files, before.Keys, before.Keys)
  {
    if ImportsWithin(files, before.Keys, before.Keys) {
      forall file, after, q | file in files && Outcome(files, before, after, file) && Reachable(files, file, q)
        ensures q in after
      {
        ClosedStaysClosed(files, before, after, file);
      }
    } else {
      var p, q :| p in before.Keys && Imports(files, p, q) && q !in before.Keys;
      NothingNew(files, before, p);
      assert NewPath(files, {}, [p, q]) && [p, q][|[p, q]| - 1] == q;
      assert Reachable(files, p, q);
    }
  }

  /** The maps after each of a sequence of successful top-level calls. */
  ghost predicate IsRun(files: Files, maps: seq<map<Path, Descriptor>>, roots: seq<Path>)
  {
    && |maps| == |roots| + 1 && maps[0] == map[]
    && forall i :: 0 <= i < |roots| ==> Outcome(files, maps[i], maps[i + 1], roots[i])
  }

  /** The map holds exactly what can be reached from the roots, each file under its own descriptor. */
  ghost predicate HoldsReachable(files: Files, descs: map<Path, Descriptor>, roots: seq<Path>)
  {
    && ImportsWithin(files, descs.Keys, descs.Keys) && OwnDescriptors(descs)
    && forall q :: q in descs <==> FromSome(files, roots, q)
  }

  ghost predicate FromSome(files: Files, roots: seq<Path>, q: Path)
  {
    exists i :: 0 <= i < |roots| && Reachable(files, roots[i], q)
  }

  lemma OneMoreRoot(
    files: Files, before: map<Path, Descriptor>, after: map<Path, Descriptor>, roots: seq<Path>, root: Path)
    requires HoldsReachable(files, before, roots) && Outcome(files, before, after, root)
    ensures HoldsReachable(files, after, roots + [root])
  {
    ClosedStaysClosed(files, before, after, root);
    forall q
      ensures q in after <==> FromSome(files, roots + [root], q)
    {
      RootAdds(files, roots, root, q);
    }
  }

  lemma RootAdds(files: Files, roots: seq<Path>, root: Path, q: Path)
    ensures FromSome(files, roots + [root], q) <==> FromSome(files, roots, q) || Reachable(files, root, q)
  {
    var more := roots + [root];
    if FromSome(files, roots, q) {
      var i :| 0 <= i < |roots| && Reachable(files, roots[i], q);
      assert more[i] == roots[i];
    }
    if Reachable(files, root, q) {
      assert more[|roots|] == root;
    }
  }

  /** A map that only ever went through these calls holds exactly what can be reached from the files asked for. */
  lemma {:induction false} RunsCollectReachable(
    files: Files, maps: seq<map<Path, Descriptor>>, roots: seq<Path>, n: nat)
    requires IsRun(files, maps, roots) && n <= |roots|
    ensures HoldsReachable(files, maps[n], roots[..n])
  {
    if n > 0 {
      RunsCollectReachable(files, maps, roots, n - 1);
      assert Outcome(files, maps[n - 1], maps[n - 1 + 1], roots[n - 1]);
      OneMoreRoot(files, maps[n - 1], maps[n], roots[..n - 1], roots[n - 1]);
      assert roots[..n] == roots[..n - 1] + [roots[n - 1]];
    }
  }
}
