/** Materialising a snapshot: preflight, four ordered passes into a private tree. */
module Restores {
  import opened Bytes
  import opened Digests
  import opened Snapshots
  import opened Sorting
  import opened Trees
  import opened Wrappers

  datatype FsError = Denied | NotFound | NotDirectory | AlreadyExists | Fault

  datatype RestoreError =
    | Structure(cause: StructureError)
    | FileTooLarge(path: Text, actual: nat, maximum: nat)
    | ObjectSizeMismatch(path: Text, expected: nat)
    | ObjectMissing(objectId: Digest)
    | FileSystem(fs: FsError)

  type Stored = map<Digest, Text>

  // ----- structure -----

  lemma {:induction false} SlashAt(path: Text, end: nat)
    requires end < |path| && path[end] == SLASH
    ensures Ancestor(path[..end], path)
  {
  }

  /** Accepts exactly the manifests whose paths stay distinct under case folding and whose parents are directories. */
  method ValidateManifest(fold: Fold, entries: seq<Entry>) returns (error: Option<StructureError>)
    requires Canonical(entries)
    ensures error.None? <==> FoldDistinct(fold, entries) && ParentsExist(entries)
    ensures error.Some? ==> match error.value
      case CaseFoldCollision(first, second) => first != second && fold(first) == fold(second) && Has(entries, first)
        && Has(entries, second)
      case MissingParent(path, parent) => Has(entries, path) && Ancestor(parent, path) && !Has(entries, parent)
      case ParentNotDirectory(path, parent) =>
        Has(entries, path) && Ancestor(parent, path) && Has(entries, parent) && !HasDirectory(entries, parent)
  {
    hide Less, Canonical, FoldDistinct;
    DistinctPaths(entries);
    error := CheckFolding(fold, entries);
    if error.Some? {
      return;
    }
    var byPath := IndexByPath(entries);
    for i := 0 to |entries|
      invariant forall j :: 0 <= j < i ==> ParentsOf(entries, entries[j].path)
    {
      error := CheckParents(entries, byPath, entries[i].path);
      if error.Some? {
        assert !ParentsOf(entries, entries[i].path);
        return;
      }
    }
    return None;
  }

  ghost predicate ParentsOf(entries: seq<Entry>, path: Text) {
    forall a :: Ancestor(a, path) ==> HasDirectory(entries, a)
  }

  /** Looks up the prefix before each slash. */
  method CheckParents(entries: seq<Entry>, byPath: map<Text, EntryKind>, path: Text)
    returns (error: Option<StructureError>)
    requires Indexed(entries, byPath)
    ensures error.None? <==> ParentsOf(entries, path)
    ensures error.Some? ==> match error.value
      case CaseFoldCollision(_, _) => false
      case MissingParent(p, parent) => p == path && Ancestor(parent, path) && !Has(entries, parent)
      case ParentNotDirectory(p, parent) =>
        p == path && Ancestor(parent, path) && Has(entries, parent) && !HasDirectory(entries, parent)
  {
    hide Has, HasDirectory, Indexed;
    for end := 0 to |path|
      invariant forall a :: Ancestor(a, path) && |a| < end ==> HasDirectory(entries, a)
    {
      if path[end] == SLASH {
        var parent := path[..end];
        SlashAt(path, end);
        LookedUp(entries, byPath, parent);
        if parent !in byPath {
          return Some(MissingParent(path, parent));
        }
        if !byPath[parent].Directory? {
          return Some(ParentNotDirectory(path, parent));
        }
      }
    }
    return None;
  }

  /** Paths are distinct, so a lookup by path finds the only entry with it. */
  ghost predicate Indexed(entries: seq<Entry>, byPath: map<Text, EntryKind>) {
    && (forall i :: 0 <= i < |entries| ==> entries[i].path in byPath && byPath[entries[i].path] == entries[i].kind)
    && forall p :: p in byPath ==> Has(entries, p)
  }

  lemma {:induction false} LookedUp(entries: seq<Entry>, byPath: map<Text, EntryKind>, path: Text)
    requires Indexed(entries, byPath)
    ensures path in byPath <==> Has(entries, path)
    ensures path in byPath ==> (byPath[path].Directory? <==> HasDirectory(entries, path))
    ensures HasDirectory(entries, path) ==> path in byPath
  {
  }

  lemma {:induction false} DistinctPaths(entries: seq<Entry>)
    requires Canonical(entries)
    ensures forall i, j :: 0 <= i < j < |entries| ==>
        entries[i].path != entries[j].path && Less(entries[i].path, entries[j].path)
  {
    hide Less;
    forall i, j | 0 <= i < j < |entries|
      ensures entries[i].path != entries[j].path && Less(entries[i].path, entries[j].path) {
      assert Less(Keys(PathOf(), entries)[i], Keys(PathOf(), entries)[j]);
      LessIrreflexive(entries[i].path);
    }
  }

  method IndexByPath(entries: seq<Entry>) returns (byPath: map<Text, EntryKind>)
    requires forall i, j :: 0 <= i < j < |entries| ==> entries[i].path != entries[j].path
    ensures Indexed(entries, byPath)
  {
    byPath := map[];
    for i := 0 to |entries|
      invariant forall j :: 0 <= j < i ==> entries[j].path in byPath && byPath[entries[j].path] == entries[j].kind
      invariant forall p :: p in byPath ==> Has(entries, p)
    {
      byPath := byPath[entries[i].path := entries[i].kind];
    }
  }

  method CheckFolding(fold: Fold, entries: seq<Entry>) returns (error: Option<StructureError>)
    requires forall i, j :: 0 <= i < j < |entries| ==> entries[i].path != entries[j].path
    ensures error.None? <==> FoldDistinct(fold, entries)
    ensures error.Some? ==> error.value.CaseFoldCollision? && error.value.first != error.value.second
    ensures error.Some? ==> fold(error.value.first) == fold(error.value.second)
    ensures error.Some? ==> Has(entries, error.value.first) && Has(entries, error.value.second)
  {
    var folded: map<Text, nat> := map[];
    for i := 0 to |entries|
      invariant forall j, k :: 0 <= j < k < i ==> fold(entries[j].path) != fold(entries[k].path)
      invariant forall j :: 0 <= j < i ==> fold(entries[j].path) in folded
      invariant forall key :: key in folded ==> folded[key] < i && fold(entries[folded[key]].path) == key
    {
      var key := fold(entries[i].path);
      if key in folded {
        return Some(CaseFoldCollision(entries[folded[key]].path, entries[i].path));
      }
      folded := folded[key := i];
    }
    return None;
  }

  // ----- objects -----

  /** A file whose object the store holds with the recorded size, within the limit. */
  predicate FileReady(entry: Entry, stored: Stored, maximum: nat) {
    entry.kind.File? ==>
      entry.kind.size <= maximum && entry.kind.objectId in stored && |stored[entry.kind.objectId]| == entry.kind.size
  }

  ghost predicate Ready(entries: seq<Entry>, stored: Stored, maximum: nat) {
    forall i :: 0 <= i < |entries| ==> FileReady(entries[i], stored, maximum)
  }

  /** Looks at every referenced object once, before anything is created. */
  method PreflightObjects(entries: seq<Entry>, stored: Stored, maximum: nat) returns (error: Option<RestoreError>)
    ensures error.None? <==> Ready(entries, stored, maximum)
    ensures error.None? <==>
      forall i :: 0 <= i < |entries| && entries[i].kind.File? ==>
        && entries[i].kind.objectId in stored
        && |stored[entries[i].kind.objectId]| == entries[i].kind.size <= maximum
  {
    var objects: map<Digest, nat> := map[];
    for i := 0 to |entries|
      invariant forall j :: 0 <= j < i && entries[j].kind.File? ==>
        entries[j].kind.size <= maximum && entries[j].kind.objectId in objects
          && objects[entries[j].kind.objectId] == entries[j].kind.size
      invariant forall id :: id in objects ==>
        exists j :: 0 <= j < i && entries[j].kind.File? && entries[j].kind.objectId == id
          && entries[j].kind.size == objects[id]
    {
      var entry := entries[i];
      if entry.kind.File? {
        if entry.kind.size > maximum {
          return Some(FileTooLarge(entry.path, entry.kind.size, maximum));
        }
        var id := entry.kind.objectId;
        if id in objects && objects[id] != entry.kind.size {
          return Some(ObjectSizeMismatch(entry.path, entry.kind.size));
        }
        objects := objects[id := entry.kind.size];
      }
    }
    var rest := objects.Keys;
    while rest != {}
      invariant rest <= objects.Keys
      invariant forall id :: id in objects && id !in rest ==> id in stored && |stored[id]| == objects[id]
      decreases rest
    {
      var id :| id in rest;
      if id !in stored || |stored[id]| != objects[id] {
        var j :| 0 <= j < |entries| && entries[j].kind.File? && entries[j].kind.objectId == id
          && entries[j].kind.size == objects[id];
        assert !FileReady(entries[j], stored, maximum);
        return Some(if id in stored then ObjectSizeMismatch(entries[j].path, objects[id]) else ObjectMissing(id));
      }
      rest := rest - {id};
    }
    return None;
  }

  // ----- the private tree -----

  /** A new name in a directory that can be reached and written. */
  ghost predicate CanCreate(nodes: Tree, path: Text) {
    && path !in nodes && Approachable(nodes, path)
    && (ParentOf(path) != [] ==>
      ParentOf(path) in nodes && nodes[ParentOf(path)].Dir? && OwnerWrites(nodes[ParentOf(path)].mode))
  }

  /** A directory that can be reached and opened. */
  ghost predicate CanFinish(nodes: Tree, path: Text) {
    Approachable(nodes, path) && path in nodes && nodes[path].Dir? && OwnerReads(nodes[path].mode)
  }

  /** The calls between two states of the schedule, none of which failed. */
  ghost predicate Unbroken(before: seq<bool>, after: seq<bool>) {
    |after| <= |before| && after == before[|before| - |after|..] && true !in before[..|before| - |after|]
  }

  lemma {:induction false} UnbrokenNone(faults: seq<bool>)
    ensures Unbroken(faults, faults)
  {
  }

  lemma {:induction false} UnbrokenTrans(a: seq<bool>, b: seq<bool>, c: seq<bool>)
    requires Unbroken(a, b) && Unbroken(b, c)
    ensures Unbroken(a, c)
  {
    var m, n := |a| - |b|, |b| - |c|;
    assert a[..m + n] == a[..m] + b[..n];
    assert a[m + n..] == b[n..];
  }

  /** The ancestors above position `end` can be walked through. */
  ghost predicate Within(nodes: Tree, path: Text, end: nat) {
    forall a :: Ancestor(a, path) && |a| < end ==> a in nodes && Passable(nodes[a])
  }

  lemma {:induction false} WithinNone(nodes: Tree, path: Text)
    ensures Within(nodes, path, 0) && (Within(nodes, path, |path|) <==> Approachable(nodes, path))
  {
  }

  lemma {:induction false} WithinNext(nodes: Tree, path: Text, end: nat)
    requires Within(nodes, path, end) && end < |path|
    ensures Within(nodes, path, end + 1) <==>
      (path[end] == SLASH ==> path[..end] in nodes && Passable(nodes[path[..end]]))
    ensures Approachable(nodes, path) ==> Within(nodes, path, end + 1)
    ensures path[..end] in nodes && Passable(nodes[path[..end]]) ==> nodes[path[..end]].Dir?
  {
    if path[end] == SLASH { SlashAt(path, end); }
    forall a | Ancestor(a, path) && |a| == end ensures a == path[..end] {}
  }

  class DirectoryRoot {
    var nodes: Tree
    /** Which of the coming system calls fail for reasons of their own. */
    var faults: seq<bool>
    /** The mode the platform gives to new symbolic links. */
    const linkMode: Permissions

    constructor (faults: seq<bool>, linkMode: Permissions)
      ensures nodes == map[] && this.faults == faults && this.linkMode == linkMode
    {
      nodes, this.faults, this.linkMode := map[], faults, linkMode;
    }

    method Call() returns (done: bool)
      modifies this`faults
      ensures done == (old(faults) == [] || !old(faults)[0])
      ensures faults == if old(faults) == [] then [] else old(faults)[1..]
      ensures !done ==> true in old(faults)
      ensures true in faults ==> true in old(faults)
      ensures done <==> Unbroken(old(faults), faults)
    {
      done := faults == [] || !faults[0];
      if faults != [] {
        faults := faults[1..];
      }
    }

    /** Opens one ancestor after the other, never following anything but directories. */
    method OpenParentBeneath(path: Text) returns (error: Option<FsError>)
      modifies this`faults
      ensures error.None? ==> Approachable(nodes, path)
      ensures Approachable(nodes, path) ==> error.None? || true in old(faults)
      ensures true in faults ==> true in old(faults)
      ensures error.None? ==> Unbroken(old(faults), faults)
    {
      hide Unbroken, Within, Approachable, Ancestor, Passable;
      UnbrokenNone(faults);
      WithinNone(nodes, path);
      for end := 0 to |path|
        invariant Within(nodes, path, end)
        invariant true in faults ==> true in old(faults)
        invariant Unbroken(old(faults), faults)
      {
        WithinNext(nodes, path, end);
        if path[end] == SLASH {
          var ancestor := path[..end];
          if ancestor !in nodes {
            return Some(NotFound);
          }
          if !nodes[ancestor].Dir? {
            return Some(NotDirectory);
          }
          if !Passable(nodes[ancestor]) {
            return Some(Denied);
          }
          ghost var before := faults;
          var done := Call();
          if !done {
            return Some(Fault);
          }
          UnbrokenTrans(old(faults), before, faults);
        }
      }
      return None;
    }

    /** The checks every creation makes in the directory it has opened. */
    method Admit(path: Text) returns (error: Option<FsError>)
      modifies this`faults
      ensures error.None? ==> CanCreate(nodes, path)
      ensures CanCreate(nodes, path) ==> error.None? || true in old(faults)
      ensures true in faults ==> true in old(faults)
      ensures error.None? ==> Unbroken(old(faults), faults)
    {
      hide Unbroken;
      error := OpenParentBeneath(path);
      if error.Some? {
        return;
      }
      ParentIsAncestor(path);
      if path in nodes {
        return Some(AlreadyExists);
      }
      if ParentOf(path) != [] && !OwnerWrites(nodes[ParentOf(path)].mode) {
        return Some(Denied);
      }
      ghost var before := faults;
      var done := Call();
      if !done {
        return Some(Fault);
      }
      UnbrokenTrans(old(faults), before, faults);
      return None;
    }

    method CreateDirectoryBeneath(path: Text) returns (error: Option<FsError>)
      modifies this`nodes, this`faults
      ensures error.None? ==> CanCreate(old(nodes), path) && nodes == old(nodes)[path := Dir(PRIVATE_DIRECTORY)]
      ensures error.Some? ==> nodes == old(nodes)
      ensures CanCreate(old(nodes), path) ==> error.None? || true in old(faults)
      ensures true in faults ==> true in old(faults)
      ensures error.None? ==> Unbroken(old(faults), faults)
    {
      hide Unbroken;
      error := Admit(path);
      if error.None? {
        nodes := nodes[path := Dir(PRIVATE_DIRECTORY)];
      }
    }

    /** Creates privately, writes, flushes, and only then applies the mode. */
    method CreateFileBeneath(path: Text, bytes: Text, mode: Permissions) returns (error: Option<FsError>)
      modifies this`nodes, this`faults
      ensures error.None? ==> CanCreate(old(nodes), path) && nodes == old(nodes)[path := Regular(bytes, mode)]
      // What a failure leaves is private still, and if it is not empty it is whole.
      ensures error.Some? ==> nodes == old(nodes) || CanCreate(old(nodes), path)
      ensures error.Some? && nodes != old(nodes) ==>
        exists written :: written in [[], bytes] && nodes == old(nodes)[path := Regular(written, PRIVATE_FILE)]
      ensures CanCreate(old(nodes), path) ==> error.None? || true in old(faults)
      ensures true in faults ==> true in old(faults)
      ensures error.None? ==> Unbroken(old(faults), faults)
    {
      hide Unbroken, CanCreate;
      error := Admit(path);
      if error.Some? {
        return;
      }
      nodes := nodes[path := Regular([], PRIVATE_FILE)];
      ghost var admitted := faults;
      var written := Call();
      if !written {
        return Some(Fault);
      }
      UnbrokenTrans(old(faults), admitted, faults);
      nodes := nodes[path := Regular(bytes, PRIVATE_FILE)];
      assert nodes == old(nodes)[path := Regular(bytes, PRIVATE_FILE)];
      ghost var half := faults;
      var flushed := Call();
      if !flushed {
        return Some(Fault);
      }
      UnbrokenTrans(old(faults), half, faults);
      nodes := nodes[path := Regular(bytes, mode)];
    }

    method CreateSymlinkBeneath(path: Text, target: Text) returns (error: Option<FsError>)
      modifies this`nodes, this`faults
      ensures error.None? ==> CanCreate(old(nodes), path) && nodes == old(nodes)[path := Link(target, linkMode)]
      ensures error.Some? ==> nodes == old(nodes)
      ensures CanCreate(old(nodes), path) ==> error.None? || true in old(faults)
      ensures true in faults ==> true in old(faults)
      ensures error.None? ==> Unbroken(old(faults), faults)
    {
      hide Unbroken;
      error := Admit(path);
      if error.None? {
        nodes := nodes[path := Link(target, linkMode)];
      }
    }

    /**
     * Gives a finished directory its own mode, which may close it even to its owner, and flushes it. When
     * the flush fails the mode has already been given.
     */
    method FinishDirectoryBeneath(path: Text, mode: Permissions) returns (error: Option<FsError>)
      modifies this`nodes, this`faults
      ensures error.None? ==> CanFinish(old(nodes), path) && nodes == old(nodes)[path := Dir(mode)]
      ensures CanFinish(old(nodes), path) ==> error.None? || true in old(faults)
      ensures error.Some? ==>
        nodes == old(nodes) || (CanFinish(old(nodes), path) && nodes == old(nodes)[path := Dir(mode)])
      ensures true in faults ==> true in old(faults)
      ensures error.None? ==> Unbroken(old(faults), faults)
    {
      hide Unbroken;
      error := OpenParentBeneath(path);
      if error.Some? {
        return;
      }
      if path !in nodes || !nodes[path].Dir? {
        return Some(NotDirectory);
      }
      if !OwnerReads(nodes[path].mode) {
        return Some(Denied);
      }
      ghost var reached := faults;
      var done := Call();
      if !done {
        return Some(Fault);
      }
      UnbrokenTrans(old(faults), reached, faults);
      nodes := nodes[path := Dir(mode)];
      ghost var given := faults;
      var flushed := Call();
      if !flushed {
        return Some(Fault);
      }
      UnbrokenTrans(old(faults), given, faults);
      return None;
    }
  }

  // ----- the four passes -----

  /** What an entry becomes; directories stay private until they are finished. */
  function NodeOf(entry: Entry, stored: Stored, linkMode: Permissions, finished: bool): Node {
    match entry.kind
    case Directory => Dir(if finished then entry.permissions else PRIVATE_DIRECTORY)
    case File(objectId, _, _) => Regular(if objectId in stored then stored[objectId] else [], entry.permissions)
    case Symlink(target) => Link(target, linkMode)
  }

  /** How far each pass has come: `d`, `f` and `l` entries seen, directories from `e` on finished. */
  datatype Passes = Passes(d: nat, f: nat, l: nat, e: nat)

  predicate Made(entry: Entry, i: nat, p: Passes) {
    match entry.kind
    case Directory => i < p.d
    case File(_, _, _) => i < p.f
    case Symlink(_) => i < p.l
  }

  ghost predicate Stage(nodes: Tree, entries: seq<Entry>, stored: Stored, linkMode: Permissions, p: Passes) {
    && (forall i :: 0 <= i < |entries| && Made(entries[i], i, p) ==>
          entries[i].path in nodes && nodes[entries[i].path] == NodeOf(entries[i], stored, linkMode, i >= p.e))
    && forall path :: path in nodes ==>
      exists i :: 0 <= i < |entries| && Made(entries[i], i, p) && entries[i].path == path
  }

  /** The tree a manifest describes. */
  ghost predicate Represents(nodes: Tree, entries: seq<Entry>, stored: Stored, linkMode: Permissions) {
    && (forall i :: 0 <= i < |entries| ==>
          entries[i].path in nodes && nodes[entries[i].path] == NodeOf(entries[i], stored, linkMode, true))
    && forall path :: path in nodes ==> Has(entries, path)
  }

  ghost predicate Restorable(entries: seq<Entry>) {
    Canonical(entries) && ParentsExist(entries)
  }

  /** Until it is finished, every directory above an entry is there, private and so passable and writable. */
  lemma {:induction false} AncestorsMade(
    nodes: Tree, entries: seq<Entry>, stored: Stored, linkMode: Permissions, p: Passes, i: nat)
    requires Restorable(entries) && Stage(nodes, entries, stored, linkMode, p)
    requires i < |entries| && i <= p.d && i <= p.e
    ensures Approachable(nodes, entries[i].path)
    ensures ParentOf(entries[i].path) != [] ==>
      ParentOf(entries[i].path) in nodes && nodes[ParentOf(entries[i].path)] == Dir(PRIVATE_DIRECTORY)
  {
    hide Less;
    var path := entries[i].path;
    PrivateBits();
    DistinctPaths(entries);
    forall a | Ancestor(a, path) ensures a in nodes && nodes[a] == Dir(PRIVATE_DIRECTORY) {
      assert HasDirectory(entries, a);
      var j :| 0 <= j < |entries| && entries[j].path == a && entries[j].kind.Directory?;
      AncestorLess(a, path);
      if j > i { LessAsymmetric(a, path); }
      assert Made(entries[j], j, p);
    }
    ParentIsAncestor(path);
  }

  lemma {:induction false} CanCreateNext(
    nodes: Tree, entries: seq<Entry>, stored: Stored, linkMode: Permissions, p: Passes, i: nat)
    requires Restorable(entries) && Stage(nodes, entries, stored, linkMode, p)
    requires i < |entries| && i <= p.d && i <= p.e && !Made(entries[i], i, p)
    ensures CanCreate(nodes, entries[i].path)
  {
    hide Less, Approachable, Canonical;
    AncestorsMade(nodes, entries, stored, linkMode, p, i);
    PrivateBits();
    DistinctPaths(entries);
  }

  /** Creating one more entry advances the pass it belongs to. */
  lemma {:induction false} Created(
    nodes: Tree, entries: seq<Entry>, stored: Stored, linkMode: Permissions, p: Passes, q: Passes, i: nat)
    requires Canonical(entries) && Stage(nodes, entries, stored, linkMode, p) && i < |entries|
        && q.e == p.e == |entries|
    requires !Made(entries[i], i, p) && Made(entries[i], i, q)
    requires forall j :: 0 <= j < |entries| && j != i ==> (Made(entries[j], j, p) <==> Made(entries[j], j, q))
    ensures Stage(nodes[entries[i].path := NodeOf(entries[i], stored, linkMode, false)], entries, stored, linkMode, q)
  {
    hide Less, NodeOf, Canonical;
    DistinctPaths(entries);
    var more := nodes[entries[i].path := NodeOf(entries[i], stored, linkMode, false)];
    forall path | path in more
      ensures exists k :: 0 <= k < |entries| && Made(entries[k], k, q) && entries[k].path == path {
      if path != entries[i].path {
        var k :| 0 <= k < |entries| && Made(entries[k], k, p) && entries[k].path == path;
        assert Made(entries[k], k, q);
      }
    }
  }

  /** Skipping an entry of another kind advances a pass too. */
  lemma {:induction false} Skipped(nodes: Tree, entries: seq<Entry>, stored: Stored, linkMode: Permissions, p: Passes,
      q: Passes)
    requires Stage(nodes, entries, stored, linkMode, p) && q.e == p.e
    requires forall j :: 0 <= j < |entries| ==> (Made(entries[j], j, p) <==> Made(entries[j], j, q))
    ensures Stage(nodes, entries, stored, linkMode, q)
  {
    hide NodeOf;
    forall path | path in nodes
      ensures exists k :: 0 <= k < |entries| && Made(entries[k], k, q) && entries[k].path == path {
      var k :| 0 <= k < |entries| && Made(entries[k], k, p) && entries[k].path == path;
      assert Made(entries[k], k, q);
    }
  }

  /** Giving the last unfinished directory its mode. */
  lemma {:induction false} FinishedOne(
    nodes: Tree, entries: seq<Entry>, stored: Stored, linkMode: Permissions, i: nat)
    requires Canonical(entries) && i < |entries|
    requires Stage(nodes, entries, stored, linkMode, Passes(|entries|, |entries|, |entries|, i + 1))
    ensures var more := if entries[i].kind.Directory? then nodes[entries[i].path := Dir(entries[i].permissions)]
        else nodes;
      Stage(more, entries, stored, linkMode, Passes(|entries|, |entries|, |entries|, i))
  {
    hide Less, Canonical;
    DistinctPaths(entries);
    var p, q := Passes(|entries|, |entries|, |entries|, i + 1), Passes(|entries|, |entries|, |entries|, i);
    var more := if entries[i].kind.Directory? then nodes[entries[i].path := Dir(entries[i].permissions)] else nodes;
    forall j | 0 <= j < |entries|
      ensures Made(entries[j], j, p) && Made(entries[j], j, q) && entries[j].path in more
      ensures more[entries[j].path] == NodeOf(entries[j], stored, linkMode, j >= i)
    {
      if j != i { assert entries[j].path != entries[i].path; }
    }
    forall path | path in more
      ensures exists k :: 0 <= k < |entries| && Made(entries[k], k, q) && entries[k].path == path
    {
      assert path in nodes;
      var k :| 0 <= k < |entries| && Made(entries[k], k, p) && entries[k].path == path;
      assert Made(entries[k], k, q);
    }
  }

  method MakeDirectories(root: DirectoryRoot, entries: seq<Entry>, ghost stored: Stored)
    returns (error: Option<RestoreError>)
    requires Restorable(entries) && root.nodes == map[]
    modifies root`nodes, root`faults
    ensures true in root.faults ==> true in old(root.faults)
    ensures error.None? ==> Unbroken(old(root.faults), root.faults)
    ensures error.Some? ==> true in old(root.faults)
    ensures error.None? ==> Stage(root.nodes, entries, stored, root.linkMode, Passes(|entries|, 0, 0, |entries|))
  {
    hide Stage, CanCreate, Canonical, ParentsExist, Made, Unbroken;
    UnbrokenNone(root.faults);
    ghost var n := |entries|;
    NothingMade(entries, stored, root.linkMode);
    for i := 0 to |entries|
      invariant Stage(root.nodes, entries, stored, root.linkMode, Passes(i, 0, 0, n))
      invariant true in root.faults ==> true in old(root.faults)
      invariant Unbroken(old(root.faults), root.faults)
    {
      DirectoryPass(entries, i, n);
      if entries[i].kind.Directory? {
        CanCreateNext(root.nodes, entries, stored, root.linkMode, Passes(i, 0, 0, n), i);
        Created(root.nodes, entries, stored, root.linkMode, Passes(i, 0, 0, n), Passes(i + 1, 0, 0, n), i);
        ghost var before := root.faults;
        var failure := root.CreateDirectoryBeneath(entries[i].path);
        if failure.Some? {
          return Some(FileSystem(failure.value));
        }
        UnbrokenTrans(old(root.faults), before, root.faults);
      } else {
        Skipped(root.nodes, entries, stored, root.linkMode, Passes(i, 0, 0, n), Passes(i + 1, 0, 0, n));
      }
    }
    return None;
  }

  lemma {:induction false} NothingMade(entries: seq<Entry>, stored: Stored, linkMode: Permissions)
    ensures Stage(map[], entries, stored, linkMode, Passes(0, 0, 0, |entries|))
  {
  }

  lemma {:induction false} DirectoryPass(entries: seq<Entry>, i: nat, n: nat)
    requires i < |entries|
    ensures !Made(entries[i], i, Passes(i, 0, 0, n))
    ensures Made(entries[i], i, Passes(i + 1, 0, 0, n)) <==> entries[i].kind.Directory?
    ensures forall j :: 0 <= j < |entries| && j != i ==>
      (Made(entries[j], j, Passes(i, 0, 0, n)) <==> Made(entries[j], j, Passes(i + 1, 0, 0, n)))
  {
  }

  lemma {:induction false} FilePass(entries: seq<Entry>, i: nat, n: nat)
    requires i < |entries|
    ensures entries[i].kind.File? ==>
        !Made(entries[i], i, Passes(n, i, 0, n)) && Made(entries[i], i, Passes(n, i + 1, 0, n))
    ensures forall j :: 0 <= j < |entries| && (j != i || !entries[i].kind.File?) ==>
      (Made(entries[j], j, Passes(n, i, 0, n)) <==> Made(entries[j], j, Passes(n, i + 1, 0, n)))
  {
  }

  lemma {:induction false} LinkPass(entries: seq<Entry>, i: nat, n: nat)
    requires i < |entries|
    ensures entries[i].kind.Symlink? ==>
        !Made(entries[i], i, Passes(n, n, i, n)) && Made(entries[i], i, Passes(n, n, i + 1, n))
    ensures forall j :: 0 <= j < |entries| && (j != i || !entries[i].kind.Symlink?) ==>
      (Made(entries[j], j, Passes(n, n, i, n)) <==> Made(entries[j], j, Passes(n, n, i + 1, n)))
  {
  }

  method WriteFiles(root: DirectoryRoot, entries: seq<Entry>, stored: Stored, maximum: nat)
    returns (error: Option<RestoreError>)
    requires Restorable(entries)
    requires Stage(root.nodes, entries, stored, root.linkMode, Passes(|entries|, 0, 0, |entries|))
    modifies root`nodes, root`faults
    ensures true in root.faults ==> true in old(root.faults)
    ensures error.None? ==> Unbroken(old(root.faults), root.faults)
    ensures error.Some? ==> true in old(root.faults) || !Ready(entries, stored, maximum)
    ensures error.None? ==> Ready(entries, stored, maximum)
    ensures error.None? ==>
        Stage(root.nodes, entries, stored, root.linkMode, Passes(|entries|, |entries|, 0, |entries|))
  {
    hide Stage, CanCreate, Canonical, ParentsExist, Made, Unbroken;
    UnbrokenNone(root.faults);
    ghost var n := |entries|;
    for i := 0 to |entries|
      invariant Stage(root.nodes, entries, stored, root.linkMode, Passes(n, i, 0, n))
      invariant true in root.faults ==> true in old(root.faults)
      invariant Unbroken(old(root.faults), root.faults)
      invariant forall j :: 0 <= j < i ==> FileReady(entries[j], stored, maximum)
    {
      var entry := entries[i];
      FilePass(entries, i, n);
      if entry.kind.File? {
        if entry.kind.size > maximum {
          return Some(FileTooLarge(entry.path, entry.kind.size, maximum));
        }
        if entry.kind.objectId !in stored {
          return Some(ObjectMissing(entry.kind.objectId));
        }
        var bytes := stored[entry.kind.objectId];
        if |bytes| != entry.kind.size {
          return Some(ObjectSizeMismatch(entry.path, entry.kind.size));
        }
        CanCreateNext(root.nodes, entries, stored, root.linkMode, Passes(n, i, 0, n), i);
        Created(root.nodes, entries, stored, root.linkMode, Passes(n, i, 0, n), Passes(n, i + 1, 0, n), i);
        ghost var before := root.faults;
        var failure := root.CreateFileBeneath(entry.path, bytes, entry.permissions);
        if failure.Some? {
          return Some(FileSystem(failure.value));
        }
        UnbrokenTrans(old(root.faults), before, root.faults);
      } else {
        Skipped(root.nodes, entries, stored, root.linkMode, Passes(n, i, 0, n), Passes(n, i + 1, 0, n));
      }
    }
    return None;
  }

  method MakeLinks(root: DirectoryRoot, entries: seq<Entry>, ghost stored: Stored) returns (error: Option<RestoreError>)
    requires Restorable(entries)
    requires Stage(root.nodes, entries, stored, root.linkMode, Passes(|entries|, |entries|, 0, |entries|))
    modifies root`nodes, root`faults
    ensures true in root.faults ==> true in old(root.faults)
    ensures error.None? ==> Unbroken(old(root.faults), root.faults)
    ensures error.Some? ==> true in old(root.faults)
    ensures error.None? ==>
        Stage(root.nodes, entries, stored, root.linkMode, Passes(|entries|, |entries|, |entries|, |entries|))
  {
    hide Stage, CanCreate, Canonical, ParentsExist, Made, Unbroken;
    UnbrokenNone(root.faults);
    ghost var n := |entries|;
    for i := 0 to |entries|
      invariant Stage(root.nodes, entries, stored, root.linkMode, Passes(n, n, i, n))
      invariant true in root.faults ==> true in old(root.faults)
      invariant Unbroken(old(root.faults), root.faults)
    {
      LinkPass(entries, i, n);
      if entries[i].kind.Symlink? {
        CanCreateNext(root.nodes, entries, stored, root.linkMode, Passes(n, n, i, n), i);
        Created(root.nodes, entries, stored, root.linkMode, Passes(n, n, i, n), Passes(n, n, i + 1, n), i);
        ghost var before := root.faults;
        var failure := root.CreateSymlinkBeneath(entries[i].path, entries[i].kind.target);
        if failure.Some? {
          return Some(FileSystem(failure.value));
        }
        UnbrokenTrans(old(root.faults), before, root.faults);
      } else {
        Skipped(root.nodes, entries, stored, root.linkMode, Passes(n, n, i, n), Passes(n, n, i + 1, n));
      }
    }
    return None;
  }

  method FinishDirectories(root: DirectoryRoot, entries: seq<Entry>, ghost stored: Stored)
    returns (error: Option<RestoreError>)
    requires Restorable(entries)
    requires Stage(root.nodes, entries, stored, root.linkMode, Passes(|entries|, |entries|, |entries|, |entries|))
    modifies root`nodes, root`faults
    ensures true in root.faults ==> true in old(root.faults)
    ensures error.None? ==> Unbroken(old(root.faults), root.faults)
    ensures error.Some? ==> true in old(root.faults)
    ensures error.None? ==> Represents(root.nodes, entries, stored, root.linkMode)
  {
    hide Stage, CanFinish, Canonical, ParentsExist, Made, Unbroken;
    UnbrokenNone(root.faults);
    ghost var n := |entries|;
    var i := |entries|;
    while i > 0
      invariant 0 <= i <= n
      invariant Stage(root.nodes, entries, stored, root.linkMode, Passes(n, n, n, i))
      invariant true in root.faults ==> true in old(root.faults)
      invariant Unbroken(old(root.faults), root.faults)
    {
      i := i - 1;
      FinishedOne(root.nodes, entries, stored, root.linkMode, i);
      if entries[i].kind.Directory? {
        CanFinishNext(root.nodes, entries, stored, root.linkMode, i);
        ghost var before := root.faults;
        var failure := root.FinishDirectoryBeneath(entries[i].path, entries[i].permissions);
        if failure.Some? {
          return Some(FileSystem(failure.value));
        }
        UnbrokenTrans(old(root.faults), before, root.faults);
      }
    }
    AllFinished(root.nodes, entries, stored, root.linkMode);
    return None;
  }

  /** Finishing walks only directories that have not been given their final mode yet. */
  lemma {:induction false} CanFinishNext(nodes: Tree, entries: seq<Entry>, stored: Stored, linkMode: Permissions,
      i: nat)
    requires Restorable(entries) && i < |entries| && entries[i].kind.Directory?
    requires Stage(nodes, entries, stored, linkMode, Passes(|entries|, |entries|, |entries|, i + 1))
    ensures CanFinish(nodes, entries[i].path)
  {
    hide Less, Approachable, Canonical, ParentsExist;
    var p := Passes(|entries|, |entries|, |entries|, i + 1);
    AncestorsMade(nodes, entries, stored, linkMode, p, i);
    PrivateBits();
    assert Made(entries[i], i, p);
  }

  lemma {:induction false} AllFinished(nodes: Tree, entries: seq<Entry>, stored: Stored, linkMode: Permissions)
    requires Stage(nodes, entries, stored, linkMode, Passes(|entries|, |entries|, |entries|, 0))
    ensures Represents(nodes, entries, stored, linkMode)
  {
    hide NodeOf;
    var p := Passes(|entries|, |entries|, |entries|, 0);
    forall i | 0 <= i < |entries| ensures Made(entries[i], i, p) {}
  }

  /**
   * Builds the tree of a valid manifest in an empty directory. Directories come before what they hold
   * and get their own modes last and innermost first, so no step is refused: the only failures are those
   * of the calls themselves and of objects that have changed since preflight.
   */
  method BuildTree(root: DirectoryRoot, entries: seq<Entry>, stored: Stored, maximum: nat)
    returns (error: Option<RestoreError>)
    requires Restorable(entries) && root.nodes == map[]
    modifies root`nodes, root`faults
    ensures error.None? ==> Represents(root.nodes, entries, stored, root.linkMode) && Ready(entries, stored, maximum)
    ensures error.None? ==> Unbroken(old(root.faults), root.faults)
    ensures error.Some? ==> true in old(root.faults) || !Ready(entries, stored, maximum)
  {
    hide Stage, Restorable, Represents, Ready, Unbroken;
    error := MakeDirectories(root, entries, stored);
    if error.Some? {
      return;
    }
    ghost var made := root.faults;
    error := WriteFiles(root, entries, stored, maximum);
    if error.Some? {
      return;
    }
    UnbrokenTrans(old(root.faults), made, root.faults);
    ghost var written := root.faults;
    error := MakeLinks(root, entries, stored);
    if error.Some? {
      return;
    }
    UnbrokenTrans(old(root.faults), written, root.faults);
    ghost var linked := root.faults;
    error := FinishDirectories(root, entries, stored);
    if error.Some? {
      return;
    }
    UnbrokenTrans(old(root.faults), linked, root.faults);
  }
}
