/** Restoring a snapshot and scanning the result. */
module RoundTrips {
  import opened Bytes
  import opened Digests
  import opened Restores
  import opened Scans
  import opened Snapshots
  import opened Sorting
  import opened Trees
  import opened Wrappers

  /** The manifest as a platform can reproduce it: links carry the mode the platform gives to links. */
  function Relinked(entries: seq<Entry>, linkMode: Permissions): (relinked: seq<Entry>)
    ensures |relinked| == |entries|
    ensures forall i :: 0 <= i < |entries| ==> relinked[i] == RelinkedOne(entries[i], linkMode)
  {
    seq(|entries|, i requires 0 <= i < |entries| => RelinkedOne(entries[i], linkMode))
  }

  function RelinkedOne(entry: Entry, linkMode: Permissions): Entry {
    if entry.kind.Symlink? then entry.(permissions := linkMode) else entry
  }

  /** The modes let an unprivileged owner read back what has been restored. */
  ghost predicate Accessible(entries: seq<Entry>) {
    forall i :: 0 <= i < |entries| ==>
      && (entries[i].kind.Directory? ==> OwnerReads(entries[i].permissions) && OwnerSearches(entries[i].permissions))
      && (entries[i].kind.File? ==> OwnerReads(entries[i].permissions))
  }

  /** A manifest whose text is UTF-8, whose objects are what their identities say and whose tree is `w`'s. */
  ghost predicate Restored(w: World, entries: seq<Entry>, stored: Stored, linkMode: Permissions) {
    && Represents(w.tree, entries, stored, linkMode) && Restorable(entries) && ValidEntries(entries)
      && ValidPaths(entries)
    && (forall i :: 0 <= i < |entries| ==>
          w.utf8(entries[i].path) && (entries[i].kind.Symlink? ==> w.utf8(entries[i].kind.target)))
    && forall i :: 0 <= i < |entries| && entries[i].kind.File? ==>
         && entries[i].kind.objectId in stored
         && w.hash(stored[entries[i].kind.objectId]) == entries[i].kind.objectId
         && |stored[entries[i].kind.objectId]| == entries[i].kind.size
  }

  /** Nothing is ignored and nothing is too large to keep. */
  ghost predicate Everything(w: World, entries: seq<Entry>) {
    && w.options.ignore == []
    && forall i :: 0 <= i < |entries| && entries[i].kind.File? ==> entries[i].kind.size <= w.options.maxFileSize
  }

  lemma {:induction false} ShapedPath(path: Text)
    requires ValidPath(path)
    ensures NameStart(path) < |path| && (NameStart(path) > 0 ==> ParentOf(path) != [])
  {
    assert !SafeComponent([]);
    if NameStart(path) == |path| {
      TrailingSlash(path);
    }
  }

  /** What a restore leaves behind is a tree. */
  lemma {:induction false} RestoredTree(nodes: Tree, entries: seq<Entry>, stored: Stored, linkMode: Permissions)
    requires Represents(nodes, entries, stored, linkMode) && Restorable(entries) && ValidPaths(entries)
    ensures WellFormed(nodes)
  {
    hide ValidPath, Canonical;
    forall p | p in nodes ensures NameStart(p) < |p| && Grounded(nodes, p) {
      var i :| 0 <= i < |entries| && entries[i].path == p;
      ShapedPath(p);
      forall a | Ancestor(a, p) ensures a in nodes && nodes[a].Dir? {
        assert HasDirectory(entries, a);
        var j :| 0 <= j < |entries| && entries[j].path == a && entries[j].kind.Directory?;
      }
    }
  }

  lemma {:induction false} NothingHidden(w: World, entries: seq<Entry>, p: Text)
    requires Everything(w, entries)
    ensures !Hides(w, p) && (p in w.tree ==> Reached(w, [], p))
  {
  }

  lemma {:induction false} NothingOversized(w: World, entries: seq<Entry>, stored: Stored, linkMode: Permissions,
      p: Text)
    requires Restored(w, entries, stored, linkMode) && Everything(w, entries) && p in w.tree
    ensures !Oversized(w, p)
  {
    hide Restorable, ValidPaths, ValidEntries;
    var i :| 0 <= i < |entries| && entries[i].path == p;
  }

  lemma {:induction false} SameEntry(w: World, entries: seq<Entry>, stored: Stored, linkMode: Permissions, i: nat)
    requires Restored(w, entries, stored, linkMode) && i < |entries|
    ensures entries[i].path in w.tree && EntryAt(w, entries[i].path) == RelinkedOne(entries[i], linkMode)
  {
    hide Restorable, ValidPaths, IsExecutable;
    assert ValidateEntry(entries[i]).None?;
  }

  /** After a restore, the scan can deal with every path exactly when the restored modes admit the owner. */
  lemma {:induction false} ScannableExactly(w: World, entries: seq<Entry>, stored: Stored, linkMode: Permissions)
    requires Restored(w, entries, stored, linkMode) && Everything(w, entries)
    ensures Clean(w, ReachedIn(w, [])) <==> Accessible(entries)
  {
    hide Restorable, ValidPath, ValidEntries, Hides, OwnerReads, OwnerSearches, Reached;
    forall p | p in w.tree ensures p in ReachedIn(w, []) && !Hides(w, p) { NothingHidden(w, entries, p); }
    if Accessible(entries) {
      forall p | p in w.tree ensures Fine(w, p) {
        var i :| 0 <= i < |entries| && entries[i].path == p;
      }
    }
    if Clean(w, ReachedIn(w, [])) {
      forall i | 0 <= i < |entries|
        ensures entries[i].kind.Directory? ==>
            OwnerReads(entries[i].permissions) && OwnerSearches(entries[i].permissions)
        ensures entries[i].kind.File? ==> OwnerReads(entries[i].permissions)
      {
        assert Fine(w, entries[i].path);
      }
    }
  }

  /** Scanning what has been restored captures the manifest again, apart from the modes of links. */
  lemma {:induction false} RestoredIsCaptured(w: World, entries: seq<Entry>, stored: Stored, linkMode: Permissions)
    requires Restored(w, entries, stored, linkMode) && Everything(w, entries)
    ensures Captures(w, Relinked(entries, linkMode))
  {
    hide Hides, Oversized, EntryAt, ValidPaths, ValidEntries, ParentsExist, Less, RelinkedOne;
    var relinked := Relinked(entries, linkMode);
    forall i | 0 <= i < |entries| ensures relinked[i].path == entries[i].path { SamePath(entries[i], linkMode); }
    assert Keys(PathOf(), relinked) == Keys(PathOf(), entries);
    forall p | p in w.tree ensures p in KeptPaths(w) {
      NothingHidden(w, entries, p);
      NothingOversized(w, entries, stored, linkMode, p);
    }
    forall e ensures e in relinked <==> exists p :: p in KeptPaths(w) && e == EntryAt(w, p) {
      if e in relinked {
        var i :| 0 <= i < |relinked| && relinked[i] == e;
        SameEntry(w, entries, stored, linkMode, i);
      }
      if exists p :: p in KeptPaths(w) && e == EntryAt(w, p) {
        var p :| p in KeptPaths(w) && e == EntryAt(w, p);
        var i :| 0 <= i < |entries| && entries[i].path == p;
        SameEntry(w, entries, stored, linkMode, i);
        assert relinked[i] == e;
      }
    }
  }

  lemma {:induction false} SamePath(entry: Entry, linkMode: Permissions)
    ensures RelinkedOne(entry, linkMode).path == entry.path
  {
  }

  lemma {:induction false} RelinkedValid(fold: Fold, entries: seq<Entry>, linkMode: Permissions)
    requires ValidEntries(entries) && FoldDistinct(fold, entries)
    ensures ValidEntries(Relinked(entries, linkMode)) && FoldDistinct(fold, Relinked(entries, linkMode))
  {
    var relinked := Relinked(entries, linkMode);
    forall i | 0 <= i < |entries| ensures ValidateEntry(relinked[i]).None? && relinked[i].path == entries[i].path {
      assert ValidateEntry(entries[i]).None?;
    }
  }

  /**
   * Any valid snapshot, restored into an empty directory and scanned with nothing ignored and nothing too
   * large: the restore succeeds whatever the modes, and the scan gives the snapshot back, up to the modes
   * of its links, exactly when the restored modes admit the owner.
   */
  method RestoreAndScan(
    root: DirectoryRoot, entries: seq<Entry>, stored: Stored, maximum: nat, fold: Fold, hash: Hasher,
      utf8: Text -> bool)
    returns (built: Option<RestoreError>, r: Result<seq<Entry>, ScanError>)
    requires root.nodes == map[] && root.faults == []
    requires Canonical(entries) && ValidEntries(entries) && ValidPaths(entries)
    requires FoldDistinct(fold, entries) && ParentsExist(entries) && Ready(entries, stored, maximum)
    requires forall id :: id in stored ==> hash(stored[id]) == id
    requires forall i :: 0 <= i < |entries| ==>
      utf8(entries[i].path) && (entries[i].kind.Symlink? ==> utf8(entries[i].kind.target))
    modifies root`nodes, root`faults
    ensures built.None?
    ensures r.Success? <==> Accessible(entries)
    ensures r.Success? ==> r.value == Relinked(entries, root.linkMode)
  {
    hide ValidPath, Canonical, FoldDistinct, ParentsExist, Represents, WellFormed, Clean, ReachedIn, Captures,
      ValidEntries;
    hide Accessible;
    built := BuildTree(root, entries, stored, maximum);
    var w := World(root.nodes, ScanOptions([], maximum), hash, utf8);
    RestoredTree(root.nodes, entries, stored, root.linkMode);
    RestoredByBuild(w, entries, stored, maximum, root.linkMode);
    ScannableExactly(w, entries, stored, root.linkMode);
    RestoredIsCaptured(w, entries, stored, root.linkMode);
    RelinkedValid(fold, entries, root.linkMode);
    OneCapture(w, Relinked(entries, root.linkMode));
    var exclusions;
    r, exclusions := ScanWorkspace(w, fold);
  }

  /**
   * A snapshot of one directory without any permission bit restores but cannot be scanned: it meets every
   * condition of a restore, and no tree that represents it is one a scan can deal with.
   */
  lemma {:induction false} LockedDirectory(
    w: World, stored: Stored, maximum: nat, fold: Fold, linkMode: Permissions)
    ensures var entries := [Entry([97], Directory, 0)];
      && Canonical(entries) && ValidEntries(entries) && ValidPaths(entries)
      && FoldDistinct(fold, entries) && ParentsExist(entries) && Ready(entries, stored, maximum)
      && !Accessible(entries)
      && (w.options.ignore == [] && Represents(w.tree, entries, stored, linkMode) ==> !Clean(w, ReachedIn(w, [])))
  {
    var entries := [Entry([97], Directory, 0)];
    ComponentsWhole([97]);
    assert !OwnerReads(entries[0].permissions);
    if w.options.ignore == [] && Represents(w.tree, entries, stored, linkMode) {
      assert entries[0].path in w.tree && w.tree[[97]] == Dir(0);
      assert [97] in ReachedIn(w, []) && !Hides(w, [97]);
      assert !Fine(w, [97]);
    }
  }

  lemma {:induction false} RestoredByBuild(w: World, entries: seq<Entry>, stored: Stored, maximum: nat,
      linkMode: Permissions)
    requires Represents(w.tree, entries, stored, linkMode) && Restorable(entries) && ValidEntries(entries)
        && ValidPaths(entries)
    requires Ready(entries, stored, maximum) && w.options == ScanOptions([], maximum)
    requires forall id :: id in stored ==> w.hash(stored[id]) == id
    requires forall i :: 0 <= i < |entries| ==>
      w.utf8(entries[i].path) && (entries[i].kind.Symlink? ==> w.utf8(entries[i].kind.target))
    ensures Restored(w, entries, stored, linkMode) && Everything(w, entries)
  {
    hide Represents, Restorable, ValidEntries, ValidPaths;
    forall i | 0 <= i < |entries| ensures FileReady(entries[i], stored, maximum) {}
  }
}
