/** Directory trees: paths and nodes, with the permission bits an unprivileged owner needs. */
module Trees {
  import opened Bytes
  import opened Snapshots

  datatype Node =
    | Dir(mode: Permissions)
    | Regular(bytes: Text, mode: Permissions)
    | Link(target: Text, mode: Permissions)
    | Special

  /** Nodes by their path below a root, which is not itself a member. */
  type Tree = map<Text, Node>

  predicate OwnerReads(mode: Permissions) { mode & 0x100 != 0 }

  predicate OwnerWrites(mode: Permissions) { mode & 0x80 != 0 }

  predicate OwnerSearches(mode: Permissions) { mode & 0x40 != 0 }

  const PRIVATE_DIRECTORY: Permissions := 0x1C0
  const PRIVATE_FILE: Permissions := 0x180

  /** A directory that can be opened and whose entries can be reached. */
  predicate Passable(node: Node) { node.Dir? && OwnerReads(node.mode) && OwnerSearches(node.mode) }

  lemma PrivateBits()
    ensures OwnerReads(PRIVATE_DIRECTORY) && OwnerWrites(PRIVATE_DIRECTORY) && OwnerSearches(PRIVATE_DIRECTORY)
  {
  }

  // ----- paths -----

  /** The proper ancestors of a path below the root: its prefixes that end at a slash. */
  ghost predicate Ancestor(a: Text, path: Text) {
    |a| < |path| && a == path[..|a|] && path[|a|] == SLASH
  }

  /** Where the last component begins. */
  function NameStart(path: Text): (start: nat)
    ensures start <= |path|
    ensures start > 0 ==> path[start - 1] == SLASH
    ensures forall i :: start <= i < |path| ==> path[i] != SLASH
  {
    if path == [] then 0 else if path[|path| - 1] == SLASH then |path| else NameStart(path[..|path| - 1])
  }

  /** The directory that holds a path; the root is the empty path. */
  function ParentOf(path: Text): Text {
    if NameStart(path) == 0 then [] else path[..NameStart(path) - 1]
  }

  /** The immediate parent is an ancestor, and every other ancestor is an ancestor of it. */
  lemma ParentIsAncestor(path: Text)
    ensures NameStart(path) > 0 ==> Ancestor(ParentOf(path), path)
    ensures forall a :: Ancestor(a, path) ==> a == ParentOf(path) || Ancestor(a, ParentOf(path))
    ensures NameStart(path) == 0 ==> forall a :: !Ancestor(a, path)
  {
    forall a | Ancestor(a, path) ensures NameStart(path) > 0 && (a == ParentOf(path) || Ancestor(a, ParentOf(path))) {
      assert |a| < NameStart(path);
      if |a| < NameStart(path) - 1 {
        assert ParentOf(path)[..|a|] == path[..|a|];
      }
    }
  }

  lemma AncestorTrans(a: Text, b: Text, c: Text)
    requires Ancestor(a, b) && Ancestor(b, c)
    ensures Ancestor(a, c)
  {
    assert c[..|a|] == b[..|a|];
  }

  /** Two ancestors of one path are ordered by length. */
  lemma AncestorsNest(a: Text, b: Text, path: Text)
    requires Ancestor(a, path) && Ancestor(b, path) && |a| < |b|
    ensures Ancestor(a, b)
  {
    assert b[..|a|] == path[..|a|];
  }

  /** A directory sorts before everything beneath it. */
  lemma AncestorLess(a: Text, path: Text)
    requires Ancestor(a, path)
    ensures Less(a, path) && a != path
  {
    assert path == a + path[|a|..];
    PrefixLess(a, path[|a|..]);
  }

  /** Every path has a name, and every directory on the way to it is there and is a directory. */
  ghost predicate WellFormed(tree: Tree) {
    forall p :: p in tree ==> NameStart(p) < |p| && Grounded(tree, p)
  }

  ghost predicate Grounded(tree: Tree, path: Text) {
    && (NameStart(path) > 0 ==> ParentOf(path) != [])
    && forall a :: Ancestor(a, path) ==> a in tree && tree[a].Dir?
  }

  /** All directories on the way to a path can be passed. */
  ghost predicate Approachable(tree: Tree, path: Text) {
    forall a :: Ancestor(a, path) ==> a in tree && Passable(tree[a])
  }

  // ----- manifests as trees -----

  ghost predicate Has(entries: seq<Entry>, path: Text) {
    exists i :: 0 <= i < |entries| && entries[i].path == path
  }

  ghost predicate HasDirectory(entries: seq<Entry>, path: Text) {
    exists i :: 0 <= i < |entries| && entries[i].path == path && entries[i].kind.Directory?
  }

  /** Every path's ancestors are entries, and directories. */
  ghost predicate ParentsExist(entries: seq<Entry>) {
    forall i, a :: 0 <= i < |entries| && Ancestor(a, entries[i].path) ==> HasDirectory(entries, a)
  }

  type Fold = Text -> Text

  /** No two paths agree when letter case is ignored. */
  ghost predicate FoldDistinct(fold: Fold, entries: seq<Entry>) {
    forall i, j :: 0 <= i < j < |entries| ==> fold(entries[i].path) != fold(entries[j].path)
  }

  ghost predicate ValidPaths(entries: seq<Entry>) {
    forall i :: 0 <= i < |entries| ==> ValidPath(entries[i].path)
  }

  datatype StructureError =
    | CaseFoldCollision(first: Text, second: Text)
    | MissingParent(path: Text, parent: Text)
    | ParentNotDirectory(path: Text, parent: Text)
}
