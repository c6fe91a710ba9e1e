/** The authoritative scan: a depth-first walk that records or visibly omits every path it reaches. */
module Scans {
  import opened Bytes
  import opened Digests
  import opened Glob
  import opened Restores
  import opened Snapshots
  import opened Sorting
  import opened Trees
  import opened Wrappers

  datatype ScanOptions = ScanOptions(ignore: seq<Text>, maxFileSize: nat)

  datatype Reason = Ignored(pattern: Text) | TooLarge(actual: nat, maximum: nat)

  datatype Exclusion = Exclusion(path: Text, reason: Reason)

  datatype ScanError =
    | NonUtf8(path: Text)
    | InvalidPath(path: Text)
    | Unsupported(path: Text)
    | AccessDenied(path: Text)
    | Manifest(cause: ManifestError)
    | Shape(defect: StructureError)

  /** What a scan sees: a tree that nobody changes meanwhile, and its policy. */
  datatype World = World(tree: Tree, options: ScanOptions, hash: Hasher, utf8: Text -> bool)

  ghost predicate Hides(w: World, path: Text) {
    exists i :: 0 <= i < |w.options.ignore| && Matches(Tokens(w.options.ignore[i]), path)
  }

  /** Strictly beneath a directory; the root is the empty path. */
  ghost predicate Under(path: Text, dir: Text) {
    dir == [] || Ancestor(dir, path)
  }

  /** Reached from a directory: nothing between the two is ignored. */
  ghost predicate Reached(w: World, dir: Text, path: Text) {
    path in w.tree && Under(path, dir) && forall a :: Ancestor(a, path) && Under(a, dir) ==> !Hides(w, a)
  }

  ghost function ReachedIn(w: World, dir: Text): set<Text> {
    set p | p in w.tree && Reached(w, dir, p)
  }

  /** A path the scan can deal with. */
  ghost predicate Fine(w: World, path: Text)
    requires path in w.tree
  {
    && w.utf8(path) && ValidPath(path)
    && (Hides(w, path) ||
          match w.tree[path]
          case Dir(_) => Passable(w.tree[path])
          case Regular(_, mode) => OwnerReads(mode)
          case Link(target, _) => w.utf8(target)
          case Special => false)
  }

  ghost predicate Clean(w: World, paths: set<Text>) {
    forall p :: p in paths && p in w.tree ==> Fine(w, p)
  }

  // ----- what is recorded -----

  ghost function FirstPattern(w: World, path: Text): Text
    requires Hides(w, path)
  {
    FirstMatch(w.options.ignore, path, 0)
  }

  ghost function FirstMatch(patterns: seq<Text>, path: Text, from: nat): Text
    requires exists i :: from <= i < |patterns| && Matches(Tokens(patterns[i]), path)
    decreases |patterns| - from
  {
    if Matches(Tokens(patterns[from]), path) then patterns[from] else FirstMatch(patterns, path, from + 1)
  }

  function Kind(w: World, node: Node): EntryKind {
    match node
    case Dir(_) => Directory
    case Regular(bytes, mode) => File(w.hash(bytes), |bytes|, IsExecutable(mode))
    case Link(target, _) => Symlink(target)
    case Special => Directory
  }

  function ModeOf(node: Node): Permissions {
    match node
    case Dir(mode) => mode
    case Regular(_, mode) => mode
    case Link(_, mode) => mode
    case Special => 0
  }

  function EntryAt(w: World, path: Text): Entry
    requires path in w.tree
  {
    Entry(path, Kind(w, w.tree[path]), ModeOf(w.tree[path]))
  }

  /** A file above the retention limit is left out. */
  predicate Oversized(w: World, path: Text)
    requires path in w.tree
  {
    w.tree[path].Regular? && |w.tree[path].bytes| > w.options.maxFileSize
  }

  ghost function EntryFor(w: World, path: Text): seq<Entry> {
    if path !in w.tree || Hides(w, path) || Oversized(w, path) then [] else [EntryAt(w, path)]
  }

  ghost function ExclusionFor(w: World, path: Text): seq<Exclusion> {
    if path !in w.tree then []
    else if Hides(w, path) then [Exclusion(path, Ignored(FirstPattern(w, path)))]
    else if Oversized(w, path) then [Exclusion(path, TooLarge(|w.tree[path].bytes|, w.options.maxFileSize))]
    else []
  }

  ghost function EntriesFor(w: World, visited: seq<Text>): seq<Entry> {
    if visited == [] then [] else EntryFor(w, visited[0]) + EntriesFor(w, visited[1..])
  }

  ghost function ExclusionsFor(w: World, visited: seq<Text>): seq<Exclusion> {
    if visited == [] then [] else ExclusionFor(w, visited[0]) + ExclusionsFor(w, visited[1..])
  }

  lemma {:induction false} RecordsConcat(w: World, a: seq<Text>, b: seq<Text>)
    ensures EntriesFor(w, a + b) == EntriesFor(w, a) + EntriesFor(w, b)
    ensures ExclusionsFor(w, a + b) == ExclusionsFor(w, a) + ExclusionsFor(w, b)
  {
    hide EntryFor, ExclusionFor;
    if a == [] {
      assert a + b == b;
    } else {
      assert (a + b)[1..] == a[1..] + b;
      RecordsConcat(w, a[1..], b);
    }
  }

  lemma {:induction false} RecordsOne(w: World, path: Text)
    ensures EntriesFor(w, [path]) == EntryFor(w, path) && ExclusionsFor(w, [path]) == ExclusionFor(w, path)
    ensures EntriesFor(w, []) == [] && ExclusionsFor(w, []) == []
  {
    hide EntryFor, ExclusionFor;
    assert [path][1..] == [];
  }

  /** Every member once. */
  ghost predicate Visits(visited: seq<Text>, members: set<Text>) {
    && (forall i, j :: 0 <= i < j < |visited| ==> visited[i] != visited[j])
    && forall p :: p in visited <==> p in members
  }

  lemma {:induction false} VisitsConcat(a: seq<Text>, b: seq<Text>, first: set<Text>, second: set<Text>)
    requires Visits(a, first) && Visits(b, second) && first !! second
    ensures Visits(a + b, first + second)
  {
    forall i, j | 0 <= i < j < |a + b| ensures (a + b)[i] != (a + b)[j] {
      if i < |a| <= j {
        assert (a + b)[i] in a && (a + b)[j] in b;
      }
    }
  }

  // ----- branches -----

  /** A path is in a child's branch when it is the child or beneath it. */
  ghost predicate InBranch(path: Text, child: Text) {
    path == child || Ancestor(child, path)
  }

  ghost function Children(tree: Tree, dir: Text): set<Text> {
    set p | p in tree && ParentOf(p) == dir
  }

  lemma ChildUnder(tree: Tree, dir: Text, child: Text)
    requires WellFormed(tree) && child in Children(tree, dir)
    ensures Under(child, dir)
    ensures forall a :: Ancestor(a, child) ==> !Under(a, dir)
    ensures |child| > |dir|
  {
    ParentIsAncestor(child);
    assert NameStart(child) > 0 ==> ParentOf(child) != [];
  }

  /** Everything beneath a directory is in the branch of one of its children. */
  lemma {:induction false} SomeBranch(tree: Tree, dir: Text, path: Text) returns (child: Text)
    requires WellFormed(tree) && path in tree && Under(path, dir)
    ensures child in Children(tree, dir) && InBranch(path, child)
    decreases |path|
  {
    ParentIsAncestor(path);
    var parent := ParentOf(path);
    if parent == dir {
      child := path;
    } else if NameStart(path) == 0 {
      child := path;
      assert false;
    } else {
      assert Ancestor(parent, path);
      child := SomeBranch(tree, dir, parent);
      if child != parent { AncestorTrans(child, parent, path); }
    }
  }

  /** And of only one. */
  lemma {:induction false} OneBranch(tree: Tree, dir: Text, path: Text, a: Text, b: Text)
    requires WellFormed(tree) && a in Children(tree, dir) && b in Children(tree, dir)
    requires InBranch(path, a) && InBranch(path, b)
    ensures a == b
  {
    assert a == path[..|a|] && b == path[..|b|];
    if |a| != |b| {
      var short, long := if |a| < |b| then a else b, if |a| < |b| then b else a;
      if long != path { AncestorsNest(short, long, path); }
      ChildUnder(tree, dir, long);
      ChildUnder(tree, dir, short);
    }
  }

  /** Beneath a child, what is reached from the directory is what is reached from the child, unless it is ignored. */
  lemma {:induction false} ReachedBelow(w: World, dir: Text, child: Text, path: Text)
    requires WellFormed(w.tree) && child in Children(w.tree, dir) && Ancestor(child, path)
    ensures Reached(w, dir, path) <==> !Hides(w, child) && Reached(w, child, path)
  {
    ChildUnder(w.tree, dir, child);
    if dir != [] { AncestorTrans(dir, child, path); }
    if Reached(w, dir, path) {
      forall a | Ancestor(a, path) && Under(a, child) ensures !Hides(w, a) {
        assert child != [] ==> Ancestor(child, a);
        if dir != [] && child != [] { AncestorTrans(dir, child, a); }
      }
    }
    if !Hides(w, child) && Reached(w, child, path) {
      forall a | Ancestor(a, path) && Under(a, dir) ensures !Hides(w, a) {
        if |a| < |child| {
          AncestorsNest(a, child, path);
        } else if |a| == |child| {
          assert a == child;
        } else {
          AncestorsNest(child, a, path);
        }
      }
    }
  }

  ghost function Branch(w: World, dir: Text, child: Text): set<Text> {
    set p | p in w.tree && Reached(w, dir, p) && InBranch(p, child)
  }

  lemma {:induction false} BranchIs(w: World, dir: Text, child: Text)
    requires WellFormed(w.tree) && child in Children(w.tree, dir)
    ensures Branch(w, dir, child) ==
      {child} + if Hides(w, child) || !w.tree[child].Dir? then {} else ReachedIn(w, child)
    ensures child !in ReachedIn(w, child)
  {
    hide WellFormed, Reached, Hides;
    ChildUnder(w.tree, dir, child);
    ChildReached(w, dir, child);
    forall p ensures p in Branch(w, dir, child) <==>
      p in {child} + if Hides(w, child) || !w.tree[child].Dir? then {} else ReachedIn(w, child)
    {
      if p != child { BelowChild(w, dir, child, p); }
    }
  }

  /** A child is reached itself, but not from itself. */
  lemma {:induction false} ChildReached(w: World, dir: Text, child: Text)
    requires WellFormed(w.tree) && child in Children(w.tree, dir)
    ensures child in Branch(w, dir, child) && child !in ReachedIn(w, child)
  {
    hide Hides;
    ChildUnder(w.tree, dir, child);
  }

  /** Beneath a child is reached what is reached from it, unless it is hidden. */
  lemma {:induction false} BelowChild(w: World, dir: Text, child: Text, p: Text)
    requires WellFormed(w.tree) && child in Children(w.tree, dir) && p != child
    ensures p in Branch(w, dir, child) <==> !Hides(w, child) && w.tree[child].Dir? && p in ReachedIn(w, child)
  {
    hide Hides;
    ChildUnder(w.tree, dir, child);
    if p in w.tree && Ancestor(child, p) {
      ReachedBelow(w, dir, child, p);
      assert w.tree[child].Dir?;
    }
  }

  // ----- the walk -----

  /** What the children up to an index account for. */
  ghost function Accounted(w: World, dir: Text, children: seq<Text>, n: nat): set<Text>
    requires n <= |children|
  {
    if n == 0 then {} else Accounted(w, dir, children, n - 1) + Branch(w, dir, children[n - 1])
  }

  lemma {:induction false} AccountedMeans(w: World, dir: Text, children: seq<Text>, n: nat, p: Text)
    requires n <= |children|
    ensures p in Accounted(w, dir, children, n) <==> exists i :: 0 <= i < n && p in Branch(w, dir, children[i])
  {
    hide Branch;
    if n > 0 { AccountedMeans(w, dir, children, n - 1, p); }
  }

  /** Branches do not overlap. */
  lemma {:induction false} BranchesApart(w: World, dir: Text, children: seq<Text>, n: nat)
    requires WellFormed(w.tree) && Lists(children, Children(w.tree, dir)) && n < |children|
    ensures Accounted(w, dir, children, n) !! Branch(w, dir, children[n])
  {
    hide WellFormed, Reached, Less;
    forall p | p in Branch(w, dir, children[n]) ensures p !in Accounted(w, dir, children, n) {
      AccountedMeans(w, dir, children, n, p);
      forall i | 0 <= i < n ensures p !in Branch(w, dir, children[i]) {
        assert children[i] in children && children[n] in children;
        if p in Branch(w, dir, children[i]) {
          OneBranch(w.tree, dir, p, children[i], children[n]);
          StrictlySortedDistinct(children, i, n);
        }
      }
    }
  }

  /** All children together account for everything reached. */
  lemma {:induction false} BranchesTogether(w: World, dir: Text, children: seq<Text>)
    requires WellFormed(w.tree) && Lists(children, Children(w.tree, dir))
    ensures Accounted(w, dir, children, |children|) == ReachedIn(w, dir)
  {
    hide WellFormed, Less;
    forall p ensures p in Accounted(w, dir, children, |children|) <==> p in ReachedIn(w, dir) {
      AccountedMeans(w, dir, children, |children|, p);
      if p in ReachedIn(w, dir) {
        var child := SomeBranch(w.tree, dir, p);
        assert child in children;
        var i :| 0 <= i < |children| && children[i] == child;
        assert p in Branch(w, dir, children[i]);
      }
    }
  }

  ghost function Below(tree: Tree, dir: Text): set<Text> {
    set p | p in tree && Under(p, dir)
  }

  lemma {:induction false} BelowShrinks(tree: Tree, dir: Text, child: Text)
    requires WellFormed(tree) && child in Children(tree, dir)
    ensures Below(tree, child) < Below(tree, dir)
  {
    ChildUnder(tree, dir, child);
    forall p | p in Below(tree, child) ensures p in Below(tree, dir) {
      if dir != [] { AncestorTrans(dir, child, p); }
    }
    assert child in Below(tree, dir) && child !in Below(tree, child);
  }

  class Scanner {
    const w: World
    var entries: seq<Entry>
    var exclusions: seq<Exclusion>

    constructor (w: World)
      ensures this.w == w && entries == [] && exclusions == []
    {
      this.w := w;
      entries, exclusions := [], [];
    }

    /** The first ignore pattern that matches, as the policy lists them. */
    method FindPattern(path: Text) returns (pattern: Option<Text>)
      ensures pattern.Some? <==> Hides(w, path)
      ensures pattern.Some? ==> pattern.value == FirstPattern(w, path)
    {
      hide Matches, Tokens;
      for i := 0 to |w.options.ignore|
        invariant forall j :: 0 <= j < i ==> !Matches(Tokens(w.options.ignore[j]), path)
        invariant Hides(w, path) ==> FirstPattern(w, path) == FirstMatch(w.options.ignore, path, i)
      {
        var matched := GlobMatches(w.options.ignore[i], path);
        if matched {
          return Some(w.options.ignore[i]);
        }
      }
      return None;
    }

    /**
     * Walks one directory. It succeeds when every path it reaches can be dealt with, and then each of
     * them is recorded, or visibly left out, exactly once.
     */
    method ScanDirectory(dir: Text) returns (error: Option<ScanError>, ghost visited: seq<Text>)
      requires WellFormed(w.tree)
      modifies this`entries, this`exclusions
      ensures error.None? <==> Clean(w, ReachedIn(w, dir))
      ensures error.None? ==> Visits(visited, ReachedIn(w, dir))
      ensures error.None? ==> entries == old(entries) + EntriesFor(w, visited)
      ensures error.None? ==> exclusions == old(exclusions) + ExclusionsFor(w, visited)
      decreases Below(w.tree, dir), 1
    {
      hide WellFormed, Clean, Hides, Reached, EntriesFor, ExclusionsFor, Visits, Branch, Less, Fine;
      var children := Listing(set p | p in w.tree && ParentOf(p) == dir);
      assert Lists(children, Children(w.tree, dir));
      BranchesTogether(w, dir, children);
      visited := [];
      RecordsOne(w, []);
      NothingVisited(w);
      for i := 0 to |children|
        invariant Clean(w, Accounted(w, dir, children, i)) && Visits(visited, Accounted(w, dir, children, i))
        invariant entries == old(entries) + EntriesFor(w, visited)
        invariant exclusions == old(exclusions) + ExclusionsFor(w, visited)
      {
        assert children[i] in children;
        BelowShrinks(w.tree, dir, children[i]);
        BranchesApart(w, dir, children, i);
        ghost var more;
        error, more := ScanChild(dir, children[i]);
        CleanJoins(w, Accounted(w, dir, children, i), Branch(w, dir, children[i]));
        AccountedGrows(w, dir, children, i + 1);
        if error.Some? {
          CleanWithin(w, Accounted(w, dir, children, i + 1), ReachedIn(w, dir));
          return;
        }
        VisitsConcat(visited, more, Accounted(w, dir, children, i), Branch(w, dir, children[i]));
        RecordsConcat(w, visited, more);
        visited := visited + more;
      }
      return None, visited;
    }

    /** One child with all that is beneath it. */
    method ScanChild(ghost dir: Text, child: Text) returns (error: Option<ScanError>, ghost visited: seq<Text>)
      requires WellFormed(w.tree) && child in Children(w.tree, dir)
      modifies this`entries, this`exclusions
      ensures error.None? <==> Clean(w, Branch(w, dir, child))
      ensures error.None? ==> Visits(visited, Branch(w, dir, child))
      ensures error.None? ==> entries == old(entries) + EntriesFor(w, visited)
      ensures error.None? ==> exclusions == old(exclusions) + ExclusionsFor(w, visited)
      decreases Below(w.tree, child), 3
    {
      hide WellFormed, Reached, EntriesFor, ExclusionsFor, Visits, Branch, Hides, ValidPath;
      BranchIs(w, dir, child);
      visited := [child];
      RecordsOne(w, child);
      OneVisited(child);
      CleanFirst(w, child, if Hides(w, child) || !w.tree[child].Dir? then {} else ReachedIn(w, child));
      if !w.utf8(child) {
        return Some(NonUtf8(child)), visited;
      }
      if !ValidPath(child) {
        return Some(InvalidPath(child)), visited;
      }
      var pattern := FindPattern(child);
      if pattern.Some? {
        exclusions := exclusions + [Exclusion(child, Ignored(pattern.value))];
        assert old(entries) + [] == old(entries) && {child} + {} == {child};
        return None, visited;
      }
      PathNotEmpty(child);
      error, visited := ScanEntry(child);
    }

    /** A child that no pattern hides. */
    method ScanEntry(path: Text) returns (error: Option<ScanError>, ghost visited: seq<Text>)
      requires WellFormed(w.tree) && path in w.tree && path != [] && w.utf8(path) && ValidPath(path) && !Hides(w, path)
      modifies this`entries, this`exclusions
      ensures error.None? <==> Fine(w, path) && (w.tree[path].Dir? ==> Clean(w, ReachedIn(w, path)))
      ensures error.None? ==> Visits(visited, {path} + if w.tree[path].Dir? then ReachedIn(w, path) else {})
      ensures error.None? ==> entries == old(entries) + EntriesFor(w, visited)
      ensures error.None? ==> exclusions == old(exclusions) + ExclusionsFor(w, visited)
      decreases Below(w.tree, path), 2
    {
      hide WellFormed, Reached, EntriesFor, ExclusionsFor, Visits, Hides, ValidPath, Clean;
      visited := [path];
      RecordsOne(w, path);
      OneVisited(path);
      assert {path} + {} == {path} && old(entries) + [] == old(entries) && old(exclusions) + [] == old(exclusions);
      match w.tree[path] {
        case Dir(mode) =>
          if !OwnerReads(mode) || !OwnerSearches(mode) {
            return Some(AccessDenied(path)), visited;
          }
          entries := entries + [Entry(path, Directory, mode)];
          ghost var below;
          error, below := ScanDirectory(path);
          if error.None? {
            NotBelowItself(w, path);
            VisitsConcat([path], below, {path}, ReachedIn(w, path));
            RecordsConcat(w, [path], below);
            visited := [path] + below;
          }
        case Regular(bytes, mode) =>
          if !OwnerReads(mode) {
            return Some(AccessDenied(path)), visited;
          }
          if |bytes| > w.options.maxFileSize {
            exclusions := exclusions + [Exclusion(path, TooLarge(|bytes|, w.options.maxFileSize))];
            return None, visited;
          }
          entries := entries + [Entry(path, File(w.hash(bytes), |bytes|, IsExecutable(mode)), mode)];
          return None, visited;
        case Link(target, mode) =>
          if !w.utf8(target) {
            return Some(NonUtf8(path)), visited;
          }
          entries := entries + [Entry(path, Symlink(target), mode)];
          return None, visited;
        case Special =>
          return Some(Unsupported(path)), visited;
      }
    }
  }

  lemma {:induction false} PathNotEmpty(path: Text)
    requires ValidPath(path)
    ensures path != []
  {
  }

  lemma {:induction false} NothingVisited(w: World)
    ensures Visits([], {}) && Clean(w, {})
  {
  }

  lemma {:induction false} OneVisited(path: Text)
    ensures Visits([path], {path})
  {
  }

  lemma {:induction false} NotBelowItself(w: World, path: Text)
    requires path != []
    ensures path !in ReachedIn(w, path)
  {
  }

  lemma {:induction false} AccountedGrows(w: World, dir: Text, children: seq<Text>, n: nat)
    requires n <= |children|
    ensures Accounted(w, dir, children, n) <= Accounted(w, dir, children, |children|)
    decreases |children| - n
  {
    if n < |children| { AccountedGrows(w, dir, children, n + 1); }
  }

  lemma {:induction false} CleanJoins(w: World, a: set<Text>, b: set<Text>)
    ensures Clean(w, a + b) <==> Clean(w, a) && Clean(w, b)
  {
    hide Fine;
  }

  lemma {:induction false} CleanWithin(w: World, a: set<Text>, b: set<Text>)
    requires a <= b
    ensures Clean(w, b) ==> Clean(w, a)
  {
    hide Fine;
  }

  lemma {:induction false} CleanFirst(w: World, path: Text, rest: set<Text>)
    requires path in w.tree
    ensures Clean(w, {path} + rest) <==> Fine(w, path) && Clean(w, rest)
  {
    hide Fine;
  }

  // ----- the report -----

  /** Everything the walk reaches and keeps. */
  ghost function KeptPaths(w: World): set<Text> {
    set p | p in w.tree && Reached(w, [], p) && !Hides(w, p) && !Oversized(w, p)
  }

  /** A manifest holds exactly what is kept. */
  ghost predicate Captures(w: World, entries: seq<Entry>) {
    && Canonical(entries)
    && forall e :: e in entries <==> exists p :: p in KeptPaths(w) && e == EntryAt(w, p)
  }

  lemma {:induction false} RecordedEntries(w: World, visited: seq<Text>)
    requires forall i, j :: 0 <= i < j < |visited| ==> visited[i] != visited[j]
    ensures DistinctKeys(PathOf(), EntriesFor(w, visited))
    ensures forall e :: e in EntriesFor(w, visited) <==>
      exists p :: p in visited && p in w.tree && !Hides(w, p) && !Oversized(w, p) && e == EntryAt(w, p)
  {
    hide Hides, Oversized, Kind;
    if visited != [] {
      RecordedEntries(w, visited[1..]);
      var rest := EntriesFor(w, visited[1..]);
      assert visited == [visited[0]] + visited[1..];
      forall i | 0 <= i < |rest| ensures rest[i].path != visited[0] {
        assert rest[i] in rest;
      }
    }
  }

  function ExclusionPath(): Exclusion -> Text { (e: Exclusion) => e.path }

  lemma {:induction false} KeptExactly(w: World, visited: seq<Text>)
    requires Visits(visited, ReachedIn(w, []))
    ensures forall e :: e in EntriesFor(w, visited) <==> exists p :: p in KeptPaths(w) && e == EntryAt(w, p)
    ensures DistinctKeys(PathOf(), EntriesFor(w, visited))
  {
    hide Hides, Oversized, EntryAt, EntriesFor, Reached;
    RecordedEntries(w, visited);
  }

  lemma {:induction false} PermutedMembers(a: seq<Entry>, b: seq<Entry>)
    requires multiset(a) == multiset(b)
    ensures forall e :: e in a <==> e in b
  {
    forall e ensures e in a <==> e in b {
      assert e in a <==> e in multiset(a);
      assert e in b <==> e in multiset(b);
    }
  }

  /** Every directory above a kept path is kept. */
  lemma {:induction false} KeptParents(w: World, entries: seq<Entry>)
    requires WellFormed(w.tree) && Captures(w, entries)
    ensures ParentsExist(entries)
  {
    hide Hides, Canonical;
    forall i, a | 0 <= i < |entries| && Ancestor(a, entries[i].path) ensures HasDirectory(entries, a) {
      assert entries[i] in entries;
      var p :| p in KeptPaths(w) && entries[i] == EntryAt(w, p);
      assert a in w.tree && w.tree[a].Dir?;
      forall b | Ancestor(b, a) && Under(b, []) ensures !Hides(w, b) { AncestorTrans(b, a, p); }
      assert a in KeptPaths(w);
      assert EntryAt(w, a) in entries;
    }
  }

  /**
   * A whole scan succeeds when everything reached can be dealt with, kept links have valid targets and
   * no two kept paths fold together; then the manifest holds exactly what is kept.
   */
  method ScanWorkspace(w: World, fold: Fold) returns (r: Result<seq<Entry>, ScanError>, exclusions: seq<Exclusion>)
    requires WellFormed(w.tree)
    ensures r.Success? ==> Clean(w, ReachedIn(w, [])) && Captures(w, r.value)
    ensures r.Success? ==> ValidEntries(r.value) && FoldDistinct(fold, r.value) && ParentsExist(r.value)
    ensures r.Failure? && Clean(w, ReachedIn(w, [])) ==> forall entries :: Captures(w, entries) ==>
      !ValidEntries(entries) || !FoldDistinct(fold, entries)
    ensures r.Success? ==> Ascending(ExclusionPath(), exclusions)
    ensures r.Success? ==> forall p :: p in ReachedIn(w, []) && p !in KeptPaths(w) <==> Excluded(exclusions, p)
  {
    hide WellFormed, Clean, ReachedIn, KeptPaths, EntryAt, EntriesFor, ExclusionsFor, ValidEntries, Canonical,
      FoldDistinct;
    hide ParentsExist, DistinctKeys, Less;
    exclusions := [];
    var scanner := new Scanner(w);
    var error, visited := scanner.ScanDirectory([]);
    if error.Some? {
      return Failure(error.value), exclusions;
    }
    KeptExactly(w, visited);
    assert scanner.entries == EntriesFor(w, visited) && scanner.exclusions == ExclusionsFor(w, visited);
    var manifest := NewManifest(scanner.entries);
    if manifest.Failure? {
      NoValidCapture(w, scanner.entries);
      return Failure(Manifest(manifest.error)), exclusions;
    }
    PermutedMembers(manifest.value, scanner.entries);
    assert Captures(w, manifest.value);
    ValidPermuted(manifest.value, scanner.entries);
    KeptParents(w, manifest.value);
    var defect := ValidateManifest(fold, manifest.value);
    OneCapture(w, manifest.value);
    if defect.Some? {
      return Failure(Shape(defect.value)), exclusions;
    }
    exclusions := Sort(ExclusionPath(), scanner.exclusions);
    SortAscending(ExclusionPath(), scanner.exclusions);
    SortMembers(ExclusionPath(), scanner.exclusions);
    ExcludedExactly(w, visited, exclusions);
    return Success(manifest.value), exclusions;
  }

  ghost predicate Excluded(exclusions: seq<Exclusion>, path: Text) {
    exists i :: 0 <= i < |exclusions| && exclusions[i].path == path
  }

  /** Nothing else can be captured from the same tree. */
  lemma {:induction false} OneCapture(w: World, entries: seq<Entry>)
    requires Captures(w, entries)
    ensures forall other :: Captures(w, other) ==> other == entries
  {
    hide KeptPaths, EntryAt, Less;
    forall other | Captures(w, other) ensures other == entries {
      forall e ensures e in other <==> e in entries {}
      SortedUnique(PathOf(), other, entries);
    }
  }

  lemma {:induction false} NoValidCapture(w: World, recorded: seq<Entry>)
    requires !ValidEntries(recorded)
    requires forall e :: e in recorded <==> exists p :: p in KeptPaths(w) && e == EntryAt(w, p)
    ensures forall entries :: Captures(w, entries) ==> !ValidEntries(entries)
  {
    hide KeptPaths, EntryAt, Canonical;
    var i :| 0 <= i < |recorded| && ValidateEntry(recorded[i]).Some?;
    assert recorded[i] in recorded;
    forall entries | Captures(w, entries) ensures !ValidEntries(entries) {
      assert recorded[i] in entries;
    }
  }

  lemma {:induction false} RecordedExclusions(w: World, visited: seq<Text>)
    ensures forall p :: (exists e :: e in ExclusionsFor(w, visited) && e.path == p) <==>
      p in visited && p in w.tree && (Hides(w, p) || Oversized(w, p))
  {
    hide Hides, Oversized, FirstPattern;
    if visited != [] {
      RecordedExclusions(w, visited[1..]);
      var first, rest := ExclusionFor(w, visited[0]), ExclusionsFor(w, visited[1..]);
      assert visited == [visited[0]] + visited[1..];
      forall p ensures (exists e :: e in ExclusionsFor(w, visited) && e.path == p) <==>
        p in visited && p in w.tree && (Hides(w, p) || Oversized(w, p))
      {
        if exists e :: e in ExclusionsFor(w, visited) && e.path == p {
          var e :| e in ExclusionsFor(w, visited) && e.path == p;
          assert e in first || e in rest;
        }
        if exists e :: e in rest && e.path == p {
          var e :| e in rest && e.path == p;
          assert e in ExclusionsFor(w, visited);
        }
        if p == visited[0] && first != [] {
          assert first[0] in ExclusionsFor(w, visited);
        }
      }
    }
  }

  lemma {:induction false} ExcludedExactly(w: World, visited: seq<Text>, exclusions: seq<Exclusion>)
    requires Visits(visited, ReachedIn(w, []))
    requires forall e :: e in exclusions <==> e in ExclusionsFor(w, visited)
    ensures forall p :: p in ReachedIn(w, []) && p !in KeptPaths(w) <==> Excluded(exclusions, p)
  {
    hide Hides, Oversized, ExclusionsFor, Reached;
    RecordedExclusions(w, visited);
    forall p ensures p in ReachedIn(w, []) && p !in KeptPaths(w) <==> Excluded(exclusions, p) {
      if Excluded(exclusions, p) {
        var i :| 0 <= i < |exclusions| && exclusions[i].path == p;
        assert exclusions[i] in exclusions;
      }
      if exists e :: e in ExclusionsFor(w, visited) && e.path == p {
        var e :| e in ExclusionsFor(w, visited) && e.path == p;
        assert e in exclusions;
      }
    }
  }
}
