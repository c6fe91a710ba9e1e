/** Snapshot paths, entries and canonical manifests. */
module Snapshots {
  import opened Bytes
  import opened Digests
  import opened Sorting
  import opened Wrappers

  const MAX_PATH_BYTES := 4096
  const DOT: Byte := 46
  const BACKSLASH: Byte := 92

  /** The pieces between slashes, as `split('/')` yields them: always at least one. */
  function Components(path: Text): (parts: seq<Text>)
    ensures parts != []
  {
    if path == [] then [[]]
    else
      var rest := Components(path[1..]);
      if path[0] == SLASH then [[]] + rest else [[path[0]] + rest[0]] + rest[1..]
  }

  lemma {:induction false} ComponentsWhole(t: Text)
    requires SLASH !in t
    ensures Components(t) == [t]
  {
    if t != [] {
      ComponentsWhole(t[1..]);
      assert t == [t[0]] + t[1..];
    }
  }

  lemma {:induction false} ComponentsJoin(a: Text, b: Text)
    requires SLASH !in a
    ensures Components(a + [SLASH] + b) == [a] + Components(b)
  {
    var path := a + [SLASH] + b;
    if a == [] {
      assert path[1..] == b;
    } else {
      assert path[1..] == a[1..] + [SLASH] + b && path[0] == a[0];
      ComponentsJoin(a[1..], b);
      assert [a[0]] + a[1..] == a;
    }
  }

  /** A path that ends in a slash has an empty last component. */
  lemma {:induction false} TrailingSlash(path: Text)
    requires path != [] && path[|path| - 1] == SLASH
    ensures |Components(path)| > 1 && Components(path)[|Components(path)| - 1] == []
  {
    if |path| == 1 {
      assert path[1..] == [] && Components([]) == [[]];
    } else {
      TrailingSlash(path[1..]);
    }
  }

  predicate SafeComponent(part: Text) {
    part != [] && part != [DOT] && part != [DOT, DOT]
  }

  /** The rules shared by snapshot paths and archive paths. */
  predicate ValidPath(path: Text) {
    && path != [] && |path| <= MAX_PATH_BYTES
    && path[0] != SLASH && 0 !in path && BACKSLASH !in path
    && forall part :: part in Components(path) ==> SafeComponent(part)
  }

  // ----- where a path leads -----

  /**
   * Following the pieces of a path from a root, as an operating system does: an empty piece and a dot stay,
   * two dots climb, and anything else descends. Nothing is left of a walk that climbs above its root.
   */
  function Followed(place: seq<Text>, parts: seq<Text>): Option<seq<Text>>
    decreases |parts|
  {
    if parts == [] then Some(place)
    else if parts[0] == [] || parts[0] == [DOT] then Followed(place, parts[1..])
    else if parts[0] == [DOT, DOT] then
      if place == [] then None else Followed(place[..|place| - 1], parts[1..])
    else Followed(place + [parts[0]], parts[1..])
  }

  lemma {:induction false} FollowedDepth(place: seq<Text>, parts: seq<Text>)
    ensures Followed(place, parts).Some? ==> |Followed(place, parts).value| <= |place| + |parts|
    ensures Followed(place, parts).Some? && |Followed(place, parts).value| == |place| + |parts| ==>
      forall i :: 0 <= i < |parts| ==> SafeComponent(parts[i])
    ensures (forall i :: 0 <= i < |parts| ==> SafeComponent(parts[i])) ==> Followed(place, parts) == Some(place + parts)
    decreases |parts|
  {
    if parts == [] {
      assert place + parts == place;
    } else {
      FollowedDepth(place, parts[1..]);
      if place != [] { FollowedDepth(place[..|place| - 1], parts[1..]); }
      FollowedDepth(place + [parts[0]], parts[1..]);
      assert place + [parts[0]] + parts[1..] == place + parts;
      assert parts == [parts[0]] + parts[1..];
    }
  }

  /**
   * Apart from its length and its bytes, a path is valid exactly when following it descends once for every
   * piece: it never stays, never climbs, and so ends strictly beneath the root it starts from.
   */
  lemma {:induction false} ValidPathDescends(path: Text)
    ensures ValidPath(path) <==>
      && |path| <= MAX_PATH_BYTES && 0 !in path && BACKSLASH !in path
      && Followed([], Components(path)) == Some(Components(path))
  {
    var parts := Components(path);
    FollowedDepth([], parts);
    assert [] + parts == parts;
    if path == [] {
      assert Components(path) == [[]] && !SafeComponent(parts[0]);
    } else if path[0] == SLASH {
      assert parts == [[]] + Components(path[1..]) && !SafeComponent(parts[0]);
    }
  }

  /** Every beginning of the walk along a valid path stays within the root, too. */
  lemma {:induction false} ValidPathStaysWithin(path: Text, n: nat)
    requires ValidPath(path) && n <= |Components(path)|
    ensures Followed([], Components(path)[..n]) == Some(Components(path)[..n])
  {
    FollowedDepth([], Components(path)[..n]);
    assert [] + Components(path)[..n] == Components(path)[..n];
  }

  type Permissions = bv12

  predicate IsExecutable(mode: Permissions) { mode & 0x49 != 0 }

  datatype EntryKind =
    | Directory
    | File(objectId: Digest, size: nat, executable: bool)
    | Symlink(target: Text)

  datatype Entry = Entry(path: Text, kind: EntryKind, permissions: Permissions)

  datatype EntryError = ExecutableBitMismatch | EmptySymlinkTarget | NulSymlinkTarget | SymlinkTargetTooLong

  function ValidateEntry(entry: Entry): Option<EntryError> {
    match entry.kind
    case Directory => None
    case File(_, _, executable) =>
      if executable != IsExecutable(entry.permissions) then Some(ExecutableBitMismatch) else None
    case Symlink(target) =>
      if target == [] then Some(EmptySymlinkTarget)
      else if 0 in target then Some(NulSymlinkTarget)
      else if |target| > MAX_PATH_BYTES then Some(SymlinkTargetTooLong)
      else None
  }

  /** What an acceptable entry is, said without naming its defects. */
  lemma ValidEntryExactly(entry: Entry)
    ensures ValidateEntry(entry).None? <==>
      match entry.kind
      case Directory => true
      case File(_, _, executable) =>
        executable <==> entry.permissions & 1 != 0 || entry.permissions & 8 != 0 || entry.permissions & 64 != 0
      case Symlink(target) => 0 < |target| <= MAX_PATH_BYTES && forall i :: 0 <= i < |target| ==> target[i] != 0
    ensures match ValidateEntry(entry)
      case None => true
      case Some(ExecutableBitMismatch) => entry.kind.File?
      case Some(EmptySymlinkTarget) => entry.kind == Symlink([])
      case Some(NulSymlinkTarget) => entry.kind.Symlink? && 0 in entry.kind.target
      case Some(SymlinkTargetTooLong) => entry.kind.Symlink? && |entry.kind.target| > MAX_PATH_BYTES
  {
  }

  function PathOf(): Entry -> Text { (entry: Entry) => entry.path }

  ghost predicate Canonical(entries: seq<Entry>) {
    SortedBy(PathOf(), entries)
  }

  ghost predicate ValidEntries(entries: seq<Entry>) {
    forall i :: 0 <= i < |entries| ==> ValidateEntry(entries[i]).None?
  }

  datatype ManifestError =
    | InvalidEntry(path: Text, cause: EntryError)
    | DuplicatePath(path: Text)
    | NonCanonicalOrder(index: nat)

  /** The defect found at one index, where the entry before it is already accepted. */
  function DefectAt(entries: seq<Entry>, index: nat): Option<ManifestError>
    requires index < |entries|
  {
    var entry := entries[index];
    if ValidateEntry(entry).Some? then Some(InvalidEntry(entry.path, ValidateEntry(entry).value))
    else if index > 0 && entries[index - 1].path == entry.path then Some(DuplicatePath(entry.path))
    else if index > 0 && Less(entry.path, entries[index - 1].path) then Some(NonCanonicalOrder(index))
    else None
  }

  /** What each rejection says about the entry at its index. */
  lemma DefectMeans(entries: seq<Entry>, index: nat)
    requires index < |entries| && DefectAt(entries, index).Some?
    ensures match DefectAt(entries, index).value
      case InvalidEntry(path, cause) => path == entries[index].path && ValidateEntry(entries[index]) == Some(cause)
      case DuplicatePath(path) => index > 0 && entries[index - 1].path == path == entries[index].path
      case NonCanonicalOrder(at) =>
        at == index && index > 0 && Less(entries[index].path, entries[index - 1].path)
  {
  }

  /**
   * Only neighbours are compared, yet acceptance means every pair is in strict order. A rejection
   * reports the first index with a defect.
   */
  method FromCanonicalEntries(entries: seq<Entry>) returns (r: Result<seq<Entry>, ManifestError>)
    ensures r.Success? <==> ValidEntries(entries) && Canonical(entries)
    ensures r.Success? ==> r.value == entries
    ensures r.Failure? ==> exists i :: 0 <= i < |entries| && DefectAt(entries, i) == Some(r.error)
                                       && forall j :: 0 <= j < i ==> DefectAt(entries, j).None?
  {
    for index := 0 to |entries|
      invariant forall j :: 0 <= j < index ==> DefectAt(entries, j).None?
      invariant ValidEntries(entries[..index]) && Canonical(entries[..index])
    {
      var entry := entries[index];
      var cause := ValidateEntry(entry);
      if cause.Some? {
        assert DefectAt(entries, index) == Some(InvalidEntry(entry.path, cause.value));
        return Failure(InvalidEntry(entry.path, cause.value));
      }
      if index > 0 {
        var previous := entries[index - 1];
        if previous.path == entry.path || Less(entry.path, previous.path) {
          assert Canonical(entries) ==> Less(Keys(PathOf(), entries)[index - 1], Keys(PathOf(), entries)[index]);
          if previous.path == entry.path {
            LessIrreflexive(entry.path);
            assert DefectAt(entries, index) == Some(DuplicatePath(entry.path));
            return Failure(DuplicatePath(entry.path));
          }
          LessAsymmetric(entry.path, previous.path);
          assert DefectAt(entries, index) == Some(NonCanonicalOrder(index));
          return Failure(NonCanonicalOrder(index));
        }
        LessTotal(previous.path, entry.path);
      }
      StrictlySortedAppend(Keys(PathOf(), entries[..index]), entry.path);
      assert entries[..index + 1] == entries[..index] + [entry];
      assert Keys(PathOf(), entries[..index + 1]) == Keys(PathOf(), entries[..index]) + [entry.path];
    }
    assert entries[..|entries|] == entries;
    return Success(entries);
  }

  /** Sorting makes a manifest of any valid entries whose paths are distinct, and of nothing else. */
  method NewManifest(entries: seq<Entry>) returns (r: Result<seq<Entry>, ManifestError>)
    ensures r.Success? <==> ValidEntries(entries) && DistinctKeys(PathOf(), entries)
    ensures r.Success? ==> Canonical(r.value) && multiset(r.value) == multiset(entries)
  {
    var sorted := Sort(PathOf(), entries);
    SortAscending(PathOf(), entries);
    SortPermutes(PathOf(), entries);
    AscendingDistinct(PathOf(), sorted);
    if DistinctKeys(PathOf(), entries) {
      PermutedDistinct(PathOf(), entries, sorted);
    } else if DistinctKeys(PathOf(), sorted) {
      PermutedDistinct(PathOf(), sorted, entries);
    }
    ValidPermuted(entries, sorted);
    r := FromCanonicalEntries(sorted);
  }

  lemma ValidPermuted(a: seq<Entry>, b: seq<Entry>)
    requires multiset(a) == multiset(b)
    ensures ValidEntries(a) <==> ValidEntries(b)
  {
    forall i | 0 <= i < |a| ensures a[i] in b { assert a[i] in multiset(b); }
    forall i | 0 <= i < |b| ensures b[i] in a { assert b[i] in multiset(a); }
  }
}
