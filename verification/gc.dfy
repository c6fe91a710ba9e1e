/** Garbage collection: a paged merge-join that deletes from the table it is walking. */
module Collection {
  import opened Bytes
  import opened Digests
  import opened KeyPages
  import opened Sorting
  import opened Wrappers

  const MAX_OBJECT_PAGE := 10_000
  const REPORT_SAMPLE_LIMIT := 1_000

  // ----- paths below the object root -----

  /** The fan-out path of an object: two digits, a slash, the remaining digits. */
  function RelativePath(id: Digest): (path: Text)
    ensures |path| == 65
  {
    Hex(id)[..2] + [SLASH] + Hex(id)[2..]
  }

  lemma {:induction false} RelativePathInjective(a: Digest, b: Digest)
    requires RelativePath(a) == RelativePath(b)
    ensures a == b
  {
    hide Hex;
    var p, q := RelativePath(a), RelativePath(b);
    assert p[..2] == Hex(a)[..2] && q[..2] == Hex(b)[..2] && p[3..] == Hex(a)[2..] && q[3..] == Hex(b)[2..];
    assert Hex(a) == p[..2] + p[3..] && Hex(b) == q[..2] + q[3..];
    HexInjective(a, b);
  }

  predicate AllDigits(t: Text) { forall i :: 0 <= i < |t| ==> 48 <= t[i] < 58 }

  predicate AllHex(t: Text) { forall i :: 0 <= i < |t| ==> IsHexDigit(t[i]) }

  const TEMPORARY_PREFIX: Text := Ascii(".tmp-")
  const DASH: Byte := 45

  /** `.tmp-<digits>-<digits>`, both runs of digits non-empty. */
  ghost predicate TemporaryName(name: Text) {
    exists pid: Text, sequence: Text ::
      pid != [] && sequence != [] && AllDigits(pid) && AllDigits(sequence)
      && name == TEMPORARY_PREFIX + pid + [DASH] + sequence
  }

  ghost predicate TemporaryPath(path: Text) {
    |path| > 3 && AllHex(path[..2]) && path[2] == SLASH && TemporaryName(path[3..])
  }

  datatype OrphanKind = OfObject(id: Digest) | Temporary

  /** The name of a temporary file is recognised by splitting at its first dash. */
  method RecognizeTemporary(name: Text) returns (r: bool)
    ensures r <==> TemporaryName(name)
  {
    if |name| < 5 || name[..5] != TEMPORARY_PREFIX {
      TemporaryStarts(name);
      return false;
    }
    var rest := name[5..];
    var at := 0;
    while at < |rest| && rest[at] != DASH
      invariant 0 <= at <= |rest| && forall i :: 0 <= i < at ==> rest[i] != DASH
    {
      at := at + 1;
    }
    FirstDash(name, at);
    if at == |rest| {
      return false;
    }
    var pid, sequence := rest[..at], rest[at + 1..];
    r := pid != [] && sequence != [] && AllDigits(pid) && AllDigits(sequence);
    assert name == TEMPORARY_PREFIX + pid + [DASH] + sequence;
  }

  lemma {:induction false} TemporaryStarts(name: Text)
    ensures TemporaryName(name) ==> |name| >= 5 && name[..5] == TEMPORARY_PREFIX
  {
  }

  lemma {:induction false} FirstDash(name: Text, at: nat)
    requires |name| >= 5 && at <= |name[5..]|
    requires forall i :: 0 <= i < at ==> name[5..][i] != DASH
    requires at < |name[5..]| ==> name[5..][at] == DASH
    ensures TemporaryName(name) ==>
      at < |name[5..]| && name[5..][..at] != [] && name[5..][at + 1..] != []
      && AllDigits(name[5..][..at]) && AllDigits(name[5..][at + 1..])
  {
    var rest := name[5..];
    if TemporaryName(name) {
      var pid, sequence: Text :| pid != [] && sequence != [] && AllDigits(pid) && AllDigits(sequence)
                                 && name == TEMPORARY_PREFIX + pid + [DASH] + sequence;
      assert rest == pid + [DASH] + sequence;
      assert rest[|pid|] == DASH;
      forall i | 0 <= i < |pid| ensures rest[i] != DASH { assert rest[i] == pid[i]; }
      assert at == |pid|;
      assert rest[..at] == pid && rest[at + 1..] == sequence;
    }
  }

  /** What an enumerated file is, judged by its name alone. */
  method Recognize(path: Text) returns (kind: Option<OrphanKind>)
    ensures kind.Some? && kind.value.OfObject? ==> path == RelativePath(kind.value.id)
    ensures kind == Some(Temporary) <==> TemporaryPath(path)
    ensures kind.None? || kind.value.Temporary? ==> forall id: Digest :: path != RelativePath(id)
  {
    hide Hex;
    if |path| <= 3 || !AllHex(path[..2]) || path[2] != SLASH {
      NotObject(path);
      return None;
    }
    var prefix, name := path[..2], path[3..];
    if |name| == 62 && AllHex(name) {
      var parsed := ParseDigest(prefix + name);
      if parsed.Failure? {
        var bad := prefix + name;
        assert forall i :: 0 <= i < 64 ==> IsHexDigit(bad[i]);
        assert false;
      }
      var id := parsed.value;
      assert Hex(id)[..2] == prefix && Hex(id)[2..] == name;
      assert path == RelativePath(id);
      ObjectNotTemporary(id);
      return Some(OfObject(id));
    }
    NotObject(path);
    var temporary := RecognizeTemporary(name);
    return if temporary then Some(Temporary) else None;
  }

  lemma {:induction false} NotObject(path: Text)
    requires |path| <= 3 || !AllHex(path[..2]) || path[2] != SLASH || |path[3..]| != 62 || !AllHex(path[3..])
    ensures forall id: Digest :: path != RelativePath(id)
  {
    hide Hex;
    forall id: Digest ensures path != RelativePath(id) {
      HexDigits(id);
      var p := RelativePath(id);
      assert p[..2] == Hex(id)[..2] && p[3..] == Hex(id)[2..] && AllHex(p[..2]) && AllHex(p[3..]);
    }
  }

  lemma {:induction false} ObjectNotTemporary(id: Digest)
    ensures !TemporaryPath(RelativePath(id))
  {
    hide Hex;
    HexDigits(id);
    var p := RelativePath(id);
    var name := p[3..];
    assert name == Hex(id)[2..];
    assert name[..5][0] == name[0] && IsHexDigit(name[0]);
    TemporaryStarts(name);
  }

  // ----- the report -----

  /** The counters of one phase. */
  datatype Tally = Tally(found: nat, bytes: nat, deleted: nat, reclaimed: nat, sample: seq<Text>, truncated: bool)

  const EmptyTally := Tally(0, 0, 0, 0, [], false)

  /** `saturating_add` stops at the largest unsigned value. */
  function Capped(n: nat): nat { Saturated(n, U64_LIMIT) }

  function Counted(t: Tally, key: Text, size: nat): Tally {
    var more := t.(found := Capped(t.found + 1), bytes := Capped(t.bytes + size));
    if |t.sample| < REPORT_SAMPLE_LIMIT then more.(sample := t.sample + [key]) else more.(truncated := true)
  }

  function Reclaimed(t: Tally, size: nat): Tally {
    t.(deleted := Capped(t.deleted + 1), reclaimed := Capped(t.reclaimed + size))
  }

  function Recorded(t: Tally, key: Text, size: nat, delete: bool): Tally {
    if delete then Reclaimed(Counted(t, key, size), size) else Counted(t, key, size)
  }

  function Sum(sizes: seq<nat>): nat {
    if sizes == [] then 0 else Sum(sizes[..|sizes| - 1]) + sizes[|sizes| - 1]
  }

  /** The counters describe the listed keys, of which the sample is the beginning. */
  ghost predicate Tallied(t: Tally, keys: seq<Text>, sizes: seq<nat>, delete: bool) {
    && |keys| == |sizes|
    && t.found == Capped(|keys|) && t.bytes == Capped(Sum(sizes))
    && t.deleted == (if delete then t.found else 0) && t.reclaimed == (if delete then t.bytes else 0)
    && t.sample == keys[..if |keys| < REPORT_SAMPLE_LIMIT then |keys| else REPORT_SAMPLE_LIMIT]
    && (t.truncated <==> |keys| > REPORT_SAMPLE_LIMIT)
  }

  lemma {:induction false} TallyNext(t: Tally, keys: seq<Text>, sizes: seq<nat>, delete: bool, key: Text, size: nat)
    requires Tallied(t, keys, sizes, delete)
    ensures Tallied(Recorded(t, key, size, delete), keys + [key], sizes + [size], delete)
  {
    assert (sizes + [size])[..|sizes|] == sizes;
    if |keys| < REPORT_SAMPLE_LIMIT {
      assert (keys + [key])[..|keys| + 1] == keys[..|keys|] + [key];
    } else {
      assert (keys + [key])[..REPORT_SAMPLE_LIMIT] == keys[..REPORT_SAMPLE_LIMIT];
    }
  }

  // ----- the store as the collector sees it -----

  datatype Node = Node(regular: bool, size: nat)

  datatype GcError = Database | Io | NotFound(id: Digest) | Referenced(id: Digest)

  /** The size of an object's file; a missing file counts as nothing. */
  function PhysicalSize(tree: map<Text, Node>, id: Digest): nat {
    if RelativePath(id) in tree then tree[RelativePath(id)].size else 0
  }

  ghost predicate OrphanPath(tree: map<Text, Node>, rows: set<Digest>, path: Text) {
    && path in tree && tree[path].regular
    && (TemporaryPath(path) || exists id: Digest :: path == RelativePath(id) && id !in rows)
  }

  /** The crash artifacts: recognised regular files that no row accounts for. */
  ghost function Orphans(tree: map<Text, Node>, rows: set<Digest>): set<Text> {
    set path | path in tree && OrphanPath(tree, rows, path)
  }

  datatype Orphan = Orphan(path: Text, kind: OrphanKind, size: nat)

  /** The identities of a table as the database stores them. */
  function HexTexts(ids: set<Digest>): set<Text> { set id | id in ids :: Hex(id) }

  /** A query without a cursor starts after the empty text. */
  function CursorText(cursor: Option<Digest>): Text { if cursor.None? then [] else Hex(cursor.value) }

  /** The texts of a query are the identities it selects, and their order is the order of the bytes. */
  lemma {:induction false} TextPage(
    ids: set<Digest>, cursor: Option<Digest>, texts: seq<Text>, hasMore: bool, page: seq<Digest>, limit: nat)
    requires NextKeys(texts, hasMore, HexTexts(ids), Some(CursorText(cursor)), limit)
    requires |page| == |texts| && forall i :: 0 <= i < |page| ==> Hex(page[i]) == texts[i]
    ensures NextKeys(page, hasMore, ids, cursor, limit)
  {
    hide Hex, Less;
    forall i | 0 <= i < |texts| ensures texts[i] in HexTexts(ids) && Above(Some(CursorText(cursor)), texts[i]) {
      assert texts[i] in texts;
    }
    var all, from := HexTexts(ids), Some(CursorText(cursor));
    forall i, j | 0 <= i < j < |page| ensures Less(page[i], page[j]) {
      HexKeepsOrder(page[i], page[j]);
    }
    forall id: Digest ensures Above(from, Hex(id)) <==> Above(cursor, id) {
      if cursor.Some? { HexKeepsOrder(cursor.value, id); } else { EmptyFirst(Hex(id)); }
    }
    forall k | k in page ensures k in ids && Above(cursor, k) {
      var i :| 0 <= i < |page| && page[i] == k;
      assert texts[i] in texts;
      var id :| id in ids && Hex(id) == texts[i];
      HexInjective(id, k);
    }
    forall id | id in ids && Above(cursor, id) ensures id in page || (hasMore && Less(page[|page| - 1], id)) {
      assert Hex(id) in all;
      if Hex(id) in texts {
        var i :| 0 <= i < |texts| && texts[i] == Hex(id);
        HexInjective(page[i], id);
      } else {
        HexKeepsOrder(page[|page| - 1], id);
      }
    }
    if hasMore {
      var text :| text in all && Less(texts[|texts| - 1], text);
      var id :| id in ids && Hex(id) == text;
      HexKeepsOrder(page[|page| - 1], id);
    }
  }

  lemma {:induction false} EmptyFirst(t: Text)
    ensures Less([], t) <==> t != []
  {
  }

  function OrphanPaths(page: seq<Orphan>): (paths: seq<Text>)
    ensures |paths| == |page|
    ensures forall i :: 0 <= i < |page| ==> paths[i] == page[i].path
  {
    seq(|page|, i requires 0 <= i < |page| => page[i].path)
  }

  /** A listed artifact describes its file. */
  ghost predicate OrphanRecord(tree: map<Text, Node>, rows: set<Digest>, orphan: Orphan) {
    && orphan.path in tree && OrphanPath(tree, rows, orphan.path) && orphan.size == tree[orphan.path].size
    && match orphan.kind
       case OfObject(id) => orphan.path == RelativePath(id) && id !in rows
       case Temporary => TemporaryPath(orphan.path)
  }

  lemma {:induction false} IsOrphan(tree: map<Text, Node>, rows: set<Digest>, path: Text, kind: OrphanKind)
    requires path in tree && tree[path].regular
    requires kind.OfObject? ==> path == RelativePath(kind.id) && kind.id !in rows
    requires kind.Temporary? ==> TemporaryPath(path)
    ensures OrphanPath(tree, rows, path) && OrphanRecord(tree, rows, Orphan(path, kind, tree[path].size))
  {
    hide RelativePath, TemporaryPath;
  }

  lemma {:induction false} NotOrphan(tree: map<Text, Node>, rows: set<Digest>, path: Text, kind: Option<OrphanKind>)
    requires path in tree
    requires kind.Some? && kind.value.OfObject? ==> path == RelativePath(kind.value.id)
    requires kind == Some(Temporary) <==> TemporaryPath(path)
    requires kind.None? || kind.value.Temporary? ==> forall id: Digest :: path != RelativePath(id)
    requires kind.None? || (kind.value.OfObject? && kind.value.id in rows) || !tree[path].regular
    ensures !OrphanPath(tree, rows, path)
  {
    hide RelativePath, TemporaryPath;
    if OrphanPath(tree, rows, path) {
      var id: Digest :| path == RelativePath(id) && id !in rows;
      RelativePathInjective(id, kind.value.id);
    }
  }

  lemma {:induction false} SeenNext(
    tree: map<Text, Node>, rows: set<Digest>, after: Option<Text>, seen: set<Text>, entries: set<Text>, path: Text)
    requires seen == Orphans(tree, rows) - (entries + {path}) && path !in entries && path in tree
    ensures path !in Candidates(seen, after)
    ensures Candidates(Orphans(tree, rows) - entries, after)
         == Candidates(seen, after) + if OrphanPath(tree, rows, path) && Above(after, path) then {path} else {}
  {
    hide OrphanPath, Less;
  }

  method Retain(before: map<Text, Orphan>, orphan: Orphan, capacity: nat, ghost candidates: set<Text>)
    returns (retained: map<Text, Orphan>)
    requires capacity > 0 && Smallest(before.Keys, candidates, capacity) && orphan.path !in candidates
    ensures Smallest(retained.Keys, candidates + {orphan.path}, capacity)
    ensures forall path :: path in retained ==>
      if path == orphan.path then retained[path] == orphan else path in before && retained[path] == before[path]
  {
    hide Less, Smallest;
    SmallestWithin(before.Keys, candidates, capacity);
    retained := before[orphan.path := orphan];
    assert retained.Keys == before.Keys + {orphan.path};
    assert |retained| == |retained.Keys|;
    if |retained| > capacity {
      var last := Largest(retained.Keys);
      TrimSmallest(before.Keys, candidates, orphan.path, capacity, last);
      retained := retained - {last};
    } else {
      GrowSmallest(before.Keys, candidates, orphan.path, capacity);
    }
  }

  predicate FailsAt(outages: seq<bool>, call: nat) { call < |outages| && outages[call] }

  class GcStore {
    var rows: set<Digest>
    var tree: map<Text, Node>
    /** Every identity that a snapshot entry, a terminal chunk or a terminal event names. */
    const references: set<Digest>
    var outages: seq<bool>

    constructor (rows: set<Digest>, tree: map<Text, Node>, references: set<Digest>, outages: seq<bool>)
      ensures this.rows == rows && this.tree == tree && this.references == references && this.outages == outages
    {
      this.rows := rows;
      this.tree := tree;
      this.references := references;
      this.outages := outages;
    }

    method Attempt() returns (up: bool)
      modifies this`outages
      ensures up == (old(outages) == [] || !old(outages)[0])
      ensures outages == if old(outages) == [] then [] else old(outages)[1..]
      ensures !up ==> true in old(outages)
      ensures true in outages ==> true in old(outages)
    {
      up := outages == [] || !outages[0];
      if outages != [] {
        outages := outages[1..];
      }
    }

    /** Selects by text, as the tables store identities, and parses what it selects. */
    method SelectIds(ids: set<Digest>, after: Option<Digest>, limit: nat) returns (page: seq<Digest>, hasMore: bool)
      requires limit > 0
      ensures NextKeys(page, hasMore, ids, after, limit)
    {
      hide Hex, Less, NextKeys;
      var texts, more := Query(HexTexts(ids), Some(CursorText(after)), limit);
      page := [];
      for i := 0 to |texts|
        invariant |page| == i && forall k :: 0 <= k < i ==> Hex(page[k]) == texts[k]
      {
        SelectedText(ids, after, texts, more, limit, i);
        var parsed := ParseDigest(texts[i]);
        page := page + [parsed.value];
      }
      TextPage(ids, after, texts, more, page, limit);
      hasMore := more;
    }

    method ListObjects(after: Option<Digest>, limit: nat)
      returns (page: seq<Digest>, sizes: seq<nat>, hasMore: bool)
      requires limit > 0
      ensures NextKeys(page, hasMore, rows, after, limit)
      ensures |sizes| == |page| && forall i :: 0 <= i < |page| ==> sizes[i] == PhysicalSize(tree, page[i])
    {
      page, hasMore := SelectIds(rows, after, limit);
      var files := tree;
      sizes := seq(|page|, i requires 0 <= i < |page| => PhysicalSize(files, page[i]));
    }

    /** Deletes an unreferenced object: its file first, then its row, with the row kept if that fails. */
    method DeleteObject(id: Digest) returns (error: Option<GcError>)
      modifies this`rows, this`tree, this`outages
      ensures true in outages ==> true in old(outages)
      ensures error.None? ==> id in old(rows) && id !in references
      ensures error.None? ==> rows == old(rows) - {id} && tree == old(tree) - {RelativePath(id)}
      ensures error.Some? ==> rows == old(rows)
      ensures error.Some? ==> tree == old(tree) || (id !in references && tree == old(tree) - {RelativePath(id)})
      ensures id in old(rows) && id !in references ==> error.None? || true in old(outages)
      ensures error ==
        if id !in old(rows) then Some(NotFound(id))
        else if id in references then Some(Referenced(id))
        else if FailsAt(old(outages), 0) then Some(Io)
        else if FailsAt(old(outages), 1) then Some(Database)
        else None
      ensures error == Some(Io) ==> tree == old(tree)
      ensures error == Some(Database) ==> tree == old(tree) - {RelativePath(id)}
    {
      if id !in rows {
        return Some(NotFound(id));
      }
      if id in references {
        return Some(Referenced(id));
      }
      var removed := Attempt();
      if !removed {
        return Some(Io);
      }
      tree := tree - {RelativePath(id)};
      var committed := Attempt();
      if !committed {
        return Some(Database);
      }
      rows := rows - {id};
      return None;
    }

    ghost predicate Kept(retained: map<Text, Orphan>)
      reads this
    {
      forall path :: path in retained ==> retained[path].path == path && OrphanRecord(tree, rows, retained[path])
    }

    /** One directory entry: an artifact above the cursor is retained, and the largest dropped if one too many. */
    method Consider(path: Text, after: Option<Text>, before: map<Text, Orphan>, capacity: nat,
        ghost candidates: set<Text>)
      returns (retained: map<Text, Orphan>)
      requires path in tree && capacity > 0 && Kept(before)
      requires path !in candidates && Smallest(before.Keys, candidates, capacity)
      ensures Kept(retained)
      ensures Smallest(retained.Keys,
                       candidates + if OrphanPath(tree, rows, path) && Above(after, path) then {path} else {}, capacity)
    {
      hide Less, RelativePath, Smallest, OrphanRecord, OrphanPath;
      retained := before;
      assert candidates + {} == candidates;
      if !Above(after, path) {
        return;
      }
      var kind := Recognize(path);
      if kind.None? || (kind.value.OfObject? && kind.value.id in rows) || !tree[path].regular {
        NotOrphan(tree, rows, path, kind);
        return;
      }
      IsOrphan(tree, rows, path, kind.value);
      retained := Retain(before, Orphan(path, kind.value, tree[path].size), capacity, candidates);
    }

    /**
     * Enumerates the directories in any order, keeping only the smallest names above the cursor, one
     * more than a page holds.
     */
    method ListPhysicalOrphans(after: Option<Text>, limit: nat) returns (page: seq<Orphan>, hasMore: bool)
      requires limit > 0
      ensures NextKeys(OrphanPaths(page), hasMore, Orphans(tree, rows), after, limit)
      ensures forall i :: 0 <= i < |page| ==> OrphanRecord(tree, rows, page[i])
    {
      hide Less, RelativePath, OrphanRecord, OrphanPath, Smallest;
      var retained: map<Text, Orphan> := map[];
      var entries := tree.Keys;
      ghost var seen: set<Text> := {};
      NothingSmallest(limit + 1);
      assert Candidates(seen, after) == {} && retained.Keys == {};
      while entries != {}
        invariant entries <= tree.Keys && seen == Orphans(tree, rows) - entries
        invariant Kept(retained) && Smallest(retained.Keys, Candidates(seen, after), limit + 1)
        decreases entries
      {
        var path :| path in entries;
        entries := entries - {path};
        SeenNext(tree, rows, after, seen, entries, path);
        retained := Consider(path, after, retained, limit + 1, Candidates(seen, after));
        seen := Orphans(tree, rows) - entries;
      }
      assert seen == Orphans(tree, rows);
      page, hasMore := TakePage(retained, after, limit);
    }

    /** The retained artifacts in path order, without the one that only tells of more. */
    method TakePage(retained: map<Text, Orphan>, ghost after: Option<Text>, limit: nat)
      returns (page: seq<Orphan>, hasMore: bool)
      requires limit > 0 && Kept(retained)
      requires Smallest(retained.Keys, Candidates(Orphans(tree, rows), after), limit + 1)
      ensures NextKeys(OrphanPaths(page), hasMore, Orphans(tree, rows), after, limit)
      ensures forall i :: 0 <= i < |page| ==> OrphanRecord(tree, rows, page[i])
    {
      hide Less, Smallest, OrphanRecord, OrphanPath, NextKeys, Orphans, Candidates;
      var keys := Listing(retained.Keys);
      SmallestPage(keys, retained.Keys, Orphans(tree, rows), after, limit);
      hasMore := |keys| > limit;
      var kept := if hasMore then keys[..limit] else keys;
      page := [];
      assert forall i :: 0 <= i < |kept| ==> kept[i] in keys;
      for i := 0 to |kept|
        invariant |page| == i
        invariant forall k :: 0 <= k < i ==> page[k].path == kept[k] && OrphanRecord(tree, rows, page[k])
      {
        page := page + [retained[kept[i]]];
      }
      assert OrphanPaths(page) == kept;
    }

    /** Deletes a listed artifact after checking again that nothing accounts for it. */
    method DeletePhysicalOrphan(orphan: Orphan) returns (error: Option<GcError>)
      modifies this`tree, this`outages
      ensures true in outages ==> true in old(outages)
      ensures error.None? ==> tree == old(tree) - {orphan.path}
      ensures error.None? && orphan.kind.OfObject? ==> orphan.kind.id !in rows && orphan.kind.id !in references
      ensures error.Some? ==> tree == old(tree)
      ensures error.Some? ==>
        true in old(outages) || (orphan.kind.OfObject? && (orphan.kind.id in rows || orphan.kind.id in references))
      ensures error.Some? <==>
        || FailsAt(old(outages), 0)
        || (orphan.kind.OfObject? && (orphan.kind.id in rows || orphan.kind.id in references))
    {
      if orphan.kind.OfObject? && (orphan.kind.id in rows || orphan.kind.id in references) {
        return Some(Referenced(orphan.kind.id));
      }
      var removed := Attempt();
      if !removed {
        return Some(Io);
      }
      tree := tree - {orphan.path};
      return None;
    }
  }

  lemma {:induction false} SelectedText(ids: set<Digest>, after: Option<Digest>, texts: seq<Text>, hasMore: bool,
      limit: nat, i: nat)
    requires NextKeys(texts, hasMore, HexTexts(ids), Some(CursorText(after)), limit)
    requires i < |texts|
    ensures exists id: Digest :: Hex(id) == texts[i]
  {
    assert texts[i] in texts;
    var id :| id in ids && Hex(id) == texts[i];
  }

  class ReferenceCursor {
    const store: GcStore
    var page: seq<Digest>
    var hasMore: bool
    var index: nat
    var after: Option<Digest>
    /** Nothing at or above this key has been passed over. */
    ghost var bound: Option<Text>

    /** Every reference still ahead is on the page or behind it. */
    ghost predicate Valid()
      reads this
    {
      && index <= |page| && StrictlySorted(page)
      && (index > 0 ==> after == Some(page[index - 1]))
      && (hasMore ==> page != [])
      && (forall i :: 0 <= i < |page| ==> page[i] in store.references)
      && (forall i :: 0 <= i < index ==> bound.Some? && Less(page[i], bound.value))
      && forall id :: id in store.references ==>
           (bound.Some? && Less(id, bound.value)) || id in page || (hasMore && Less(page[|page| - 1], id))
    }

    constructor (store: GcStore, limit: nat)
      requires limit > 0
      ensures Valid() && bound.None? && this.store == store
    {
      this.store := store;
      index, after, bound := 0, None, None;
      new;
      page, hasMore := store.SelectIds(store.references, None, limit);
      forall i | 0 <= i < |page| ensures page[i] in store.references { assert page[i] in page; }
    }

    function Current(): Option<Digest>
      reads this
    {
      if index < |page| then Some(page[index]) else None
    }

    ghost function Ahead(): set<Text>
      reads this
    {
      if page == [] then {} else Candidates(store.references, Some(page[|page| - 1]))
    }

    /** Moves to the first reference that is not below the target, over as many pages as it takes. */
    method AdvanceBefore(target: Digest, limit: nat)
      requires Valid() && limit > 0 && (bound.Some? ==> Less(bound.value, target))
      modifies this`page, this`hasMore, this`index, this`after, this`bound
      ensures Valid() && bound == Some(target)
      ensures Current() == Some(target) <==> target in store.references
    {
      hide Less, Candidates;
      RaiseBound(target);
      while true
        invariant Valid() && bound == Some(target)
        decreases hasMore, Ahead()
      {
        SkipBelow(target);
        if index < |page| || !hasMore {
          Settled(target);
          return;
        }
        Fetch(target, limit);
      }
    }

    /** Passes over what is below the target on the page at hand. */
    method SkipBelow(target: Digest)
      requires Valid() && bound == Some(target)
      modifies this`index, this`after
      ensures Valid() && index >= old(index)
      ensures index == |page| || !Less(page[index], target)
    {
      hide Less, Candidates;
      while index < |page| && Less(page[index], target)
        invariant Valid() && index >= old(index)
        decreases |page| - index
      {
        after := Some(page[index]);
        index := index + 1;
      }
    }

    /** Loads the page that follows an exhausted one. */
    method Fetch(ghost target: Digest, limit: nat)
      requires Valid() && bound == Some(target) && index == |page| && hasMore && limit > 0
      modifies this`page, this`hasMore, this`index
      ensures Valid()
      ensures hasMore ==> Ahead() < old(Ahead())
    {
      hide Less, NextKeys;
      var next, more := store.SelectIds(store.references, after, limit);
      NextPage(target, next, more, limit);
      page, hasMore, index := next, more, 0;
    }

    ghost method RaiseBound(target: Digest)
      requires Valid() && (bound.Some? ==> Less(bound.value, target))
      modifies this`bound
      ensures Valid() && bound == Some(target)
      ensures old(bound).Some? || index == 0
    {
      hide Less;
      if bound.Some? {
        forall id: Text | Less(id, bound.value) ensures Less(id, target) { LessTransitive(id, bound.value, target); }
      }
      bound := Some(target);
    }

    lemma Settled(target: Digest)
      requires Valid() && bound == Some(target)
      requires index < |page| ==> !Less(page[index], target)
      requires index < |page| || !hasMore
      ensures Current() == Some(target) <==> target in store.references
    {
      hide Less;
      LessIrreflexive(target);
      if index < |page| && page[index] != target {
        LessTotal(page[index], target);
        forall i | 0 <= i < |page| ensures page[i] != target && (i >= index ==> !Less(page[i], target)) {
          if i < index {
            assert Less(page[i], target);
          } else {
            if i > index { LessTransitive(target, page[index], page[i]); }
            LessAsymmetric(target, page[i]);
          }
        }
      }
    }

    lemma NextPage(target: Digest, next: seq<Digest>, more: bool, limit: nat)
      requires Valid() && bound == Some(target) && index == |page| && hasMore && limit > 0
      requires NextKeys(next, more, store.references, after, limit)
      ensures StrictlySorted(next) && (more ==> next != [])
      ensures forall i :: 0 <= i < |next| ==> next[i] in store.references
      ensures forall id :: id in store.references ==>
        Less(id, target) || id in next || (more && Less(next[|next| - 1], id))
      ensures more ==>
        Candidates(store.references, Some(next[|next| - 1])) < Candidates(store.references, Some(page[|page| - 1]))
    {
      hide Less;
      var last := page[|page| - 1];
      forall i | 0 <= i < |next| ensures next[i] in store.references && Less(last, next[i]) { assert next[i] in next; }
      forall id | id in store.references
        ensures Less(id, target) || id in next || (more && Less(next[|next| - 1], id)) {
        if id in page {
          var i :| 0 <= i < |page| && page[i] == id;
        }
      }
      if more {
        var end := next[|next| - 1];
        LessIrreflexive(end);
        forall id | id in Candidates(store.references, Some(end))
          ensures id in Candidates(store.references, Some(last)) {
          LessTransitive(last, end, id);
        }
        assert end in Candidates(store.references, Some(last)) && end !in Candidates(store.references, Some(end));
      }
    }
  }

  // ----- collecting indexed objects -----

  /** The unreferenced ones among the scanned objects, in order. */
  function Unreferenced(scanned: seq<Digest>, references: set<Digest>): seq<Digest> {
    if scanned == [] then []
    else
      var last := scanned[|scanned| - 1];
      Unreferenced(scanned[..|scanned| - 1], references) + if last in references then [] else [last]
  }

  lemma {:induction false} UnreferencedNext(scanned: seq<Digest>, references: set<Digest>, id: Digest)
    ensures Unreferenced(scanned + [id], references)
         == Unreferenced(scanned, references) + if id in references then [] else [id]
  {
    assert (scanned + [id])[..|scanned|] == scanned;
  }

  lemma {:induction false} UnreferencedMembers(scanned: seq<Digest>, references: set<Digest>)
    ensures forall k :: k in Unreferenced(scanned, references) <==> k in scanned && k !in references
  {
    if scanned != [] {
      var n := |scanned| - 1;
      UnreferencedMembers(scanned[..n], references);
      assert scanned == scanned[..n] + [scanned[n]];
    }
  }

  lemma {:induction false} UnreferencedSorted(scanned: seq<Digest>, references: set<Digest>)
    requires StrictlySorted(scanned)
    ensures StrictlySorted(Unreferenced(scanned, references))
  {
    hide Less;
    if scanned != [] {
      var n := |scanned| - 1;
      var found := Unreferenced(scanned[..n], references);
      UnreferencedSorted(scanned[..n], references);
      if scanned[n] !in references {
        if found != [] {
          UnreferencedMembers(scanned[..n], references);
          assert found[|found| - 1] in found;
          var i :| 0 <= i < n && scanned[..n][i] == found[|found| - 1];
        }
        StrictlySortedAppend(found, scanned[n]);
      }
    }
  }

  function SizesOf(tree: map<Text, Node>, ids: seq<Digest>): (sizes: seq<nat>)
    ensures |sizes| == |ids|
    ensures forall i :: 0 <= i < |ids| ==> sizes[i] == PhysicalSize(tree, ids[i])
  {
    seq(|ids|, i requires 0 <= i < |ids| => PhysicalSize(tree, ids[i]))
  }

  function SetOf(ids: seq<Digest>): set<Digest> { set id | id in ids }

  /** The paths of the listed objects. */
  function PathsOf(ids: set<Digest>): set<Text> { set id | id in ids :: RelativePath(id) }

  /** No referenced row and no referenced file has been lost. */
  ghost predicate ReferencesKept(
    references: set<Digest>, beforeRows: set<Digest>, rows: set<Digest>, before: map<Text, Node>, tree: map<Text, Node>)
  {
    && beforeRows * references <= rows <= beforeRows
    && forall id :: id in references && RelativePath(id) in before ==>
         RelativePath(id) in tree && tree[RelativePath(id)] == before[RelativePath(id)]
  }

  /** What a collection has done to the store once it has scanned every row up to a cursor. */
  ghost predicate Progress(
    beforeRows: set<Digest>, before: map<Text, Node>, references: set<Digest>, delete: bool,
    scanned: seq<Digest>, cursor: Option<Digest>, rows: set<Digest>, tree: map<Text, Node>, tally: Tally)
  {
    var found := Unreferenced(scanned, references);
    && Swept(scanned, beforeRows, cursor)
    && rows == (if delete then beforeRows - SetOf(found) else beforeRows)
    && tree == (if delete then before - PathsOf(SetOf(found)) else before)
    && Tallied(tally, found, SizesOf(before, found), delete)
  }

  function Visited(tally: Tally, references: set<Digest>, delete: bool, id: Digest, size: nat): Tally {
    if id in references then tally else Recorded(tally, id, size, delete)
  }

  lemma {:induction false} ProgressStep(
    beforeRows: set<Digest>, before: map<Text, Node>, references: set<Digest>, delete: bool,
    scanned: seq<Digest>, cursor: Option<Digest>, rows: set<Digest>, tree: map<Text, Node>, tally: Tally, id: Digest)
    requires Progress(beforeRows, before, references, delete, scanned, cursor, rows, tree, tally)
    requires Swept(scanned + [id], beforeRows, Some(id))
    ensures Progress(
      beforeRows, before, references, delete, scanned + [id], Some(id),
      if delete && id !in references then rows - {id} else rows,
      if delete && id !in references then tree - {RelativePath(id)} else tree,
      Visited(tally, references, delete, id, PhysicalSize(before, id)))
  {
    hide Swept, Tallied, RelativePath, PhysicalSize, Counted, Reclaimed, Unreferenced, SetOf, PathsOf, SizesOf;
    UnreferencedNext(scanned, references, id);
    var found := Unreferenced(scanned, references);
    assert found + [] == found;
    if id !in references {
      FoundNext(before, found, id);
      TallyNext(tally, found, SizesOf(before, found), delete, id, PhysicalSize(before, id));
      assert beforeRows - SetOf(found + [id]) == beforeRows - SetOf(found) - {id};
      assert before - PathsOf(SetOf(found + [id])) == before - PathsOf(SetOf(found)) - {RelativePath(id)};
    }
  }

  lemma {:induction false} FoundNext(before: map<Text, Node>, found: seq<Digest>, id: Digest)
    ensures SetOf(found + [id]) == SetOf(found) + {id}
    ensures PathsOf(SetOf(found + [id])) == PathsOf(SetOf(found)) + {RelativePath(id)}
    ensures SizesOf(before, found + [id]) == SizesOf(before, found) + [PhysicalSize(before, id)]
  {
    hide RelativePath, PhysicalSize;
    assert SetOf(found + [id]) == SetOf(found) + {id};
  }

  lemma {:induction false} ProgressStart(beforeRows: set<Digest>, before: map<Text, Node>, references: set<Digest>,
      delete: bool)
    ensures Progress(beforeRows, before, references, delete, [], None, beforeRows, before, EmptyTally)
  {
    assert SetOf([]) == {} && PathsOf({}) == {};
  }

  /** Rows above the cursor are as they were, and so are the sizes of their files. */
  lemma {:induction false} ProgressAbove(
    beforeRows: set<Digest>, before: map<Text, Node>, references: set<Digest>, delete: bool,
    scanned: seq<Digest>, cursor: Option<Digest>, rows: set<Digest>, tree: map<Text, Node>, tally: Tally)
    requires Progress(beforeRows, before, references, delete, scanned, cursor, rows, tree, tally)
    ensures forall k: Digest :: Above(cursor, k) ==> (k in rows <==> k in beforeRows)
    ensures forall k: Digest :: Above(cursor, k) ==> PhysicalSize(tree, k) == PhysicalSize(before, k)
  {
    hide PhysicalSize, RelativePath, Less;
    var found := Unreferenced(scanned, references);
    UnreferencedMembers(scanned, references);
    forall k: Digest | Above(cursor, k)
      ensures (k in rows <==> k in beforeRows) && PhysicalSize(tree, k) == PhysicalSize(before, k)
    {
      if k in SetOf(found) {
        SweptBelow(scanned, beforeRows, cursor, k);
      }
      SizeKept(before, SetOf(found), k);
    }
  }

  /** Whatever the progress, only unreferenced objects have been touched. */
  lemma {:induction false} ProgressKeeps(
    beforeRows: set<Digest>, before: map<Text, Node>, references: set<Digest>, delete: bool,
    scanned: seq<Digest>, cursor: Option<Digest>, rows: set<Digest>, tree: map<Text, Node>, tally: Tally)
    requires Progress(beforeRows, before, references, delete, scanned, cursor, rows, tree, tally)
    ensures ReferencesKept(references, beforeRows, rows, before, tree)
    ensures forall id :: id !in references ==>
      ReferencesKept(references, beforeRows, rows, before, tree - {RelativePath(id)})
  {
    hide RelativePath;
    var found := SetOf(Unreferenced(scanned, references));
    UnreferencedMembers(scanned, references);
    OthersKept(references, beforeRows, before, if delete then found else {}, if delete then found else {});
    assert PathsOf({}) == {};
    forall id | id !in references
      ensures ReferencesKept(references, beforeRows, rows, before, tree - {RelativePath(id)}) {
      forall other | other in references ensures RelativePath(other) != RelativePath(id) {
        if RelativePath(other) == RelativePath(id) { RelativePathInjective(other, id); }
      }
    }
  }

  lemma {:induction false} SizeKept(tree: map<Text, Node>, gone: set<Digest>, id: Digest)
    requires id !in gone
    ensures PhysicalSize(tree - PathsOf(gone), id) == PhysicalSize(tree, id)
  {
    hide RelativePath;
    if RelativePath(id) in PathsOf(gone) {
      var other :| other in gone && RelativePath(other) == RelativePath(id);
      RelativePathInjective(other, id);
    }
  }

  lemma {:induction false} OthersKept(references: set<Digest>, beforeRows: set<Digest>, before: map<Text, Node>,
      gone: set<Digest>, files: set<Digest>)
    requires gone !! references && files !! references
    ensures ReferencesKept(references, beforeRows, beforeRows - gone, before, before - PathsOf(files))
  {
    hide RelativePath;
    forall id | id in references && RelativePath(id) in before ensures RelativePath(id) !in PathsOf(files) {
      if RelativePath(id) in PathsOf(files) {
        var other :| other in files && RelativePath(other) == RelativePath(id);
        RelativePathInjective(other, id);
      }
    }
  }

  /** One object of a page: kept when referenced, otherwise reported and, on request, deleted. */
  method VisitObject(
    store: GcStore, references: ReferenceCursor, id: Digest, size: nat, limit: nat, delete: bool, before: Tally)
    returns (error: Option<GcError>, tally: Tally)
    requires limit > 0 && references.store == store && references.Valid() && id in store.rows
    requires references.bound.Some? ==> Less(references.bound.value, id)
    modifies store`rows, store`tree, store`outages
    modifies references`page, references`hasMore, references`index, references`after, references`bound
    ensures references.Valid() && references.bound == Some(id)
    ensures true in store.outages ==> true in old(store.outages)
    ensures error.Some? ==> true in old(store.outages) && id !in store.references && delete
    ensures error.Some? ==> store.rows == old(store.rows)
    ensures error.Some? ==> store.tree == old(store.tree) || store.tree == old(store.tree) - {RelativePath(id)}
    ensures error.None? && (id in store.references || !delete) ==>
        store.rows == old(store.rows) && store.tree == old(store.tree)
    ensures error.None? && id !in store.references && delete ==>
      store.rows == old(store.rows) - {id} && store.tree == old(store.tree) - {RelativePath(id)}
    ensures error.None? ==> tally == Visited(before, store.references, delete, id, size)
  {
    tally := before;
    references.AdvanceBefore(id, limit);
    if references.Current() == Some(id) {
      return None, tally;
    }
    tally := Counted(tally, id, size);
    if delete {
      error := store.DeleteObject(id);
      if error.Some? {
        return;
      }
      tally := Reclaimed(tally, size);
    }
    return None, tally;
  }

  /** One page of rows, all above the cursor the scan has reached. */
  method CollectPage(
    store: GcStore, references: ReferenceCursor, page: seq<Digest>, sizes: seq<nat>, ghost hasMore: bool,
    limit: nat, delete: bool, before: Tally,
    ghost rows: set<Digest>, ghost tree: map<Text, Node>, ghost start: seq<Digest>, ghost from: Option<Digest>)
    returns (error: Option<GcError>, tally: Tally, ghost scanned: seq<Digest>)
    requires limit > 0 && NextKeys(page, hasMore, rows, from, limit)
    requires |sizes| == |page| && forall i :: 0 <= i < |page| ==> sizes[i] == PhysicalSize(tree, page[i])
    requires references.store == store && references.Valid() && references.bound == from
    requires Progress(rows, tree, store.references, delete, start, from, store.rows, store.tree, before)
    modifies store`rows, store`tree, store`outages
    modifies references`page, references`hasMore, references`index, references`after, references`bound
    ensures references.Valid()
    ensures true in store.outages ==> true in old(store.outages)
    ensures error.Some? ==> delete && true in old(store.outages)
    ensures ReferencesKept(store.references, rows, store.rows, tree, store.tree)
    ensures error.None? ==> references.bound == (if page == [] then from else Some(page[|page| - 1]))
    ensures error.None? ==> scanned == start + page
    ensures error.None? ==> Progress(
      rows, tree, store.references, delete, scanned, if page == [] then from else Some(page[|page| - 1]),
      store.rows, store.tree, tally)
  {
    hide Less, Swept, Tallied, PhysicalSize, RelativePath, Unreferenced, NextKeys, PathsOf, SizesOf;
    ghost var cursor := from;
    tally := before;
    scanned := start;
    for i := 0 to |page|
      invariant references.Valid() && references.bound == cursor
      invariant cursor == if i == 0 then from else Some(page[i - 1])
      invariant scanned == start + page[..i]
      invariant Progress(rows, tree, store.references, delete, scanned, cursor, store.rows, store.tree, tally)
      invariant true in store.outages ==> true in old(store.outages)
    {
      PageNext(page, hasMore, rows, from, limit, i);
      ProgressAbove(rows, tree, store.references, delete, scanned, cursor, store.rows, store.tree, tally);
      ProgressKeeps(rows, tree, store.references, delete, scanned, cursor, store.rows, store.tree, tally);
      ProgressSwept(rows, tree, store.references, delete, scanned, cursor, store.rows, store.tree, tally);
      assert scanned[|scanned| - i..] == page[..i];
      SweepStep(scanned, rows, from, page, hasMore, limit, i);
      ProgressStep(rows, tree, store.references, delete, scanned, cursor, store.rows, store.tree, tally, page[i]);
      error, tally := VisitObject(store, references, page[i], sizes[i], limit, delete, tally);
      if error.Some? {
        return;
      }
      cursor := Some(page[i]);
      scanned := scanned + [page[i]];
      assert page[..i + 1] == page[..i] + [page[i]];
    }
    assert page[..|page|] == page;
    ProgressKeeps(rows, tree, store.references, delete, scanned, cursor, store.rows, store.tree, tally);
    return None, tally, scanned;
  }

  /**
   * The collection of indexed objects, for any page size. It reports, and when deleting removes, exactly
   * the rows that nothing references; failing part-way it still has touched nothing referenced.
   */
  method CollectObjects(store: GcStore, limit: nat, delete: bool)
    returns (error: Option<GcError>, tally: Tally, ghost found: seq<Digest>)
    requires limit > 0
    modifies store`rows, store`tree, store`outages
    ensures true in store.outages ==> true in old(store.outages)
    ensures error.Some? ==> delete && true in old(store.outages)
    ensures ReferencesKept(store.references, old(store.rows), store.rows, old(store.tree), store.tree)
    ensures error.None? ==> Lists(found, old(store.rows) - store.references)
    ensures error.None? ==> Tallied(tally, found, SizesOf(old(store.tree), found), delete)
    ensures error.None? ==> store.rows == if delete then old(store.rows) * store.references else old(store.rows)
    ensures error.None? ==> store.tree == if delete then old(store.tree) - PathsOf(SetOf(found)) else old(store.tree)
  {
    hide Less, Swept, Tallied, PhysicalSize, RelativePath, Unreferenced, NextKeys, PathsOf, SizesOf;
    ghost var rows, tree := store.rows, store.tree;
    ghost var scanned: seq<Digest> := [];
    var references := new ReferenceCursor(store, limit);
    var cursor: Option<Digest> := None;
    var more := true;
    tally := EmptyTally;
    found := [];
    ProgressStart(rows, tree, store.references, delete);
    while more
      invariant references.Valid() && references.bound == cursor && references.store == store && fresh(references)
      invariant Progress(rows, tree, store.references, delete, scanned, cursor, store.rows, store.tree, tally)
      invariant true in store.outages ==> true in old(store.outages)
      invariant !more ==> Lists(scanned, rows)
      decreases more, Candidates(rows, cursor)
    {
      ProgressAbove(rows, tree, store.references, delete, scanned, cursor, store.rows, store.tree, tally);
      var page, sizes, hasMore := store.ListObjects(cursor, limit);
      var from := cursor;
      PagesAgree(page, hasMore, store.rows, rows, from, limit);
      PageMeasured(page, hasMore, store.rows, from, limit, store.tree, tree, sizes);
      error, tally, scanned := CollectPage(store, references, page, sizes, hasMore, limit, delete, tally, rows, tree,
        scanned, from);
      if error.Some? {
        return;
      }
      if hasMore {
        CandidatesShrink(page, hasMore, rows, from, limit);
      } else {
        ProgressSwept(rows, tree, store.references, delete, scanned, if page == [] then from
          else Some(page[|page| - 1]),
                      store.rows, store.tree, tally);
        SweepEnd(scanned, rows, from, page, limit);
      }
      cursor := if page == [] then from else Some(page[|page| - 1]);
      more := hasMore;
    }
    found := Unreferenced(scanned, store.references);
    ProgressKeeps(rows, tree, store.references, delete, scanned, cursor, store.rows, store.tree, tally);
    ProgressDone(rows, tree, store.references, delete, scanned, cursor, store.rows, store.tree, tally);
    return None, tally, found;
  }

  lemma {:induction false} PageNext(page: seq<Digest>, hasMore: bool, rows: set<Digest>, from: Option<Digest>,
      limit: nat, i: nat)
    requires NextKeys(page, hasMore, rows, from, limit) && i < |page|
    ensures page[i] in rows && Above(if i == 0 then from else Some(page[i - 1]), page[i])
  {
    assert page[i] in page;
  }

  lemma {:induction false} PageMeasured(
    page: seq<Digest>, hasMore: bool, rows: set<Digest>, from: Option<Digest>, limit: nat,
    tree: map<Text, Node>, before: map<Text, Node>, sizes: seq<nat>)
    requires NextKeys(page, hasMore, rows, from, limit)
    requires forall k: Digest :: Above(from, k) ==> PhysicalSize(tree, k) == PhysicalSize(before, k)
    requires |sizes| == |page| && forall i :: 0 <= i < |page| ==> sizes[i] == PhysicalSize(tree, page[i])
    ensures forall i :: 0 <= i < |page| ==> sizes[i] == PhysicalSize(before, page[i])
  {
    hide PhysicalSize;
    forall i | 0 <= i < |page| ensures Above(from, page[i]) { assert page[i] in page; }
  }

  lemma {:induction false} ProgressSwept(
    beforeRows: set<Digest>, before: map<Text, Node>, references: set<Digest>, delete: bool,
    scanned: seq<Digest>, cursor: Option<Digest>, rows: set<Digest>, tree: map<Text, Node>, tally: Tally)
    requires Progress(beforeRows, before, references, delete, scanned, cursor, rows, tree, tally)
    ensures Swept(scanned, beforeRows, cursor)
  {
  }

  lemma {:induction false} ProgressDone(
    beforeRows: set<Digest>, before: map<Text, Node>, references: set<Digest>, delete: bool,
    scanned: seq<Digest>, cursor: Option<Digest>, rows: set<Digest>, tree: map<Text, Node>, tally: Tally)
    requires Progress(beforeRows, before, references, delete, scanned, cursor, rows, tree, tally)
    requires Lists(scanned, beforeRows)
    ensures Lists(Unreferenced(scanned, references), beforeRows - references)
    ensures rows == if delete then beforeRows * references else beforeRows
    ensures tree == if delete then before - PathsOf(SetOf(Unreferenced(scanned, references))) else before
    ensures Tallied(tally, Unreferenced(scanned, references), SizesOf(before, Unreferenced(scanned, references)),
        delete)
  {
    hide PathsOf, SizesOf, Tallied, Swept;
    UnreferencedMembers(scanned, references);
    UnreferencedSorted(scanned, references);
  }

  // ----- collecting crash artifacts -----

  function FileSize(tree: map<Text, Node>, path: Text): nat { if path in tree then tree[path].size else 0 }

  function FileSizes(tree: map<Text, Node>, paths: seq<Text>): (sizes: seq<nat>)
    ensures |sizes| == |paths|
    ensures forall i :: 0 <= i < |paths| ==> sizes[i] == FileSize(tree, paths[i])
  {
    seq(|paths|, i requires 0 <= i < |paths| => FileSize(tree, paths[i]))
  }

  ghost predicate Cleaned(before: map<Text, Node>, delete: bool, done: seq<Text>, tree: map<Text, Node>, tally: Tally) {
    && tree == (if delete then before - (set path | path in done) else before)
    && Tallied(tally, done, FileSizes(before, done), delete)
  }

  lemma {:induction false} CleanedNext(
    before: map<Text, Node>, delete: bool, done: seq<Text>, tree: map<Text, Node>, tally: Tally, path: Text)
    requires Cleaned(before, delete, done, tree, tally)
    ensures Cleaned(before, delete, done + [path], if delete then tree - {path} else tree,
                    Recorded(tally, path, FileSize(before, path), delete))
  {
    hide Tallied, Counted, Reclaimed;
    assert (set p | p in done + [path]) == (set p | p in done) + {path};
    assert FileSizes(before, done + [path]) == FileSizes(before, done) + [FileSize(before, path)];
    TallyNext(tally, done, FileSizes(before, done), delete, path, FileSize(before, path));
  }

  /** Artifacts above the cursor are as they were. */
  lemma {:induction false} CleanedAbove(
    before: map<Text, Node>, rows: set<Digest>, delete: bool, done: seq<Text>, cursor: Option<Text>,
      tree: map<Text, Node>, tally: Tally)
    requires Cleaned(before, delete, done, tree, tally) && Swept(done, Orphans(before, rows), cursor)
    ensures forall p :: Above(cursor, p) ==> (p in Orphans(tree, rows) <==> p in Orphans(before, rows))
    ensures forall p :: Above(cursor, p) ==> FileSize(tree, p) == FileSize(before, p)
  {
    hide Less, RelativePath, TemporaryPath, Tallied, Swept;
    forall p | Above(cursor, p) ensures p !in done {
      if p in done { SweptBelow(done, Orphans(before, rows), cursor, p); }
    }
  }

  /** When every reference has its row, no artifact belongs to a referenced object. */
  lemma {:induction false} CleanedKeeps(
    before: map<Text, Node>, rows: set<Digest>, references: set<Digest>, delete: bool, done: seq<Text>,
      tree: map<Text, Node>, tally: Tally)
    requires Cleaned(before, delete, done, tree, tally) && references <= rows
    requires forall p :: p in done ==> p in Orphans(before, rows)
    ensures ReferencesKept(references, rows, rows, before, tree)
  {
    hide RelativePath, TemporaryPath, Tallied;
    forall id | id in references ensures RelativePath(id) !in done {
      if RelativePath(id) in done {
        assert OrphanPath(before, rows, RelativePath(id));
        ObjectNotTemporary(id);
        var other: Digest :| RelativePath(id) == RelativePath(other) && other !in rows;
        RelativePathInjective(id, other);
      }
    }
  }

  method VisitOrphan(store: GcStore, orphan: Orphan, delete: bool, before: Tally)
    returns (error: Option<GcError>, tally: Tally)
    requires OrphanRecord(store.tree, store.rows, orphan)
    modifies store`tree, store`outages
    ensures true in store.outages ==> true in old(store.outages)
    ensures error.Some? ==> delete && (true in old(store.outages) || !(store.references <= store.rows))
    ensures error.Some? ==> store.tree == old(store.tree)
    ensures error.None? ==> store.tree == if delete then old(store.tree) - {orphan.path} else old(store.tree)
    ensures error.None? ==> tally == Recorded(before, orphan.path, orphan.size, delete)
  {
    tally := Counted(before, orphan.path, orphan.size);
    if delete {
      error := store.DeletePhysicalOrphan(orphan);
      if error.Some? {
        return;
      }
      tally := Reclaimed(tally, orphan.size);
    }
    return None, tally;
  }

  /**
   * The collection of crash artifacts, for any page size: every recognised file without a row is visited
   * once, in path order, although earlier ones are already being deleted.
   */
  method CollectOrphans(store: GcStore, limit: nat, delete: bool)
    returns (error: Option<GcError>, tally: Tally, ghost found: seq<Text>)
    requires limit > 0
    modifies store`tree, store`outages
    ensures true in store.outages ==> true in old(store.outages)
    ensures error.Some? ==> delete && (true in old(store.outages) || !(store.references <= store.rows))
    ensures store.references <= store.rows ==>
      ReferencesKept(store.references, store.rows, store.rows, old(store.tree), store.tree)
    ensures error.None? ==> Lists(found, Orphans(old(store.tree), store.rows))
    ensures error.None? ==> Tallied(tally, found, FileSizes(old(store.tree), found), delete)
    ensures error.None? ==>
      store.tree == if delete then old(store.tree) - Orphans(old(store.tree), store.rows) else old(store.tree)
  {
    hide Less, Swept, Tallied, NextKeys, FileSizes, Orphans, OrphanRecord, FileSize;
    ghost var tree, rows := store.tree, store.rows;
    ghost var all := Orphans(tree, rows);
    var cursor: Option<Text> := None;
    var more := true;
    tally := EmptyTally;
    found := [];
    CleanedStart(tree, all, delete);
    while more
      invariant Cleaned(tree, delete, found, store.tree, tally) && Swept(found, all, cursor)
      invariant true in store.outages ==> true in old(store.outages)
      invariant !more ==> Lists(found, all)
      decreases more, Candidates(all, cursor)
    {
      CleanedAbove(tree, rows, delete, found, cursor, store.tree, tally);
      var page, hasMore := store.ListPhysicalOrphans(cursor, limit);
      ghost var from, paths := cursor, OrphanPaths(page);
      PagesAgree(paths, hasMore, Orphans(store.tree, rows), all, from, limit);
      OrphansMeasured(page, hasMore, all, from, limit, store.tree, tree, rows);
      assert found[|found| - 0..] == paths[..0];
      for i := 0 to |page|
        invariant cursor == if i == 0 then from else Some(paths[i - 1])
        invariant |found| >= i && found[|found| - i..] == paths[..i]
        invariant Cleaned(tree, delete, found, store.tree, tally) && Swept(found, all, cursor)
        invariant true in store.outages ==> true in old(store.outages)
        invariant forall k :: i <= k < |page| ==> OrphanRecord(store.tree, rows, page[k])
      {
        CleanedKeepsSwept(tree, rows, store.references, delete, found, cursor, store.tree, tally);
        SweepStep(found, all, from, paths, hasMore, limit, i);
        CleanedNext(tree, delete, found, store.tree, tally, page[i].path);
        RecordsSurvive(page, paths, hasMore, all, from, limit, store.tree, rows, i);
        error, tally := VisitOrphan(store, page[i], delete, tally);
        if error.Some? {
          return;
        }
        cursor := Some(page[i].path);
        found := found + [page[i].path];
        assert paths[..i + 1] == paths[..i] + [paths[i]];
      }
      assert paths[..|paths|] == paths;
      if hasMore {
        CandidatesShrink(paths, hasMore, all, from, limit);
      } else {
        SweepEnd(found, all, from, paths, limit);
      }
      more := hasMore;
    }
    CleanedKeepsSwept(tree, rows, store.references, delete, found, cursor, store.tree, tally);
    assert (set p | p in found) == all;
    return None, tally, found;
  }

  lemma {:induction false} CleanedStart(tree: map<Text, Node>, all: set<Text>, delete: bool)
    ensures Cleaned(tree, delete, [], tree, EmptyTally) && Swept([], all, None)
  {
  }

  lemma {:induction false} CleanedKeepsSwept(
    before: map<Text, Node>, rows: set<Digest>, references: set<Digest>, delete: bool, done: seq<Text>,
    cursor: Option<Text>, tree: map<Text, Node>, tally: Tally)
    requires Cleaned(before, delete, done, tree, tally) && Swept(done, Orphans(before, rows), cursor)
    ensures references <= rows ==> ReferencesKept(references, rows, rows, before, tree)
  {
    hide Cleaned, ReferencesKept, Orphans;
    if references <= rows { CleanedKeeps(before, rows, references, delete, done, tree, tally); }
  }

  lemma {:induction false} CandidatesShrink(page: seq<Text>, hasMore: bool, all: set<Text>, from: Option<Text>,
      limit: nat)
    requires NextKeys(page, hasMore, all, from, limit) && hasMore
    ensures page != [] && Candidates(all, Some(page[|page| - 1])) < Candidates(all, from)
  {
    hide Less;
    var last := page[|page| - 1];
    assert last in page;
    LessIrreflexive(last);
    forall k | k in Candidates(all, Some(last)) ensures k in Candidates(all, from) {
      if from.Some? { LessTransitive(from.value, last, k); }
    }
    assert last in Candidates(all, from) && last !in Candidates(all, Some(last));
  }

  lemma {:induction false} OrphansMeasured(
    page: seq<Orphan>, hasMore: bool, all: set<Text>, from: Option<Text>, limit: nat,
    tree: map<Text, Node>, before: map<Text, Node>, rows: set<Digest>)
    requires NextKeys(OrphanPaths(page), hasMore, all, from, limit)
    requires forall i :: 0 <= i < |page| ==> OrphanRecord(tree, rows, page[i])
    requires forall p :: Above(from, p) ==> FileSize(tree, p) == FileSize(before, p)
    ensures forall i :: 0 <= i < |page| ==> page[i].size == FileSize(before, page[i].path)
  {
    hide RelativePath, TemporaryPath, OrphanPath;
    forall i | 0 <= i < |page| ensures page[i].size == FileSize(before, page[i].path) {
      assert OrphanPaths(page)[i] in OrphanPaths(page);
    }
  }

  /** Deleting one listed artifact leaves the records of the later ones true. */
  lemma {:induction false} RecordsSurvive(
    page: seq<Orphan>, paths: seq<Text>, hasMore: bool, all: set<Text>, from: Option<Text>, limit: nat,
    tree: map<Text, Node>, rows: set<Digest>, i: nat)
    requires paths == OrphanPaths(page) && NextKeys(paths, hasMore, all, from, limit) && i < |page|
    requires forall k :: i <= k < |page| ==> OrphanRecord(tree, rows, page[k])
    ensures forall k :: i < k < |page| ==> OrphanRecord(tree - {page[i].path}, rows, page[k])
  {
    hide RelativePath, TemporaryPath, Less;
    forall k | i < k < |page| ensures OrphanRecord(tree - {page[i].path}, rows, page[k]) {
      assert Less(paths[i], paths[k]);
      LessIrreflexive(paths[i]);
    }
  }

  /** The second phase works on what the first has left. */
  ghost predicate AfterObjects(
    before: map<Text, Node>, delete: bool, unreferenced: seq<Digest>, orphans: seq<Text>, artifacts: Tally,
    tree: map<Text, Node>, rows: set<Digest>)
  {
    var middle := if delete then before - PathsOf(SetOf(unreferenced)) else before;
    && Lists(orphans, Orphans(middle, rows))
    && Tallied(artifacts, orphans, FileSizes(middle, orphans), delete)
    && tree == (if delete then middle - Orphans(middle, rows) else middle)
  }

  lemma {:induction false} OrphansGone(tree: map<Text, Node>, rows: set<Digest>)
    ensures Orphans(tree - Orphans(tree, rows), rows) == {}
  {
    hide RelativePath, TemporaryPath;
  }

  lemma {:induction false} KeptTwice(
    references: set<Digest>, a: set<Digest>, b: set<Digest>, c: set<Digest>,
    first: map<Text, Node>, second: map<Text, Node>, third: map<Text, Node>)
    requires ReferencesKept(references, a, b, first, second) && ReferencesKept(references, b, c, second, third)
    ensures ReferencesKept(references, a, c, first, third)
  {
    hide RelativePath;
  }

  /** A whole run of the collector: indexed objects first, then what no row accounts for. */
  method Collect(store: GcStore, limit: nat, delete: bool)
    returns (error: Option<GcError>, objects: Tally, artifacts: Tally, ghost unreferenced: seq<Digest>,
      ghost orphans: seq<Text>)
    requires limit > 0
    modifies store`rows, store`tree, store`outages
    ensures error.Some? ==> delete && (true in old(store.outages) || !(store.references <= old(store.rows)))
    ensures !delete ==> store.rows == old(store.rows) && store.tree == old(store.tree)
    ensures store.references <= old(store.rows) ==>
      ReferencesKept(store.references, old(store.rows), store.rows, old(store.tree), store.tree)
    ensures error.None? ==> Lists(unreferenced, old(store.rows) - store.references)
    ensures error.None? ==> Tallied(objects, unreferenced, SizesOf(old(store.tree), unreferenced), delete)
    ensures error.None? && delete ==> store.rows == old(store.rows) * store.references
    ensures error.None? ==>
        AfterObjects(old(store.tree), delete, unreferenced, orphans, artifacts, store.tree, store.rows)
    ensures error.None? && delete ==> Orphans(store.tree, store.rows) == {}
  {
    hide Tallied, SizesOf, PathsOf, RelativePath, TemporaryPath, Less;
    artifacts, orphans := EmptyTally, [];
    error, objects, unreferenced := CollectObjects(store, limit, delete);
    if error.Some? {
      return;
    }
    ghost var rows, tree := store.rows, store.tree;
    error, artifacts, orphans := CollectOrphans(store, limit, delete);
    if store.references <= old(store.rows) {
      KeptTwice(store.references, old(store.rows), rows, store.rows, old(store.tree), tree, store.tree);
    }
    if error.Some? {
      return;
    }
    OrphansGone(tree, store.rows);
  }
}
