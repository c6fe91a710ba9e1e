/** The linear-merge comparison of two canonical snapshots. */
module Diff {
  import opened Bytes
  import opened Snapshots
  import opened Sorting
  import opened Wrappers

  datatype Change = Added(entry: Entry) | Removed(entry: Entry) | Modified(before: Entry, after: Entry)

  function ChangePath(change: Change): Text {
    match change
    case Added(entry) => entry.path
    case Removed(entry) => entry.path
    case Modified(before, _) => before.path
  }

  function Reverse(change: Change): Change {
    match change
    case Added(entry) => Removed(entry)
    case Removed(entry) => Added(entry)
    case Modified(before, after) => Modified(after, before)
  }

  function Reversed(changes: seq<Change>): (r: seq<Change>)
    ensures |r| == |changes|
    ensures forall i :: 0 <= i < |r| ==> r[i] == Reverse(changes[i])
  {
    seq(|changes|, i requires 0 <= i < |changes| => Reverse(changes[i]))
  }

  /** The merge of two suffixes, head against head. */
  function Merge(left: seq<Entry>, right: seq<Entry>): seq<Change> {
    if left == [] && right == [] then []
    else if right == [] then [Removed(left[0])] + Merge(left[1..], right)
    else if left == [] then [Added(right[0])] + Merge(left, right[1..])
    else if Less(left[0].path, right[0].path) then [Removed(left[0])] + Merge(left[1..], right)
    else if Less(right[0].path, left[0].path) then [Added(right[0])] + Merge(left, right[1..])
    else (if left[0] != right[0] then [Modified(left[0], right[0])] else []) + Merge(left[1..], right[1..])
  }

  method DiffSnapshots(left: seq<Entry>, right: seq<Entry>) returns (changes: seq<Change>)
    ensures changes == Merge(left, right)
  {
    hide Merge, Less;
    var leftIndex, rightIndex := 0, 0;
    changes := [];
    assert left[0..] == left && right[0..] == right;
    while leftIndex < |left| || rightIndex < |right|
      invariant 0 <= leftIndex <= |left| && 0 <= rightIndex <= |right|
      invariant changes + Merge(left[leftIndex..], right[rightIndex..]) == Merge(left, right)
      decreases |left| - leftIndex + |right| - rightIndex
    {
      MergeUnfolds(left, right, leftIndex, rightIndex);
      ghost var done := changes;
      if leftIndex < |left| && rightIndex < |right| {
        var before, after := left[leftIndex], right[rightIndex];
        if Less(before.path, after.path) {
          changes := changes + [Removed(before)];
          leftIndex := leftIndex + 1;
        } else if Less(after.path, before.path) {
          changes := changes + [Added(after)];
          rightIndex := rightIndex + 1;
        } else {
          if before != after {
            changes := changes + [Modified(before, after)];
          }
          leftIndex, rightIndex := leftIndex + 1, rightIndex + 1;
        }
      } else if leftIndex < |left| {
        changes := changes + [Removed(left[leftIndex])];
        leftIndex := leftIndex + 1;
      } else {
        changes := changes + [Added(right[rightIndex])];
        rightIndex := rightIndex + 1;
      }
      Shift(done, changes[|done|..], Merge(left[leftIndex..], right[rightIndex..]));
    }
    MergeNothing();
    assert left[|left|..] == [] && right[|right|..] == [];
  }

  lemma {:induction false} Shift(done: seq<Change>, step: seq<Change>, rest: seq<Change>)
    ensures done + step + rest == done + (step + rest)
  {
  }

  lemma {:induction false} MergeNothing()
    ensures Merge([], []) == []
  {
  }

  /** The two-index loop takes the same step as the merge of the remaining suffixes. */
  lemma {:induction false} MergeUnfolds(left: seq<Entry>, right: seq<Entry>, i: nat, j: nat)
    requires i <= |left| && j <= |right| && (i < |left| || j < |right|)
    ensures Merge(left[i..], right[j..]) ==
      if j == |right| || (i < |left| && Less(left[i].path, right[j].path)) then
        [Removed(left[i])] + Merge(left[i + 1..], right[j..])
      else if i == |left| || Less(right[j].path, left[i].path) then
        [Added(right[j])] + Merge(left[i..], right[j + 1..])
      else
        (if left[i] != right[j] then [Modified(left[i], right[j])] else []) + Merge(left[i + 1..], right[j + 1..])
  {
    if i < |left| { assert left[i..][1..] == left[i + 1..]; }
    if j < |right| { assert right[j..][1..] == right[j + 1..]; }
    if i < |left| && j < |right| && Less(left[i].path, right[j].path) {
      LessAsymmetric(left[i].path, right[j].path);
    }
  }

  // ----- independent meaning: snapshots as finite maps, changes as strict patches -----

  function Tree(entries: seq<Entry>): map<Text, Entry> {
    if entries == [] then map[] else Tree(entries[1..])[entries[0].path := entries[0]]
  }

  lemma {:induction false} TreeEntries(entries: seq<Entry>)
    ensures forall p :: p in Tree(entries) ==> Tree(entries)[p].path == p && Tree(entries)[p] in entries
    ensures forall entry :: entry in entries ==> entry.path in Tree(entries)
  {
    if entries != [] { TreeEntries(entries[1..]); }
  }

  function Lookup(tree: map<Text, Entry>, path: Text): Option<Entry> {
    if path in tree then Some(tree[path]) else None
  }

  /** Applies one change, refusing it unless the tree is exactly in the state the change starts from. */
  function ApplyOne(tree: map<Text, Entry>, change: Change): Option<map<Text, Entry>> {
    match change
    case Added(entry) => if entry.path in tree then None else Some(tree[entry.path := entry])
    case Removed(entry) =>
      if Lookup(tree, entry.path) != Some(entry) then None else Some(tree - {entry.path})
    case Modified(before, after) =>
      if Lookup(tree, before.path) != Some(before) || after.path != before.path || after == before then None
      else Some(tree[after.path := after])
  }

  function Apply(tree: map<Text, Entry>, changes: seq<Change>): Option<map<Text, Entry>>
    decreases |changes|
  {
    if changes == [] then Some(tree)
    else
      var next := ApplyOne(tree, changes[0]);
      if next.None? then None else Apply(next.value, changes[1..])
  }

  lemma {:induction false} CanonicalTail(entries: seq<Entry>)
    requires Canonical(entries) && entries != []
    ensures Canonical(entries[1..])
    ensures forall p :: p in Tree(entries[1..]) ==> Less(entries[0].path, p)
    ensures entries[0].path !in Tree(entries[1..])
  {
    SortedTail(PathOf(), entries);
    TreeEntries(entries[1..]);
    LessIrreflexive(entries[0].path);
  }

  /** No path of a canonical manifest sorts before its first entry. */
  lemma {:induction false} HeadBounds(entries: seq<Entry>, path: Text)
    requires Canonical(entries) && entries != []
    requires Less(path, entries[0].path)
    ensures path !in Tree(entries)
  {
    TreeEntries(entries);
    if path in Tree(entries) {
      HeadIsLeast(PathOf(), entries, Tree(entries)[path]);
      LessAsymmetric(path, entries[0].path);
    }
  }

  lemma {:induction false} TreeMember(entries: seq<Entry>, entry: Entry)
    requires Canonical(entries) && entry in entries
    ensures Lookup(Tree(entries), entry.path) == Some(entry)
  {
    TreeEntries(entries);
    var other := Tree(entries)[entry.path];
    var i :| 0 <= i < |entries| && entries[i] == entry;
    var j :| 0 <= j < |entries| && entries[j] == other;
    StrictlySortedDistinct(Keys(PathOf(), entries), i, j);
  }

  /** A canonical manifest is determined by its tree. */
  lemma {:induction false} TreeDetermines(a: seq<Entry>, b: seq<Entry>)
    requires Canonical(a) && Canonical(b) && Tree(a) == Tree(b)
    ensures a == b
  {
    TreeEntries(a);
    TreeEntries(b);
    forall entry ensures entry in a <==> entry in b {
      if entry in a { TreeMember(a, entry); }
      if entry in b { TreeMember(b, entry); }
    }
    SortedUnique(PathOf(), a, b);
  }

  // ----- what the merge produces -----

  /** The paths of a merge, all at or after `bound` when both inputs are. */
  ghost predicate From(bound: Text, entries: seq<Entry>) {
    forall entry :: entry in entries ==> Less(bound, entry.path)
  }

  ghost predicate ChangesFrom(bound: Text, changes: seq<Change>) {
    forall i :: 0 <= i < |changes| ==> Less(bound, ChangePath(changes[i]))
  }

  lemma {:induction false} MergeFrom(bound: Text, left: seq<Entry>, right: seq<Entry>)
    requires From(bound, left) && From(bound, right)
    ensures ChangesFrom(bound, Merge(left, right))
    decreases |left| + |right|
  {
    if left == [] && right == [] {
    } else if right == [] || (left != [] && Less(left[0].path, right[0].path)) {
      MergeFrom(bound, left[1..], right);
    } else if left == [] || Less(right[0].path, left[0].path) {
      MergeFrom(bound, left, right[1..]);
    } else {
      MergeFrom(bound, left[1..], right[1..]);
    }
  }

  lemma {:induction false} SmallerHead(bound: Text, entries: seq<Entry>)
    requires Canonical(entries)
    requires entries == [] || Less(bound, entries[0].path)
    ensures From(bound, entries)
  {
    forall entry | entry in entries ensures Less(bound, entry.path) {
      HeadIsLeast(PathOf(), entries, entry);
      if entry != entries[0] { LessTransitive(bound, entries[0].path, entry.path); }
    }
  }

  function ChangePaths(changes: seq<Change>): (paths: seq<Text>)
    ensures |paths| == |changes|
    ensures forall i :: 0 <= i < |paths| ==> paths[i] == ChangePath(changes[i])
  {
    seq(|changes|, i requires 0 <= i < |changes| => ChangePath(changes[i]))
  }

  lemma {:induction false} PrependSorted(change: Change, changes: seq<Change>)
    requires StrictlySorted(ChangePaths(changes)) && ChangesFrom(ChangePath(change), changes)
    ensures StrictlySorted(ChangePaths([change] + changes))
  {
    var all := ChangePaths([change] + changes);
    forall i, j | 0 <= i < j < |all| ensures Less(all[i], all[j]) {
      if i > 0 { assert Less(ChangePaths(changes)[i - 1], ChangePaths(changes)[j - 1]); }
    }
  }

  /** Every path occurs at most once in a diff, in canonical order. */
  lemma {:induction false} MergeSorted(left: seq<Entry>, right: seq<Entry>)
    requires Canonical(left) && Canonical(right)
    ensures StrictlySorted(ChangePaths(Merge(left, right)))
    decreases |left| + |right|
  {
    if left == [] && right == [] {
    } else if right == [] || (left != [] && Less(left[0].path, right[0].path)) {
      SortedTail(PathOf(), left);
      MergeSorted(left[1..], right);
      SmallerHead(left[0].path, right);
      MergeFrom(left[0].path, left[1..], right);
      PrependSorted(Removed(left[0]), Merge(left[1..], right));
    } else if left == [] || Less(right[0].path, left[0].path) {
      SortedTail(PathOf(), right);
      MergeSorted(left, right[1..]);
      SmallerHead(right[0].path, left);
      MergeFrom(right[0].path, left, right[1..]);
      PrependSorted(Added(right[0]), Merge(left, right[1..]));
    } else {
      LessTotal(left[0].path, right[0].path);
      SortedTail(PathOf(), left);
      SortedTail(PathOf(), right);
      MergeSorted(left[1..], right[1..]);
      MergeFrom(left[0].path, left[1..], right[1..]);
      if left[0] != right[0] { PrependSorted(Modified(left[0], right[0]), Merge(left[1..], right[1..])); }
    }
  }

  lemma {:induction false} ApplyOneFrame(base: map<Text, Entry>, path: Text, entry: Entry, change: Change)
    requires path != ChangePath(change) && path !in base && ApplyOne(base, change).Some?
    ensures path !in ApplyOne(base, change).value
    ensures ApplyOne(base[path := entry], change) == Some(ApplyOne(base, change).value[path := entry])
  {
    var next, framed := ApplyOne(base, change).value, ApplyOne(base[path := entry], change);
    assert framed.Some?;
    assert framed.value == next[path := entry];
  }

  /** What stays untouched while the rest of a patch is applied. */
  lemma {:induction false} ApplyFrame(base: map<Text, Entry>, path: Text, entry: Entry, changes: seq<Change>)
    requires ChangesFrom(path, changes) && path !in base && Apply(base, changes).Some?
    ensures Apply(base[path := entry], changes) == Some(Apply(base, changes).value[path := entry])
    decreases |changes|
  {
    if changes != [] {
      LessAsymmetric(path, ChangePath(changes[0]));
      ApplyOneFrame(base, path, entry, changes[0]);
      ApplyFrame(ApplyOne(base, changes[0]).value, path, entry, changes[1..]);
    }
  }

  lemma {:induction false} ApplyFirst(tree: map<Text, Entry>, change: Change, changes: seq<Change>)
    requires ApplyOne(tree, change).Some?
    ensures Apply(tree, [change] + changes) == Apply(ApplyOne(tree, change).value, changes)
  {
    assert ([change] + changes)[1..] == changes;
  }

  lemma {:induction false} PatchRemoved(left: seq<Entry>, right: seq<Entry>)
    requires Canonical(left) && Canonical(right) && left != []
    requires right == [] || Less(left[0].path, right[0].path)
    requires Apply(Tree(left[1..]), Merge(left[1..], right)) == Some(Tree(right))
    ensures Apply(Tree(left), Merge(left, right)) == Some(Tree(right))
  {
    CanonicalTail(left);
    assert Tree(left) - {left[0].path} == Tree(left[1..]);
    ApplyFirst(Tree(left), Removed(left[0]), Merge(left[1..], right));
  }

  lemma {:induction false} PatchAdded(left: seq<Entry>, right: seq<Entry>)
    requires Canonical(left) && Canonical(right) && right != []
    requires left == [] || Less(right[0].path, left[0].path)
    requires Apply(Tree(left), Merge(left, right[1..])) == Some(Tree(right[1..]))
    ensures Apply(Tree(left), Merge(left, right)) == Some(Tree(right))
  {
    var head, rest := right[0], Merge(left, right[1..]);
    SmallerHead(head.path, left);
    SortedTail(PathOf(), right);
    MergeFrom(head.path, left, right[1..]);
    if left != [] {
      HeadBounds(left, head.path);
      LessAsymmetric(head.path, left[0].path);
    }
    ApplyFrame(Tree(left), head.path, head, rest);
    ApplyFirst(Tree(left), Added(head), rest);
  }

  lemma {:induction false} PatchShared(left: seq<Entry>, right: seq<Entry>)
    requires Canonical(left) && Canonical(right) && left != [] && right != []
    requires left[0].path == right[0].path
    requires Apply(Tree(left[1..]), Merge(left[1..], right[1..])) == Some(Tree(right[1..]))
    ensures Apply(Tree(left), Merge(left, right)) == Some(Tree(right))
  {
    var path, rest := left[0].path, Merge(left[1..], right[1..]);
    LessIrreflexive(path);
    CanonicalTail(left);
    SortedTail(PathOf(), left);
    SortedTail(PathOf(), right);
    MergeFrom(path, left[1..], right[1..]);
    ApplyFrame(Tree(left[1..]), path, right[0], rest);
    assert Tree(left)[path := right[0]] == Tree(left[1..])[path := right[0]];
    if left[0] != right[0] {
      ApplyFirst(Tree(left), Modified(left[0], right[0]), rest);
    } else {
      assert Merge(left, right) == rest;
    }
  }

  /** The diff is an exact patch: strictly applied to the first tree it yields the second. */
  lemma {:induction false} MergePatches(left: seq<Entry>, right: seq<Entry>)
    requires Canonical(left) && Canonical(right)
    ensures Apply(Tree(left), Merge(left, right)) == Some(Tree(right))
    decreases |left| + |right|
  {
    if left == [] && right == [] {
    } else if right == [] || (left != [] && Less(left[0].path, right[0].path)) {
      SortedTail(PathOf(), left);
      MergePatches(left[1..], right);
      PatchRemoved(left, right);
    } else if left == [] || Less(right[0].path, left[0].path) {
      SortedTail(PathOf(), right);
      MergePatches(left, right[1..]);
      PatchAdded(left, right);
    } else {
      LessTotal(left[0].path, right[0].path);
      SortedTail(PathOf(), left);
      SortedTail(PathOf(), right);
      MergePatches(left[1..], right[1..]);
      PatchShared(left, right);
    }
  }

  ghost predicate Disagree(left: seq<Entry>, right: seq<Entry>, path: Text) {
    Lookup(Tree(left), path) != Lookup(Tree(right), path)
  }

  ghost predicate Reported(changes: seq<Change>, path: Text) {
    exists i :: 0 <= i < |changes| && ChangePath(changes[i]) == path
  }

  lemma {:induction false} ReportedFirst(change: Change, changes: seq<Change>, path: Text)
    ensures Reported([change] + changes, path) <==> ChangePath(change) == path || Reported(changes, path)
  {
    var all := [change] + changes;
    if ChangePath(change) == path { assert ChangePath(all[0]) == path; }
    if i :| 0 <= i < |changes| && ChangePath(changes[i]) == path { assert ChangePath(all[i + 1]) == path; }
  }

  lemma {:induction false} DisagreeRemoved(left: seq<Entry>, right: seq<Entry>, path: Text)
    requires Canonical(left) && Canonical(right) && left != []
    requires right == [] || Less(left[0].path, right[0].path)
    ensures Disagree(left, right, path) <==> path == left[0].path || Disagree(left[1..], right, path)
  {
    CanonicalTail(left);
    if right != [] { HeadBounds(right, left[0].path); }
  }

  lemma {:induction false} DisagreeAdded(left: seq<Entry>, right: seq<Entry>, path: Text)
    requires Canonical(left) && Canonical(right) && right != []
    requires left == [] || Less(right[0].path, left[0].path)
    ensures Disagree(left, right, path) <==> path == right[0].path || Disagree(left, right[1..], path)
  {
    CanonicalTail(right);
    if left != [] { HeadBounds(left, right[0].path); }
  }

  lemma {:induction false} DisagreeShared(left: seq<Entry>, right: seq<Entry>, path: Text)
    requires Canonical(left) && Canonical(right) && left != [] && right != []
    requires left[0].path == right[0].path
    ensures Disagree(left, right, path)
      <==> (path == left[0].path && left[0] != right[0]) || Disagree(left[1..], right[1..], path)
  {
    CanonicalTail(left);
    CanonicalTail(right);
  }

  /** A path is reported exactly when the two snapshots disagree about it. */
  lemma {:induction false} MergeExact(left: seq<Entry>, right: seq<Entry>, path: Text)
    requires Canonical(left) && Canonical(right)
    ensures Reported(Merge(left, right), path) <==> Disagree(left, right, path)
    decreases |left| + |right|
  {
    if left == [] && right == [] {
    } else if right == [] || (left != [] && Less(left[0].path, right[0].path)) {
      SortedTail(PathOf(), left);
      MergeExact(left[1..], right, path);
      DisagreeRemoved(left, right, path);
      ReportedFirst(Removed(left[0]), Merge(left[1..], right), path);
    } else if left == [] || Less(right[0].path, left[0].path) {
      SortedTail(PathOf(), right);
      MergeExact(left, right[1..], path);
      DisagreeAdded(left, right, path);
      ReportedFirst(Added(right[0]), Merge(left, right[1..]), path);
    } else {
      LessTotal(left[0].path, right[0].path);
      SortedTail(PathOf(), left);
      SortedTail(PathOf(), right);
      MergeExact(left[1..], right[1..], path);
      DisagreeShared(left, right, path);
      if left[0] != right[0] {
        ReportedFirst(Modified(left[0], right[0]), Merge(left[1..], right[1..]), path);
      } else {
        assert Merge(left, right) == Merge(left[1..], right[1..]);
      }
    }
  }

  /** Two canonical snapshots compare equal exactly when nothing is reported. */
  lemma {:induction false} EmptyDiff(left: seq<Entry>, right: seq<Entry>)
    requires Canonical(left) && Canonical(right)
    ensures Merge(left, right) == [] <==> left == right
  {
    if Merge(left, right) == [] {
      MergePatches(left, right);
      TreeDetermines(left, right);
    }
    if left == right {
      if Merge(left, right) != [] {
        MergeExact(left, right, ChangePath(Merge(left, right)[0]));
      }
    }
  }

  lemma {:induction false} ReversedFirst(change: Change, changes: seq<Change>)
    ensures Reversed([change] + changes) == [Reverse(change)] + Reversed(changes)
  {
  }

  /** Reversing the evidence is the same as comparing in the other direction. */
  lemma {:induction false} ReversedDiff(left: seq<Entry>, right: seq<Entry>)
    ensures Reversed(Merge(left, right)) == Merge(right, left)
    decreases |left| + |right|
  {
    if left == [] && right == [] {
    } else if right == [] || (left != [] && Less(left[0].path, right[0].path)) {
      ReversedDiff(left[1..], right);
      ReversedFirst(Removed(left[0]), Merge(left[1..], right));
      if right != [] { LessAsymmetric(left[0].path, right[0].path); }
    } else if left == [] || Less(right[0].path, left[0].path) {
      ReversedDiff(left, right[1..]);
      ReversedFirst(Added(right[0]), Merge(left, right[1..]));
    } else {
      ReversedDiff(left[1..], right[1..]);
      ReversedFirst(Modified(left[0], right[0]), Merge(left[1..], right[1..]));
      assert [] + Merge(left[1..], right[1..]) == Merge(left[1..], right[1..]);
    }
  }
}
