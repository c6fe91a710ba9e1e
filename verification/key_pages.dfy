/** Bounded pages over an ordered set of keys, and sweeps that visit every key once. */
module KeyPages {
  import opened Bytes
  import opened Sorting
  import opened Wrappers

  predicate Above(cursor: Option<Text>, key: Text) {
    cursor.None? || Less(cursor.value, key)
  }

  /** The keys above a cursor. */
  function Candidates(members: set<Text>, cursor: Option<Text>): set<Text> {
    set k | k in members && Above(cursor, k)
  }

  /** A page holds the next keys after a cursor, and tells whether there are more. */
  ghost predicate NextKeys(page: seq<Text>, hasMore: bool, members: set<Text>, cursor: Option<Text>, limit: nat) {
    && StrictlySorted(page) && |page| <= limit
    && (forall k :: k in page ==> k in members && Above(cursor, k))
    && (hasMore ==> page != [])
    && (forall k :: k in members && Above(cursor, k) ==> k in page || (hasMore && Less(page[|page| - 1], k)))
    && (hasMore ==> exists k :: k in members && Less(page[|page| - 1], k))
  }

  /** `ORDER BY key LIMIT limit + 1`: the extra row only tells that more exist. */
  method Query(members: set<Text>, cursor: Option<Text>, limit: nat) returns (page: seq<Text>, hasMore: bool)
    requires limit > 0
    ensures NextKeys(page, hasMore, members, cursor, limit)
  {
    var rows := Listing(Candidates(members, cursor));
    var fetched := if |rows| > limit + 1 then rows[..limit + 1] else rows;
    hasMore := |fetched| > limit;
    page := if hasMore then fetched[..limit] else fetched;
    FirstRows(rows, members, cursor, limit);
  }

  lemma {:induction false} FirstRows(rows: seq<Text>, members: set<Text>, cursor: Option<Text>, limit: nat)
    requires limit > 0 && Lists(rows, Candidates(members, cursor))
    ensures NextKeys(if |rows| > limit then rows[..limit] else rows, |rows| > limit, members, cursor, limit)
  {
    hide Less;
    forall i | 0 <= i < |rows| ensures rows[i] in members && Above(cursor, rows[i]) { assert rows[i] in rows; }
    if |rows| > limit {
      var page := rows[..limit];
      var last := page[limit - 1];
      forall k | k in members && Above(cursor, k) ensures k in page || Less(last, k) {
        assert k in rows;
        var i :| 0 <= i < |rows| && rows[i] == k;
        if i < limit { assert page[i] == k; }
      }
      assert rows[limit] in members && Less(last, rows[limit]);
    }
  }

  // ----- bounded selection -----

  /** `kept` are the smallest candidates, at most `capacity` of them. */
  ghost predicate Smallest(kept: set<Text>, candidates: set<Text>, capacity: nat) {
    && kept <= candidates && |kept| <= capacity
    && (|kept| < capacity ==> kept == candidates)
    && forall k, other :: k in kept && other in candidates && other !in kept ==> Less(k, other)
  }

  lemma {:induction false} NothingSmallest(capacity: nat)
    ensures Smallest({}, {}, capacity)
  {
  }

  lemma {:induction false} SmallestWithin(kept: set<Text>, candidates: set<Text>, capacity: nat)
    requires Smallest(kept, candidates, capacity)
    ensures kept <= candidates
  {
  }

  method Largest(keys: set<Text>) returns (last: Text)
    requires keys != {}
    ensures last in keys && forall k :: k in keys && k != last ==> Less(k, last)
  {
    var listed := Listing(keys);
    var some :| some in keys;
    assert some in listed;
    last := listed[|listed| - 1];
    assert last in listed;
    forall k | k in keys && k != last ensures Less(k, last) {
      assert k in listed;
      var i :| 0 <= i < |listed| && listed[i] == k;
    }
  }

  lemma {:induction false} GrowSmallest(kept: set<Text>, candidates: set<Text>, key: Text, capacity: nat)
    requires Smallest(kept, candidates, capacity) && key !in candidates && |kept + {key}| <= capacity
    ensures Smallest(kept + {key}, candidates + {key}, capacity)
  {
    assert key !in kept;
    assert |kept + {key}| == |kept| + 1;
  }

  /** Dropping the largest of one too many keeps the smallest. */
  lemma {:induction false} TrimSmallest(kept: set<Text>, candidates: set<Text>, key: Text, capacity: nat, last: Text)
    requires Smallest(kept, candidates, capacity) && key !in candidates && |kept + {key}| > capacity
    requires last in kept + {key} && forall k :: k in kept + {key} && k != last ==> Less(k, last)
    ensures Smallest(kept + {key} - {last}, candidates + {key}, capacity)
  {
    hide Less;
    var more := kept + {key} - {last};
    assert |kept + {key}| == |kept| + 1;
    assert more + {last} == kept + {key};
    forall k, other | k in more && other in candidates + {key} && other !in more ensures Less(k, other) {
      if other != last {
        assert other in candidates && other !in kept;
        if k == key {
          assert last in kept && Less(key, last) && Less(last, other);
          LessTransitive(key, last, other);
        }
      }
    }
  }

  /** The smallest candidates, listed and cut to the limit, are the next page. */
  lemma {:induction false} SmallestPage(keys: seq<Text>, kept: set<Text>, members: set<Text>, cursor: Option<Text>,
      limit: nat)
    requires limit > 0 && Lists(keys, kept)
    requires Smallest(kept, Candidates(members, cursor), limit + 1)
    ensures NextKeys(if |keys| > limit then keys[..limit] else keys, |keys| > limit, members, cursor, limit)
  {
    hide Less;
    var candidates := Candidates(members, cursor);
    ListedSize(keys, kept);
    forall i | 0 <= i < |keys|
      ensures keys[i] in kept && keys[i] in members && Above(cursor, keys[i]) { assert keys[i] in keys; }
    if |keys| > limit {
      var page := keys[..limit];
      var last := page[limit - 1];
      forall k | k in members && Above(cursor, k) ensures k in page || Less(last, k) {
        if k in kept {
          assert k in keys;
          var i :| 0 <= i < |keys| && keys[i] == k;
          if i < limit { assert page[i] == k; }
        } else {
          assert k in candidates && last in kept;
        }
      }
      assert keys[limit] in members && Less(last, keys[limit]);
    }
  }

  lemma {:induction false} ListedSize(keys: seq<Text>, members: set<Text>)
    requires Lists(keys, members)
    ensures |keys| == |members|
    decreases |keys|
  {
    if keys == [] {
      assert forall k :: k in members ==> k in keys;
      assert members == {};
    } else {
      var n := |keys| - 1;
      var last := keys[n];
      assert last in keys;
      forall k ensures k in keys[..n] <==> k in members - {last} {
        if k in keys[..n] {
          var i :| 0 <= i < n && keys[i] == k;
          assert Less(keys[i], last);
          LessIrreflexive(last);
        }
        if k in members - {last} { assert k in keys; }
      }
      ListedSize(keys[..n], members - {last});
    }
  }

  // ----- sweeping -----

  /** `done` lists, in order, exactly the keys of `all` up to the cursor. */
  ghost predicate Swept(done: seq<Text>, all: set<Text>, cursor: Option<Text>) {
    && StrictlySorted(done)
    && cursor == (if done == [] then None else Some(done[|done| - 1]))
    && (forall k :: k in done ==> k in all)
    && forall k :: k in all ==> k in done || Above(cursor, k)
  }

  /** What has been swept lies at or below the cursor. */
  lemma {:induction false} SweptBelow(done: seq<Text>, all: set<Text>, cursor: Option<Text>, k: Text)
    requires Swept(done, all, cursor) && k in done
    ensures !Above(cursor, k)
  {
    var last := done[|done| - 1];
    var i :| 0 <= i < |done| && done[i] == k;
    LessIrreflexive(last);
    if i < |done| - 1 { LessAsymmetric(k, last); }
  }

  /** From any position inside a page the next key of the page is the next key of all. */
  lemma {:induction false} SweepStep(
    done: seq<Text>, all: set<Text>, before: Option<Text>, page: seq<Text>, hasMore: bool, limit: nat, i: nat)
    requires i < |page| && |done| >= i && done[|done| - i..] == page[..i]
    requires Swept(done, all, if i == 0 then before else Some(page[i - 1]))
    requires NextKeys(page, hasMore, all, before, limit)
    ensures Swept(done + [page[i]], all, Some(page[i]))
  {
    hide Less;
    var cursor := if i == 0 then before else Some(page[i - 1]);
    var next := page[i];
    assert next in page;
    forall j | 0 <= j < i ensures page[j] in done { assert done[|done| - i..][j] == page[..i][j]; }
    if done != [] {
      assert i > 0 ==> Less(page[i - 1], page[i]);
      StrictlySortedAppend(done, next);
    }
    forall k | k in all ensures k in done + [next] || Less(next, k) {
      if k !in done && k != next {
        assert Above(cursor, k);
        if i > 0 && before.Some? {
          assert page[i - 1] in page;
          LessTransitive(before.value, page[i - 1], k);
        }
        if k in page {
          var j :| 0 <= j < |page| && page[j] == k;
          assert j > i;
        } else {
          assert Less(page[|page| - 1], k);
          if i < |page| - 1 { LessTransitive(next, page[|page| - 1], k); }
        }
      }
    }
  }

  /** A page without successors completes the sweep. */
  lemma {:induction false} SweepEnd(done: seq<Text>, all: set<Text>, before: Option<Text>, page: seq<Text>, limit: nat)
    requires NextKeys(page, false, all, before, limit)
    requires |done| >= |page| && done[|done| - |page|..] == page
    requires Swept(done, all, if page == [] then before else Some(page[|page| - 1]))
    ensures Lists(done, all)
  {
    hide Less;
    forall j | 0 <= j < |page| ensures page[j] in done { assert done[|done| - |page|..][j] == page[j]; }
    forall k ensures k in done <==> k in all {
      if k in all && k !in done {
        assert !Above(before, k);
        if page != [] {
          assert page[|page| - 1] in page;
          if before.Some? { LessTransitive(before.value, page[|page| - 1], k); }
        }
      }
    }
  }

  /** Pages ignore what has happened to keys at or below their cursor. */
  lemma {:induction false} PagesAgree(page: seq<Text>, hasMore: bool, a: set<Text>, b: set<Text>,
      cursor: Option<Text>, limit: nat)
    requires NextKeys(page, hasMore, a, cursor, limit)
    requires forall k :: Above(cursor, k) ==> (k in a <==> k in b)
    ensures NextKeys(page, hasMore, b, cursor, limit)
  {
    hide Less;
    if hasMore {
      var k :| k in a && Less(page[|page| - 1], k);
      assert page[|page| - 1] in page;
      if cursor.Some? { LessTransitive(cursor.value, page[|page| - 1], k); }
      assert k in b;
    }
  }
}
