/** Sorting by a byte-string key: the meaning of `sort_by`, of `BTreeMap` order and of `ORDER BY`. */
module Sorting {
  import opened Bytes

  function Keys<T>(key: T -> Text, xs: seq<T>): (keys: seq<Text>)
    ensures |keys| == |xs|
    ensures forall i :: 0 <= i < |xs| ==> keys[i] == key(xs[i])
  {
    seq(|xs|, i requires 0 <= i < |xs| => key(xs[i]))
  }

  ghost predicate SortedBy<T>(key: T -> Text, xs: seq<T>) {
    StrictlySorted(Keys(key, xs))
  }

  /** Places `x` before the first element that does not sort strictly before it. */
  function Insert<T>(key: T -> Text, x: T, xs: seq<T>): seq<T> {
    if xs == [] || !Less(key(xs[0]), key(x)) then [x] + xs else [xs[0]] + Insert(key, x, xs[1..])
  }

  /** A stable sort: elements with equal keys keep their order. */
  function Sort<T>(key: T -> Text, xs: seq<T>): seq<T> {
    if xs == [] then [] else Insert(key, xs[0], Sort(key, xs[1..]))
  }

  lemma {:induction false} InsertPermutes<T>(key: T -> Text, x: T, xs: seq<T>)
    ensures multiset(Insert(key, x, xs)) == multiset(xs) + multiset{x}
    ensures |Insert(key, x, xs)| == |xs| + 1
  {
    if xs != [] && Less(key(xs[0]), key(x)) {
      InsertPermutes(key, x, xs[1..]);
      assert xs == [xs[0]] + xs[1..];
    }
  }

  lemma {:induction false} SortPermutes<T>(key: T -> Text, xs: seq<T>)
    ensures multiset(Sort(key, xs)) == multiset(xs)
    ensures |Sort(key, xs)| == |xs|
  {
    if xs != [] {
      SortPermutes(key, xs[1..]);
      InsertPermutes(key, xs[0], Sort(key, xs[1..]));
      assert xs == [xs[0]] + xs[1..];
    }
  }

  lemma SortMembers<T>(key: T -> Text, xs: seq<T>)
    ensures forall x :: x in Sort(key, xs) <==> x in xs
  {
    SortPermutes(key, xs);
    forall x ensures x in Sort(key, xs) <==> x in xs {
      assert x in Sort(key, xs) <==> x in multiset(Sort(key, xs));
      assert x in xs <==> x in multiset(xs);
    }
  }

  /** Keys never decrease. */
  ghost predicate Ascending<T>(key: T -> Text, xs: seq<T>) {
    forall i, j :: 0 <= i < j < |xs| ==> !Less(key(xs[j]), key(xs[i]))
  }

  lemma {:induction false} InsertAscending<T>(key: T -> Text, x: T, xs: seq<T>)
    requires Ascending(key, xs)
    ensures Ascending(key, Insert(key, x, xs))
  {
    if xs == [] {
    } else if !Less(key(xs[0]), key(x)) {
      var r := [x] + xs;
      forall i, j | 0 <= i < j < |r| ensures !Less(key(r[j]), key(r[i])) {
        if i == 0 && j > 1 {
          assert !Less(key(xs[j - 1]), key(xs[0]));
          LessTotal(key(xs[0]), key(x));
          if Less(key(r[j]), key(x)) && Less(key(x), key(xs[0])) { LessTransitive(key(r[j]), key(x), key(xs[0])); }
        }
      }
    } else {
      var tail := Insert(key, x, xs[1..]);
      InsertAscending(key, x, xs[1..]);
      InsertPermutes(key, x, xs[1..]);
      forall j | 0 <= j < |tail| ensures !Less(key(tail[j]), key(xs[0])) {
        assert tail[j] in multiset(tail);
        if tail[j] == x {
          LessAsymmetric(key(xs[0]), key(x));
        } else {
          assert tail[j] in xs[1..];
        }
      }
    }
  }

  lemma {:induction false} SortAscending<T>(key: T -> Text, xs: seq<T>)
    ensures Ascending(key, Sort(key, xs))
  {
    if xs != [] {
      SortAscending(key, xs[1..]);
      InsertAscending(key, xs[0], Sort(key, xs[1..]));
    }
  }

  /** No key occurs twice. */
  ghost predicate DistinctKeys<T>(key: T -> Text, xs: seq<T>) {
    forall i, j :: 0 <= i < j < |xs| ==> key(xs[i]) != key(xs[j])
  }

  /** An ascending sequence is strictly sorted exactly when its keys are distinct. */
  lemma AscendingDistinct<T>(key: T -> Text, xs: seq<T>)
    requires Ascending(key, xs)
    ensures DistinctKeys(key, xs) <==> SortedBy(key, xs)
  {
    if DistinctKeys(key, xs) {
      forall i, j | 0 <= i < j < |xs| ensures Less(Keys(key, xs)[i], Keys(key, xs)[j]) {
        LessTotal(key(xs[i]), key(xs[j]));
      }
    }
    if SortedBy(key, xs) {
      forall i, j | 0 <= i < j < |xs| ensures key(xs[i]) != key(xs[j]) {
        assert Less(Keys(key, xs)[i], Keys(key, xs)[j]);
        LessIrreflexive(key(xs[i]));
      }
    }
  }

  /** The smallest element of a sequence sorted by key comes first. */
  lemma HeadIsLeast<T>(key: T -> Text, xs: seq<T>, x: T)
    requires SortedBy(key, xs) && x in xs
    ensures x == xs[0] || Less(key(xs[0]), key(x))
  {
    var i :| 0 <= i < |xs| && xs[i] == x;
    assert i > 0 ==> Less(Keys(key, xs)[0], Keys(key, xs)[i]);
  }

  lemma SortedTail<T>(key: T -> Text, xs: seq<T>)
    requires SortedBy(key, xs) && xs != []
    ensures SortedBy(key, xs[1..])
    ensures xs[0] !in xs[1..]
    ensures forall x :: x in xs[1..] ==> Less(key(xs[0]), key(x))
  {
    forall i, j | 0 <= i < j < |xs[1..]| ensures Less(Keys(key, xs[1..])[i], Keys(key, xs[1..])[j]) {
      assert Less(Keys(key, xs)[i + 1], Keys(key, xs)[j + 1]);
    }
    forall x | x in xs[1..] ensures Less(key(xs[0]), key(x)) {
      var i :| 0 <= i < |xs[1..]| && xs[1..][i] == x;
      assert Less(Keys(key, xs)[0], Keys(key, xs)[i + 1]);
    }
    if xs[0] in xs[1..] { LessIrreflexive(key(xs[0])); }
  }

  /** A strictly sorted sequence is determined by what it contains. */
  lemma {:induction false} SortedUnique<T>(key: T -> Text, a: seq<T>, b: seq<T>)
    requires SortedBy(key, a) && SortedBy(key, b)
    requires forall x :: x in a <==> x in b
    ensures a == b
  {
    assert a == [] || a[0] in a;
    assert b == [] || b[0] in b;
    if a != [] {
      if b != [] {
        HeadIsLeast(key, a, b[0]);
        HeadIsLeast(key, b, a[0]);
        if a[0] != b[0] { LessAsymmetric(key(a[0]), key(b[0])); }
        SortedTail(key, a);
        SortedTail(key, b);
        forall x ensures x in a[1..] <==> x in b[1..] {
          assert x in a <==> x == a[0] || x in a[1..];
          assert x in b <==> x == b[0] || x in b[1..];
        }
        SortedUnique(key, a[1..], b[1..]);
        assert a == [a[0]] + a[1..] && b == [b[0]] + b[1..];
      }
    }
  }

  /** Sorting elements with distinct keys sorts them strictly. */
  lemma SortDistinct<T>(key: T -> Text, xs: seq<T>)
    requires DistinctKeys(key, xs)
    ensures SortedBy(key, Sort(key, xs))
  {
    SortAscending(key, xs);
    SortPermutes(key, xs);
    PermutedDistinct(key, xs, Sort(key, xs));
    AscendingDistinct(key, Sort(key, xs));
  }

  /** Distinctness of keys does not depend on order. */
  lemma PermutedDistinct<T>(key: T -> Text, a: seq<T>, b: seq<T>)
    requires multiset(a) == multiset(b) && DistinctKeys(key, a)
    ensures DistinctKeys(key, b)
  {
    forall i, j | 0 <= i < j < |b| ensures key(b[i]) != key(b[j]) {
      assert b[i] in multiset(b) && b[j] in multiset(b);
      if key(b[i]) == key(b[j]) {
        var m :| 0 <= m < |a| && a[m] == b[i];
        var n :| 0 <= n < |a| && a[n] == b[j];
        assert m == n;
        TwoOccurrences(b, i, j);
        OneOccurrence(key, a, m);
      }
    }
  }

  lemma TwoOccurrences<T>(xs: seq<T>, i: nat, j: nat)
    requires i < j < |xs| && xs[i] == xs[j]
    ensures multiset(xs)[xs[i]] >= 2
  {
    assert xs == xs[..i] + [xs[i]] + xs[i + 1..j] + [xs[j]] + xs[j + 1..];
  }

  lemma OneOccurrence<T>(key: T -> Text, xs: seq<T>, i: nat)
    requires i < |xs| && DistinctKeys(key, xs)
    ensures multiset(xs)[xs[i]] == 1
  {
    assert xs == xs[..i] + [xs[i]] + xs[i + 1..];
    assert xs[i] !in xs[..i] && xs[i] !in xs[i + 1..];
  }

  // ----- ordered sets -----

  /** `keys` is how an ordered set iterates over its members. */
  ghost predicate Lists(keys: seq<Text>, members: set<Text>) {
    StrictlySorted(keys) && forall k :: k in keys <==> k in members
  }

  lemma {:induction false} LeastExists(members: set<Text>)
    requires members != {}
    ensures exists k :: k in members && forall other :: other in members && other != k ==> Less(k, other)
    decreases |members|
  {
    var k :| k in members;
    var rest := members - {k};
    if rest == {} {
      assert forall other :: other in members && other != k ==> other in rest;
    } else {
      LeastExists(rest);
      var least :| least in rest && forall other :: other in rest && other != least ==> Less(least, other);
      LessTotal(k, least);
      if Less(k, least) {
        forall other | other in members && other != k ensures Less(k, other) {
          if other != least { LessTransitive(k, least, other); }
        }
      } else {
        forall other | other in members && other != least ensures Less(least, other) {
          assert other == k || other in rest;
        }
      }
    }
  }

  method Listing(members: set<Text>) returns (keys: seq<Text>)
    ensures Lists(keys, members)
  {
    keys := [];
    var rest := members;
    while rest != {}
      invariant rest <= members && StrictlySorted(keys)
      invariant forall k :: k in members <==> k in keys || k in rest
      invariant forall k, other :: k in keys && other in rest ==> Less(k, other)
      decreases rest
    {
      LeastExists(rest);
      var k :| k in rest && forall other :: other in rest && other != k ==> Less(k, other);
      if keys != [] { assert keys[|keys| - 1] in keys; }
      StrictlySortedAppend(keys, k);
      keys := keys + [k];
      rest := rest - {k};
    }
  }
}
