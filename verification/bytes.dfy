/** Bytes, byte strings and the byte-wise order that Rust uses for `str`, `[u8; 32]` and SQLite TEXT. */
module Bytes {
  newtype Byte = b: int | 0 <= b < 256

  /** UTF-8 text is kept as its bytes: every comparison the program makes is byte-wise. */
  type Text = seq<Byte>

  const SLASH: Byte := 47

  /** Unsigned 64-bit integers lie below this bound. */
  const U64_LIMIT := 0x1_0000_0000_0000_0000

  /** The bytes of an ASCII literal. */
  function Ascii(s: string): (t: Text)
    requires forall i :: 0 <= i < |s| ==> s[i] < 128 as char
    ensures |t| == |s|
    ensures forall i :: 0 <= i < |s| ==> t[i] as int == s[i] as int
  {
    seq(|s|, i requires 0 <= i < |s| => s[i] as int as Byte)
  }

  /** Lexicographic order; a proper prefix comes first. */
  predicate Less(a: Text, b: Text) {
    b != [] && (a == [] || a[0] < b[0] || (a[0] == b[0] && Less(a[1..], b[1..])))
  }

  lemma LessIrreflexive(a: Text)
    ensures !Less(a, a)
  {
  }

  lemma {:induction false} LessTransitive(a: Text, b: Text, c: Text)
    requires Less(a, b) && Less(b, c)
    ensures Less(a, c)
  {
    if a != [] && a[0] == b[0] && b[0] == c[0] {
      LessTransitive(a[1..], b[1..], c[1..]);
    }
  }

  lemma {:induction false} LessTotal(a: Text, b: Text)
    ensures Less(a, b) || a == b || Less(b, a)
  {
    if a != [] && b != [] && a[0] == b[0] {
      LessTotal(a[1..], b[1..]);
      if a[1..] == b[1..] {
        assert a == [a[0]] + a[1..] && b == [b[0]] + b[1..];
      }
    }
  }

  lemma LessAsymmetric(a: Text, b: Text)
    requires Less(a, b)
    ensures !Less(b, a) && a != b
  {
    if Less(b, a) { LessTransitive(a, b, a); }
    LessIrreflexive(a);
  }

  /** A common prefix does not change the order. */
  lemma {:induction false} LessUnderPrefix(p: Text, a: Text, b: Text)
    ensures Less(p + a, p + b) <==> Less(a, b)
  {
    if p == [] {
      assert p + a == a && p + b == b;
    } else {
      assert (p + a)[1..] == p[1..] + a && (p + b)[1..] == p[1..] + b;
      LessUnderPrefix(p[1..], a, b);
    }
  }

  /** A path sorts before everything beneath it. */
  lemma PrefixLess(p: Text, rest: Text)
    requires rest != []
    ensures Less(p, p + rest)
  {
    LessUnderPrefix(p, [], rest);
    assert p + [] == p;
  }

  /** Strings of equal length that differ keep their order whatever is appended to each. */
  lemma {:induction false} LessEqualLengths(a: Text, b: Text, x: Text, y: Text)
    requires |a| == |b| && a != b
    ensures Less(a + x, b + y) <==> Less(a, b)
  {
    assert a[0] == (a + x)[0] && b[0] == (b + y)[0];
    if a[0] == b[0] {
      assert a == [a[0]] + a[1..] && b == [b[0]] + b[1..];
      assert (a + x)[1..] == a[1..] + x && (b + y)[1..] == b[1..] + y;
      LessEqualLengths(a[1..], b[1..], x, y);
    }
  }

  /** Strictly increasing, hence without repeats. */
  ghost predicate StrictlySorted(keys: seq<Text>) {
    forall i, j :: 0 <= i < j < |keys| ==> Less(keys[i], keys[j])
  }

  lemma StrictlySortedDistinct(keys: seq<Text>, i: nat, j: nat)
    requires StrictlySorted(keys) && i < |keys| && j < |keys| && keys[i] == keys[j]
    ensures i == j
  {
    if i < j { LessIrreflexive(keys[i]); } else if j < i { LessIrreflexive(keys[j]); }
  }

  /** Appending a key above the last one keeps a sequence sorted. */
  lemma StrictlySortedAppend(keys: seq<Text>, k: Text)
    requires StrictlySorted(keys)
    requires keys == [] || Less(keys[|keys| - 1], k)
    ensures StrictlySorted(keys + [k])
  {
    forall i, j | 0 <= i < j < |keys + [k]| ensures Less((keys + [k])[i], (keys + [k])[j]) {
      if j == |keys| && i < |keys| - 1 {
        LessTransitive(keys[i], keys[|keys| - 1], k);
      }
    }
  }
}
