/** The anchored ignore globs of the workspace scanner. */
module Glob {
  import opened Bytes

  const STAR: Byte := 42

  /** `*` stays inside one path component, `**` crosses separators. */
  datatype Token = Literal(value: Byte) | Component | Recursive

  /** Reads a pattern left to right; two stars in a row always form one recursive wildcard. */
  function Tokens(pattern: Text): seq<Token> {
    if pattern == [] then []
    else if pattern[0] != STAR then [Literal(pattern[0])] + Tokens(pattern[1..])
    else if |pattern| > 1 && pattern[1] == STAR then [Recursive] + Tokens(pattern[2..])
    else [Component] + Tokens(pattern[1..])
  }

  // ----- meaning -----

  /** The pieces of a path that one token stands for. */
  predicate Covers(token: Token, piece: Text) {
    match token
    case Literal(value) => piece == [value]
    case Component => SLASH !in piece
    case Recursive => true
  }

  /** Piece `i` of the path, between two consecutive cuts, is one that token `i` stands for. */
  ghost predicate CoversPiece(tokens: seq<Token>, path: Text, cuts: seq<nat>, i: nat)
    requires i < |tokens| && |cuts| == |tokens| + 1
  {
    cuts[i] <= cuts[i + 1] <= |path| && Covers(tokens[i], path[cuts[i]..cuts[i + 1]])
  }

  /** `cuts` splits the path into one consecutive piece per token. */
  ghost predicate Splits(tokens: seq<Token>, path: Text, cuts: seq<nat>) {
    && |cuts| == |tokens| + 1
    && cuts[0] == 0 && cuts[|tokens|] == |path|
    && forall i :: 0 <= i < |tokens| ==> CoversPiece(tokens, path, cuts, i)
  }

  /** A pattern matches a whole path when some split gives every token a piece it stands for. */
  ghost predicate Matches(tokens: seq<Token>, path: Text) {
    exists cuts :: Splits(tokens, path, cuts)
  }

  // ----- one more token -----

  lemma SplitsPrefix(tokens: seq<Token>, token: Token, path: Text, cuts: seq<nat>)
    requires Splits(tokens + [token], path, cuts)
    ensures cuts[|tokens|] <= |path|
    ensures Splits(tokens, path[..cuts[|tokens|]], cuts[..|tokens| + 1])
    ensures Covers(token, path[cuts[|tokens|]..])
  {
    var n := |tokens|;
    var cut, head := cuts[n], cuts[..n + 1];
    assert CoversPiece(tokens + [token], path, cuts, n);
    assert path[cut..cuts[n + 1]] == path[cut..];
    CutsIncrease(tokens + [token], path, cuts, n);
    forall i: nat | i < n ensures CoversPiece(tokens, path[..cut], head, i) {
      assert CoversPiece(tokens + [token], path, cuts, i);
      assert path[..cut][cuts[i]..cuts[i + 1]] == path[cuts[i]..cuts[i + 1]];
    }
  }

  lemma {:induction false} CutsIncrease(tokens: seq<Token>, path: Text, cuts: seq<nat>, n: nat)
    requires Splits(tokens, path, cuts) && n < |cuts|
    ensures forall i :: 0 <= i <= n ==> cuts[i] <= cuts[n]
  {
    if n > 0 {
      assert CoversPiece(tokens, path, cuts, n - 1);
      CutsIncrease(tokens, path, cuts, n - 1);
    }
  }

  lemma SplitsExtend(tokens: seq<Token>, token: Token, path: Text, k: nat, cuts: seq<nat>)
    requires k <= |path| && Splits(tokens, path[..k], cuts) && Covers(token, path[k..])
    ensures Splits(tokens + [token], path, cuts + [|path|])
  {
    var all, more := tokens + [token], cuts + [|path|];
    forall i: nat | i < |all| ensures CoversPiece(all, path, more, i) {
      if i < |tokens| {
        assert CoversPiece(tokens, path[..k], cuts, i);
        assert path[..k][cuts[i]..cuts[i + 1]] == path[cuts[i]..cuts[i + 1]];
      } else {
        assert path[k..|path|] == path[k..];
      }
    }
  }

  /** A pattern ending in `token` matches when the rest matches a prefix and `token` covers what follows. */
  lemma MatchesLast(tokens: seq<Token>, token: Token, path: Text)
    ensures Matches(tokens + [token], path)
      <==> exists k :: 0 <= k <= |path| && Matches(tokens, path[..k]) && Covers(token, path[k..])
  {
    if Matches(tokens + [token], path) {
      var cuts :| Splits(tokens + [token], path, cuts);
      SplitsPrefix(tokens, token, path, cuts);
      assert Matches(tokens, path[..cuts[|tokens|]]);
    }
    if k :| 0 <= k <= |path| && Matches(tokens, path[..k]) && Covers(token, path[k..]) {
      var cuts :| Splits(tokens, path[..k], cuts);
      SplitsExtend(tokens, token, path, k, cuts);
    }
  }

  // ----- the recurrence the table computes -----

  lemma NoTokens(path: Text)
    ensures Matches([], path) <==> path == []
  {
    if path == [] { assert Splits([], path, [0]); }
  }

  lemma LiteralStep(tokens: seq<Token>, value: Byte, path: Text)
    ensures Matches(tokens + [Literal(value)], path)
      <==> path != [] && Matches(tokens, path[..|path| - 1]) && path[|path| - 1] == value
  {
    MatchesLast(tokens, Literal(value), path);
    if path != [] {
      assert path[|path| - 1..] == [path[|path| - 1]];
    }
    forall k | 0 <= k <= |path| && Covers(Literal(value), path[k..]) ensures path != [] && k == |path| - 1 {
      assert |path[k..]| == 1;
    }
  }

  lemma WildcardStep(tokens: seq<Token>, token: Token, path: Text)
    requires !token.Literal?
    ensures Matches(tokens + [token], path)
      <==> Matches(tokens, path)
           || (path != [] && Matches(tokens + [token], path[..|path| - 1])
               && (token.Recursive? || path[|path| - 1] != SLASH))
  {
    MatchesLast(tokens, token, path);
    assert path[..|path|] == path && path[|path|..] == [];
    if path != [] {
      var short, last := path[..|path| - 1], path[|path| - 1];
      MatchesLast(tokens, token, short);
      forall k | 0 <= k < |path|
        ensures path[..k] == short[..k]
        ensures Covers(token, path[k..]) <==> Covers(token, short[k..]) && (token.Recursive? || last != SLASH)
      {
        assert path[k..] == short[k..] + [last];
      }
    }
  }

  // ----- tokens read so far -----

  lemma TokensStep(done: seq<Token>, pattern: Text, index: nat, token: Token, width: nat)
    requires index + width <= |pattern| && 1 <= width <= 2
    requires Tokens(pattern) == done + Tokens(pattern[index..])
    requires Tokens(pattern[index..]) == [token] + Tokens(pattern[index..][width..])
    ensures Tokens(pattern) == done + [token] + Tokens(pattern[index + width..])
  {
    assert pattern[index..][width..] == pattern[index + width..];
  }

  /** `row[j]` says whether the tokens match the first `j` bytes of the path. */
  ghost predicate IsRow(row: seq<bool>, tokens: seq<Token>, path: Text) {
    |row| == |path| + 1 && forall j :: 0 <= j <= |path| ==> (row[j] <==> Matches(tokens, path[..j]))
  }

  method WildcardRow(previous: array<bool>, path: Text, recursive: bool, ghost tokens: seq<Token>)
    returns (current: array<bool>)
    requires IsRow(previous[..], tokens, path)
    ensures fresh(current)
    ensures IsRow(current[..], tokens + [if recursive then Recursive else Component], path)
  {
    ghost var more := tokens + [if recursive then Recursive else Component];
    current := new bool[|path| + 1](_ => false);
    WildcardStep(tokens, if recursive then Recursive else Component, path[..0]);
    current[0] := previous[0];
    for offset := 1 to |path| + 1
      invariant forall j :: 0 <= j < offset ==> (current[j] <==> Matches(more, path[..j]))
    {
      WildcardStep(tokens, if recursive then Recursive else Component, path[..offset]);
      assert path[..offset][..offset - 1] == path[..offset - 1];
      assert previous[..][offset] == previous[offset];
      current[offset] := previous[offset]
        || (current[offset - 1] && (recursive || path[offset - 1] != SLASH));
    }
  }

  method LiteralRow(previous: array<bool>, path: Text, value: Byte, ghost tokens: seq<Token>)
    returns (current: array<bool>)
    requires IsRow(previous[..], tokens, path)
    ensures fresh(current)
    ensures IsRow(current[..], tokens + [Literal(value)], path)
  {
    ghost var more := tokens + [Literal(value)];
    current := new bool[|path| + 1](_ => false);
    LiteralStep(tokens, value, path[..0]);
    for offset := 1 to |path| + 1
      invariant forall j :: 0 <= j < offset ==> (current[j] <==> Matches(more, path[..j]))
    {
      LiteralStep(tokens, value, path[..offset]);
      assert path[..offset][..offset - 1] == path[..offset - 1];
      assert previous[..][offset - 1] == previous[offset - 1];
      current[offset] := previous[offset - 1] && value == path[offset - 1];
    }
  }

  /** The scanner's table, one row per token, kept in a single buffer that each row replaces. */
  method GlobMatches(pattern: Text, path: Text) returns (matched: bool)
    ensures matched <==> Matches(Tokens(pattern), path)
  {
    var previous := new bool[|path| + 1](_ => false);
    previous[0] := true;
    var index := 0;
    ghost var done: seq<Token> := [];
    forall j | 0 <= j <= |path| ensures previous[j] <==> Matches(done, path[..j]) {
      NoTokens(path[..j]);
    }
    assert pattern[0..] == pattern;
    while index < |pattern|
      invariant 0 <= index <= |pattern|
      invariant Tokens(pattern) == done + Tokens(pattern[index..])
      invariant IsRow(previous[..], done, path)
    {
      var recursive := pattern[index] == STAR && index + 1 < |pattern| && pattern[index + 1] == STAR;
      if pattern[index] == STAR {
        TokensStep(done, pattern, index, if recursive then Recursive else Component, if recursive then 2 else 1);
        previous := WildcardRow(previous, path, recursive, done);
        done := done + [if recursive then Recursive else Component];
        index := index + (if recursive then 2 else 1);
      } else {
        TokensStep(done, pattern, index, Literal(pattern[index]), 1);
        previous := LiteralRow(previous, path, pattern[index], done);
        done := done + [Literal(pattern[index])];
        index := index + 1;
      }
    }
    assert done + Tokens([]) == done && path[..|path|] == path;
    assert previous[..][|path|] == previous[|path|];
    return previous[|path|];
  }

  // ----- what the documentation promises of patterns -----

  /** A pattern without stars matches itself and nothing else. */
  lemma {:induction false} LiteralPattern(pattern: Text, path: Text)
    requires STAR !in pattern
    ensures Matches(Tokens(pattern), path) <==> path == pattern
  {
    LiteralTokens(pattern);
    if pattern == [] {
      NoTokens(path);
    } else {
      var front, last := pattern[..|pattern| - 1], pattern[|pattern| - 1];
      assert pattern == front + [last];
      LiteralTokens(front);
      assert Tokens(pattern) == Tokens(front) + [Literal(last)];
      LiteralStep(Tokens(front), last, path);
      if path != [] {
        assert path == path[..|path| - 1] + [path[|path| - 1]];
        LiteralPattern(front, path[..|path| - 1]);
      }
    }
  }

  lemma {:induction false} LiteralTokens(pattern: Text)
    requires STAR !in pattern
    ensures Tokens(pattern) == seq(|pattern|, i requires 0 <= i < |pattern| => Literal(pattern[i]))
  {
    if pattern != [] { LiteralTokens(pattern[1..]); }
  }

  // ----- what stars mean in the text of a pattern -----

  /** Consecutive tokens match consecutive pieces. */
  lemma {:induction false} MatchesJoin(ts: seq<Token>, us: seq<Token>, path: Text)
    ensures Matches(ts + us, path)
      <==> exists k :: 0 <= k <= |path| && Matches(ts, path[..k]) && Matches(us, path[k..])
  {
    if us == [] {
      assert ts + us == ts;
      forall k | 0 <= k <= |path| ensures Matches(us, path[k..]) <==> k == |path| { NoTokens(path[k..]); }
      assert path[..|path|] == path;
    } else {
      var front, last := us[..|us| - 1], us[|us| - 1];
      assert us == front + [last] && ts + us == ts + front + [last];
      MatchesLast(ts + front, last, path);
      forall j | 0 <= j <= |path|
        ensures Matches(ts + front, path[..j])
          <==> exists k :: 0 <= k <= j && Matches(ts, path[..k]) && Matches(front, path[k..j])
      {
        MatchesJoin(ts, front, path[..j]);
        forall k | 0 <= k <= j ensures path[..j][..k] == path[..k] && path[..j][k..] == path[k..j] {}
      }
      forall k | 0 <= k <= |path|
        ensures Matches(us, path[k..])
          <==> exists j :: k <= j <= |path| && Matches(front, path[k..j]) && Covers(last, path[j..])
      {
        LastFrom(front, last, path, k);
      }
      JoinLast(ts, front, last, path);
    }
  }

  lemma LastFrom(front: seq<Token>, last: Token, path: Text, k: nat)
    requires k <= |path|
    ensures Matches(front + [last], path[k..])
      <==> exists j :: k <= j <= |path| && Matches(front, path[k..j]) && Covers(last, path[j..])
  {
    var rest := path[k..];
    MatchesLast(front, last, rest);
    if i :| 0 <= i <= |rest| && Matches(front, rest[..i]) && Covers(last, rest[i..]) {
      assert rest[..i] == path[k..k + i] && rest[i..] == path[k + i..];
    }
    if j :| k <= j <= |path| && Matches(front, path[k..j]) && Covers(last, path[j..]) {
      assert rest[..j - k] == path[k..j] && rest[j - k..] == path[j..];
    }
  }

  /** The two ways to cut a path in three agree. */
  lemma JoinLast(ts: seq<Token>, front: seq<Token>, last: Token, path: Text)
    requires forall j :: 0 <= j <= |path| ==> (Matches(ts + front, path[..j])
      <==> exists k :: 0 <= k <= j && Matches(ts, path[..k]) && Matches(front, path[k..j]))
    requires forall k :: 0 <= k <= |path| ==> (Matches(front + [last], path[k..])
      <==> exists j :: k <= j <= |path| && Matches(front, path[k..j]) && Covers(last, path[j..]))
    ensures (exists j :: 0 <= j <= |path| && Matches(ts + front, path[..j]) && Covers(last, path[j..]))
      <==> exists k :: 0 <= k <= |path| && Matches(ts, path[..k]) && Matches(front + [last], path[k..])
  {
    if j :| 0 <= j <= |path| && Matches(ts + front, path[..j]) && Covers(last, path[j..]) {
      var k :| 0 <= k <= j && Matches(ts, path[..k]) && Matches(front, path[k..j]);
      assert Matches(front + [last], path[k..]);
    }
    if k :| 0 <= k <= |path| && Matches(ts, path[..k]) && Matches(front + [last], path[k..]) {
      var j :| k <= j <= |path| && Matches(front, path[k..j]) && Covers(last, path[j..]);
      assert Matches(ts + front, path[..j]);
    }
  }

  function Width(pattern: Text): (width: nat)
    requires pattern != []
    ensures 1 <= width <= |pattern|
  {
    if pattern[0] == STAR && |pattern| > 1 && pattern[1] == STAR then 2 else 1
  }

  /** A pattern is its first token and then the tokens of the rest. */
  lemma {:induction false} TokensFirst(pattern: Text)
    ensures pattern == [] ==> Tokens(pattern) == []
    ensures pattern != [] ==>
      var wildcard := if Width(pattern) == 2 then Recursive else Component;
      var first := if pattern[0] != STAR then Literal(pattern[0]) else wildcard;
      Tokens(pattern) == [first] + Tokens(pattern[Width(pattern)..])
  {
  }

  lemma {:induction false} TokensJoin(a: Text, b: Text)
    requires a == [] || b == [] || a[|a| - 1] != STAR || b[0] != STAR
    ensures Tokens(a + b) == Tokens(a) + Tokens(b)
    decreases |a|
  {
    hide Tokens;
    TokensFirst(a);
    TokensFirst(a + b);
    if a == [] {
      assert a + b == b;
    } else {
      var rest := a[Width(a)..];
      assert (a + b)[Width(a)..] == rest + b;
      TokensJoin(rest, b);
    }
  }

  /**
   * Patterns may be taken apart anywhere but between two stars: the whole matches what some cut of the path
   * lets the two parts match.
   */
  lemma {:induction false} PatternJoin(a: Text, b: Text, path: Text)
    requires a == [] || b == [] || a[|a| - 1] != STAR || b[0] != STAR
    ensures Matches(Tokens(a + b), path)
      <==> exists k :: 0 <= k <= |path| && Matches(Tokens(a), path[..k]) && Matches(Tokens(b), path[k..])
  {
    TokensJoin(a, b);
    MatchesJoin(Tokens(a), Tokens(b), path);
  }

  /** Two stars in front of anything, further stars included, skip any beginning of the path. */
  lemma {:induction false} TwoStarsFirst(rest: Text, path: Text)
    ensures Matches(Tokens([STAR, STAR] + rest), path)
      <==> exists k :: 0 <= k <= |path| && Matches(Tokens(rest), path[k..])
  {
    assert ([STAR, STAR] + rest)[2..] == rest;
    assert Tokens([STAR, STAR] + rest) == [Recursive] + Tokens(rest);
    MatchesJoin([Recursive], Tokens(rest), path);
    forall k | 0 <= k <= |path| ensures Matches([Recursive], path[..k]) { OneToken(Recursive, path[..k]); }
  }

  /** One star alone matches whatever holds no slash. */
  lemma {:induction false} OneStar(path: Text)
    ensures Matches(Tokens([STAR]), path) <==> SLASH !in path
  {
    assert [STAR][1..] == [] && Tokens([STAR]) == [Component];
    OneToken(Component, path);
  }

  lemma OneToken(token: Token, path: Text)
    ensures Matches([token], path) <==> Covers(token, path)
  {
    assert [] + [token] == [token] && path[0..] == path;
    MatchesLast([], token, path);
    forall k | 0 <= k <= |path| ensures Matches([], path[..k]) <==> k == 0 { NoTokens(path[..k]); }
  }

  lemma {:induction false} StarsFirst(suffix: Text, path: Text)
    requires STAR !in suffix
    ensures Matches(Tokens([STAR, STAR] + suffix), path) <==> EndsWith(path, suffix)
  {
    hide Matches, Tokens;
    TwoStarsFirst(suffix, path);
    forall j | 0 <= j <= |path| ensures Matches(Tokens(suffix), path[j..]) <==> path[j..] == suffix {
      LiteralPattern(suffix, path[j..]);
    }
  }

  /** Two stars between plain texts stand for any text at all. */
  lemma {:induction false} SubtreePattern(prefix: Text, suffix: Text, path: Text)
    requires STAR !in prefix && STAR !in suffix
    ensures Matches(Tokens(prefix + [STAR, STAR] + suffix), path)
      <==> exists m: Text :: path == prefix + m + suffix
  {
    hide Matches, Tokens;
    assert prefix + [STAR, STAR] + suffix == prefix + ([STAR, STAR] + suffix);
    PatternJoin(prefix, [STAR, STAR] + suffix, path);
    forall k | 0 <= k <= |path|
      ensures Matches(Tokens(prefix), path[..k]) <==> path[..k] == prefix
      ensures Matches(Tokens([STAR, STAR] + suffix), path[k..]) <==> EndsWith(path[k..], suffix)
    {
      LiteralPattern(prefix, path[..k]);
      StarsFirst(suffix, path[k..]);
    }
    AnyBetween(prefix, suffix, path);
  }

  ghost predicate EndsWith(path: Text, suffix: Text) {
    exists j :: 0 <= j <= |path| && path[j..] == suffix
  }

  lemma {:induction false} AnyBetween(prefix: Text, suffix: Text, path: Text)
    ensures (exists k :: 0 <= k <= |path| && path[..k] == prefix && EndsWith(path[k..], suffix))
      <==> exists m: Text :: path == prefix + m + suffix
  {
    if k :| 0 <= k <= |path| && path[..k] == prefix && EndsWith(path[k..], suffix) {
      var m := Middle(prefix, suffix, path, k);
    }
    if m: Text :| path == prefix + m + suffix {
      BetweenEnds(prefix, m, suffix, path);
    }
  }

  lemma {:induction false} Middle(prefix: Text, suffix: Text, path: Text, k: nat) returns (m: Text)
    requires k <= |path| && path[..k] == prefix && EndsWith(path[k..], suffix)
    ensures path == prefix + m + suffix
  {
    var j :| 0 <= j <= |path[k..]| && path[k..][j..] == suffix;
    m := path[k..k + j];
    CutTwice(path, k, k + j);
    assert path[k..][j..] == path[k + j..];
  }

  lemma {:induction false} CutTwice(path: Text, i: nat, j: nat)
    requires i <= j <= |path|
    ensures path == path[..i] + path[i..j] + path[j..]
  {
    assert path[..j] == path[..i] + path[i..j];
    assert path == path[..j] + path[j..];
  }

  lemma {:induction false} BetweenEnds(prefix: Text, m: Text, suffix: Text, path: Text)
    requires path == prefix + m + suffix
    ensures path[..|prefix|] == prefix && EndsWith(path[|prefix|..], suffix)
  {
    assert path[|prefix|..] == m + suffix;
    assert (m + suffix)[|m|..] == suffix;
  }

  /** One star between plain texts stands for any text within one component. */
  lemma {:induction false} ChildPattern(prefix: Text, suffix: Text, path: Text)
    requires STAR !in prefix && STAR !in suffix
    ensures Matches(Tokens(prefix + [STAR] + suffix), path)
      <==> exists m: Text :: SLASH !in m && path == prefix + m + suffix
  {
    hide Matches, Tokens;
    PatternJoin(prefix + [STAR], suffix, path);
    forall j | 0 <= j <= |path|
      ensures Matches(Tokens(suffix), path[j..]) <==> path[j..] == suffix
      ensures Matches(Tokens(prefix + [STAR]), path[..j]) <==> prefix <= path[..j] && SLASH !in path[..j][|prefix|..]
    {
      LiteralPattern(suffix, path[j..]);
      StarLast(prefix, path[..j]);
    }
    OneBetween(prefix, suffix, path);
  }

  lemma OneBetween(prefix: Text, suffix: Text, path: Text)
    ensures (exists j :: 0 <= j <= |path| && path[j..] == suffix
                         && prefix <= path[..j] && SLASH !in path[..j][|prefix|..])
      <==> exists m: Text :: SLASH !in m && path == prefix + m + suffix
  {
    if j :| 0 <= j <= |path| && path[j..] == suffix && prefix <= path[..j] && SLASH !in path[..j][|prefix|..] {
      var m := path[..j][|prefix|..];
      assert path[..j] == prefix + m && path == prefix + m + suffix;
    }
    if m: Text :| SLASH !in m && path == prefix + m + suffix {
      var j := |prefix| + |m|;
      assert path[j..] == suffix && path[..j] == prefix + m;
    }
  }

  lemma {:induction false} StarLast(prefix: Text, path: Text)
    requires STAR !in prefix
    ensures Matches(Tokens(prefix + [STAR]), path) <==> prefix <= path && SLASH !in path[|prefix|..]
  {
    hide Matches, Tokens;
    PatternJoin(prefix, [STAR], path);
    forall k | 0 <= k <= |path|
      ensures Matches(Tokens(prefix), path[..k]) <==> path[..k] == prefix
      ensures Matches(Tokens([STAR]), path[k..]) <==> SLASH !in path[k..]
    {
      LiteralPattern(prefix, path[..k]);
      OneStar(path[k..]);
    }
    if prefix <= path { assert path[..|prefix|] == prefix; }
  }

  /** The scanner's own examples, for any directory, any file name and any nesting. */
  lemma {:induction false} DocumentedPatterns(directory: Text, nested: Text, extension: Text)
    requires STAR !in directory && STAR !in extension && SLASH in nested
    ensures Matches(Tokens(directory + [SLASH] + [STAR, STAR] + []), directory + [SLASH] + nested)
    ensures !Matches(Tokens(directory + [SLASH] + [STAR] + []), directory + [SLASH] + nested)
    ensures SLASH !in extension ==> !Matches(Tokens([] + [STAR] + extension), nested + extension)
    ensures Matches(Tokens([STAR, STAR] + ([SLASH, STAR] + extension)), nested + [SLASH] + extension)
  {
    hide Matches, Tokens;
    var path, short := directory + [SLASH] + nested, nested + extension;
    SubtreePattern(directory + [SLASH], [], path);
    assert path == (directory + [SLASH]) + nested + [];
    ChildPattern(directory + [SLASH], [], path);
    forall m: Text | path == (directory + [SLASH]) + m + [] ensures m == nested {
      assert path[|directory| + 1..] == m;
    }
    ChildPattern([], extension, short);
    forall m: Text | short == [] + m + extension ensures m == nested { assert short[..|nested|] == m; }
    var deep := nested + [SLASH] + extension;
    TwoStarsFirst([SLASH, STAR] + extension, deep);
    assert [SLASH, STAR] + extension == [SLASH] + [STAR] + extension;
    ChildPattern([SLASH], extension, deep[|nested|..]);
    assert deep[|nested|..] == [SLASH] + [] + extension;
  }
}
