/** The one-hunk text preview of a changed file. */
module Previews {
  import opened Bytes
  import opened Wrappers

  const MAX_DIFF_LINES := 400
  const CONTEXT := 3
  const NEWLINE: Byte := 10
  const CARRIAGE_RETURN: Byte := 13
  /** The visible stand-in for a carriage return, as UTF-8. */
  const RETURN_SYMBOL: Text := [226, 144, 141]

  // ----- lines -----

  /** Just past the first newline, or the end. */
  function LineEnd(text: Text): (end: nat)
    ensures end <= |text| && (text != [] ==> end > 0)
  {
    if text == [] then 0 else if text[0] == NEWLINE then 1 else 1 + LineEnd(text[1..])
  }

  /** `split_inclusive('\n')`. */
  function Lines(text: Text): seq<Text>
    decreases |text|
  {
    if text == [] then [] else [text[..LineEnd(text)]] + Lines(text[LineEnd(text)..])
  }

  function Join(lines: seq<Text>): Text {
    if lines == [] then [] else lines[0] + Join(lines[1..])
  }

  lemma {:induction false} JoinConcat(a: seq<Text>, b: seq<Text>)
    ensures Join(a + b) == Join(a) + Join(b)
  {
    if a == [] {
      assert a + b == b;
    } else {
      assert (a + b)[1..] == a[1..] + b;
      JoinConcat(a[1..], b);
    }
  }

  lemma {:induction false} JoinLines(text: Text)
    ensures Join(Lines(text)) == text
    decreases |text|
  {
    if text != [] {
      var end := LineEnd(text);
      JoinLines(text[end..]);
      assert text == text[..end] + text[end..];
    }
  }

  predicate Ends(line: Text) { line != [] && line[|line| - 1] == NEWLINE }

  /** Only the last line of a text may lack its newline. */
  ghost predicate AllEnd(lines: seq<Text>) {
    forall i :: 0 <= i < |lines| - 1 ==> Ends(lines[i])
  }

  lemma {:induction false} LineEnds(text: Text)
    requires LineEnd(text) < |text|
    ensures LineEnd(text) > 0 && text[LineEnd(text) - 1] == NEWLINE
  {
    if text[0] != NEWLINE { LineEnds(text[1..]); }
  }

  lemma {:induction false} LinesEnd(text: Text)
    ensures AllEnd(Lines(text))
    decreases |text|
  {
    if text != [] {
      var end := LineEnd(text);
      LinesEnd(text[end..]);
      if end < |text| { LineEnds(text); }
    }
  }

  // ----- the shape of the hunk -----

  datatype Hunk = Hunk(prefix: nat, start: nat, beforeChanged: nat, afterChanged: nat, beforeEnd: nat, afterEnd: nat)

  /** The lines two sequences share at their beginning, as many as there are. */
  method CommonPrefix(a: seq<Text>, b: seq<Text>) returns (n: nat)
    ensures n <= |a| && n <= |b| && a[..n] == b[..n]
    ensures n < |a| && n < |b| ==> a[n] != b[n]
  {
    n := 0;
    while n < |a| && n < |b| && a[n] == b[n]
      invariant n <= |a| && n <= |b| && a[..n] == b[..n]
    {
      n := n + 1;
    }
  }

  /** The lines two sequences share at their end, as many as there are. */
  method CommonSuffix(a: seq<Text>, b: seq<Text>) returns (n: nat)
    ensures n <= |a| && n <= |b| && a[|a| - n..] == b[|b| - n..]
    ensures n < |a| && n < |b| ==> a[|a| - n - 1] != b[|b| - n - 1]
  {
    n := 0;
    while n < |a| && n < |b| && a[|a| - n - 1] == b[|b| - n - 1]
      invariant n <= |a| && n <= |b| && a[|a| - n..] == b[|b| - n..]
    {
      n := n + 1;
    }
  }

  /** The two files agree outside the changed lines, and the context is part of where they agree. */
  ghost predicate Sound(before: seq<Text>, after: seq<Text>, h: Hunk) {
    && h.start <= h.prefix <= h.beforeChanged <= h.beforeEnd <= |before|
    && h.prefix <= h.afterChanged <= h.afterEnd <= |after|
    && before[..h.prefix] == after[..h.prefix]
    && before[h.beforeChanged..] == after[h.afterChanged..]
    && h.beforeEnd - h.beforeChanged == h.afterEnd - h.afterChanged
  }

  /** Nothing that could have been context is shown as changed. */
  ghost predicate Tight(before: seq<Text>, after: seq<Text>, h: Hunk)
    requires Sound(before, after, h)
  {
    && (h.prefix < h.beforeChanged && h.prefix < h.afterChanged ==>
          before[h.prefix] != after[h.prefix] && before[h.beforeChanged - 1] != after[h.afterChanged - 1])
    && h.prefix - h.start <= CONTEXT && h.beforeEnd - h.beforeChanged <= CONTEXT
    && (h.prefix - h.start < CONTEXT ==> h.start == 0)
    && (h.beforeEnd - h.beforeChanged < CONTEXT ==> h.beforeEnd == |before|)
  }

  function HunkOf(before: nat, after: nat, prefix: nat, suffix: nat): Hunk
    requires prefix + suffix <= before && prefix + suffix <= after
  {
    var shown := if suffix < CONTEXT then suffix else CONTEXT;
    Hunk(prefix, if prefix < CONTEXT then 0 else prefix - CONTEXT,
         before - suffix, after - suffix, before - suffix + shown, after - suffix + shown)
  }

  method Locate(before: seq<Text>, after: seq<Text>) returns (h: Hunk)
    ensures Sound(before, after, h) && Tight(before, after, h)
  {
    hide Sound, Tight, HunkOf;
    var prefix := CommonPrefix(before, after);
    var a, b := before[prefix..], after[prefix..];
    var suffix := CommonSuffix(a, b);
    h := HunkOf(|before|, |after|, prefix, suffix);
    LocatedSound(before, after, prefix, suffix, a, b);
    LocatedTight(before, after, prefix, suffix, a, b);
  }

  lemma {:induction false} LocatedSound(before: seq<Text>, after: seq<Text>, prefix: nat, suffix: nat, a: seq<Text>,
      b: seq<Text>)
    requires prefix <= |before| && prefix <= |after| && before[..prefix] == after[..prefix]
    requires a == before[prefix..] && b == after[prefix..] && suffix <= |a| && suffix <= |b|
    requires a[|a| - suffix..] == b[|b| - suffix..]
    ensures Sound(before, after, HunkOf(|before|, |after|, prefix, suffix))
  {
    assert a[|a| - suffix..] == before[|before| - suffix..] && b[|b| - suffix..] == after[|after| - suffix..];
  }

  lemma {:induction false} LocatedTight(before: seq<Text>, after: seq<Text>, prefix: nat, suffix: nat, a: seq<Text>,
      b: seq<Text>)
    requires prefix <= |before| && prefix <= |after|
    requires a == before[prefix..] && b == after[prefix..] && suffix <= |a| && suffix <= |b|
    requires Sound(before, after, HunkOf(|before|, |after|, prefix, suffix))
    requires prefix < |before| && prefix < |after| ==> before[prefix] != after[prefix]
    requires suffix < |a| && suffix < |b| ==> a[|a| - suffix - 1] != b[|b| - suffix - 1]
    ensures Tight(before, after, HunkOf(|before|, |after|, prefix, suffix))
  {
  }

  // ----- the lines of the preview -----

  datatype Mark = Kept | Deleted | Added

  datatype PreviewLine =
    | OldName(path: Option<Text>)
    | NewName(path: Option<Text>)
    | Header(oldStart: nat, oldCount: nat, newStart: nat, newCount: nat)
    | Body(mark: Mark, content: Text)
    | NoNewline
    | Binary
    | EmptyFile
    | Limited

  /** Numbering of unified hunks: a side without lines is numbered by the line before it. */
  function HunkStart(zeroBased: nat, count: nat): nat { if count == 0 then zeroBased else zeroBased + 1 }

  function Escape(line: Text): Text {
    if line == [] then []
    else (if line[0] == CARRIAGE_RETURN then RETURN_SYMBOL else [line[0]]) + Escape(line[1..])
  }

  function Stripped(line: Text): Text { if Ends(line) then line[..|line| - 1] else line }

  function Rendered(mark: Mark, line: Text): seq<PreviewLine> {
    [Body(mark, Escape(Stripped(line)))] + if Ends(line) then [] else [NoNewline]
  }

  function RenderAll(mark: Mark, lines: seq<Text>): seq<PreviewLine> {
    if lines == [] then [] else RenderAll(mark, lines[..|lines| - 1]) + Rendered(mark, lines[|lines| - 1])
  }

  function HunkBody(before: seq<Text>, after: seq<Text>, h: Hunk): seq<PreviewLine>
    requires Sound(before, after, h)
  {
    RenderAll(Kept, before[h.start..h.prefix]) + RenderAll(Deleted, before[h.prefix..h.beforeChanged])
    + RenderAll(Added, after[h.prefix..h.afterChanged]) + RenderAll(Kept, after[h.afterChanged..h.afterEnd])
  }

  function HunkHeader(h: Hunk): PreviewLine
    requires h.start <= h.beforeEnd && h.start <= h.afterEnd
  {
    Header(HunkStart(h.start, h.beforeEnd - h.start), h.beforeEnd - h.start,
           HunkStart(h.start, h.afterEnd - h.start), h.afterEnd - h.start)
  }

  /** At most `MAX_DIFF_LINES`; the last of them tells when that cut something off. */
  function Cut(full: seq<PreviewLine>): (shown: seq<PreviewLine>)
    ensures |full| < MAX_DIFF_LINES ==> shown == full
    ensures |full| >= MAX_DIFF_LINES ==> |shown| == MAX_DIFF_LINES && shown == full[..|shown| - 1] + [Limited]
  {
    if |full| < MAX_DIFF_LINES then full else full[..MAX_DIFF_LINES - 1] + [Limited]
  }

  function Room(full: seq<PreviewLine>): seq<PreviewLine> {
    if |full| < MAX_DIFF_LINES then full else full[..MAX_DIFF_LINES - 1]
  }

  /** Pushes one line, and the mark of a missing newline, while there is room. */
  method PushPreviewLine(output: seq<PreviewLine>, truncated: bool, mark: Mark, line: Text,
      ghost full: seq<PreviewLine>)
    returns (more: seq<PreviewLine>, cut: bool)
    requires output == Room(full) && (truncated <==> |full| >= MAX_DIFF_LINES)
    ensures more == Room(full + Rendered(mark, line)) && (cut <==> |full + Rendered(mark, line)| >= MAX_DIFF_LINES)
  {
    hide Escape;
    if |output| >= MAX_DIFF_LINES - 1 {
      assert (full + Rendered(mark, line))[..MAX_DIFF_LINES - 1] == full[..MAX_DIFF_LINES - 1];
      return output, true;
    }
    more := output + [Body(mark, Escape(Stripped(line)))];
    cut := false;
    if !Ends(line) {
      if |more| >= MAX_DIFF_LINES - 1 {
        cut := true;
      } else {
        more := more + [NoNewline];
      }
    }
  }

  method PushLines(output: seq<PreviewLine>, truncated: bool, mark: Mark, lines: seq<Text>,
      ghost full: seq<PreviewLine>)
    returns (more: seq<PreviewLine>, cut: bool)
    requires output == Room(full) && (truncated <==> |full| >= MAX_DIFF_LINES)
    ensures more == Room(full + RenderAll(mark, lines)) && (cut <==> |full + RenderAll(mark, lines)| >= MAX_DIFF_LINES)
  {
    hide Room, Rendered;
    more, cut := output, truncated;
    assert lines[..0] == [] && full + [] == full;
    for i := 0 to |lines|
      invariant more == Room(full + RenderAll(mark, lines[..i]))
      invariant cut <==> |full + RenderAll(mark, lines[..i])| >= MAX_DIFF_LINES
    {
      assert lines[..i + 1][..i] == lines[..i];
      ghost var far := full + RenderAll(mark, lines[..i]);
      assert full + RenderAll(mark, lines[..i + 1]) == far + Rendered(mark, lines[i]);
      more, cut := PushPreviewLine(more, cut, mark, lines[i], far);
    }
    assert lines[..|lines|] == lines;
  }

  // ----- the preview -----

  function Opening(path: Text, before: Option<Text>, after: Option<Text>): seq<PreviewLine> {
    [OldName(if before.Some? then Some(path) else None), NewName(if after.Some? then Some(path) else None)]
  }

  function Contents(file: Option<Text>): Text { if file.None? then [] else file.value }

  function Full(path: Text, before: Option<Text>, after: Option<Text>, h: Hunk): seq<PreviewLine>
    requires Sound(Lines(Contents(before)), Lines(Contents(after)), h)
  {
    Opening(path, before, after) + [HunkHeader(h)] + HunkBody(Lines(Contents(before)), Lines(Contents(after)), h)
  }

  method UnifiedTextPreview(utf8: Text -> bool, path: Text, before: Option<Text>, after: Option<Text>)
    returns (output: seq<PreviewLine>, ghost h: Hunk)
    ensures |output| <= MAX_DIFF_LINES
    ensures !(utf8(Contents(before)) && utf8(Contents(after))) ==> output == Opening(path, before, after) + [Binary]
    ensures utf8(Contents(before)) && utf8(Contents(after)) && Contents(before) == Contents(after) == [] ==>
      output == Opening(path, before, after) + [EmptyFile]
    ensures utf8(Contents(before)) && utf8(Contents(after)) && !(Contents(before) == Contents(after) == []) ==>
      && Sound(Lines(Contents(before)), Lines(Contents(after)), h)
      && Tight(Lines(Contents(before)), Lines(Contents(after)), h)
      && output == Cut(Full(path, before, after, h))
  {
    hide RenderAll, Tight, Sound, HunkBody, HunkHeader, Lines;
    h := Hunk(0, 0, 0, 0, 0, 0);
    output := Opening(path, before, after);
    if !utf8(Contents(before)) || !utf8(Contents(after)) {
      output := output + [Binary];
      return;
    }
    var a, b := Lines(Contents(before)), Lines(Contents(after));
    NoLines(Contents(before));
    NoLines(Contents(after));
    if a == [] && b == [] {
      output := output + [EmptyFile];
      return;
    }
    var hunk := Locate(a, b);
    h := hunk;
    output := RenderHunk(output, a, b, hunk);
  }

  lemma {:induction false} NoLines(text: Text)
    ensures Lines(text) == [] <==> text == []
  {
  }

  /** Context, deleted lines, added lines, context. */
  method RenderHunk(opening: seq<PreviewLine>, a: seq<Text>, b: seq<Text>, h: Hunk) returns (output: seq<PreviewLine>)
    requires Sound(a, b, h) && |opening| == 2
    ensures output == Cut(opening + [HunkHeader(h)] + HunkBody(a, b, h))
  {
    hide RenderAll;
    output := opening + [HunkHeader(h)];
    ghost var full := output;
    ghost var kept, deleted := RenderAll(Kept, a[h.start..h.prefix]), RenderAll(Deleted, a[h.prefix..h.beforeChanged]);
    ghost var added, rest := RenderAll(Added, b[h.prefix..h.afterChanged]),
        RenderAll(Kept, b[h.afterChanged..h.afterEnd]);
    var cut;
    output, cut := PushLines(output, false, Kept, a[h.start..h.prefix], full);
    output, cut := PushLines(output, cut, Deleted, a[h.prefix..h.beforeChanged], full + kept);
    output, cut := PushLines(output, cut, Added, b[h.prefix..h.afterChanged], full + kept + deleted);
    output, cut := PushLines(output, cut, Kept, b[h.afterChanged..h.afterEnd], full + kept + deleted + added);
    assert full + kept + deleted + added + rest == full + HunkBody(a, b, h);
    if cut {
      output := output + [Limited];
    }
  }

  // ----- reading a preview as a patch -----

  datatype Marked = Marked(mark: Mark, line: Text)

  /** The marked lines a reader sees; a missing newline belongs to the line before it. */
  function ReadBack(lines: seq<PreviewLine>): seq<Marked>
    decreases |lines|
  {
    if lines == [] then []
    else if !lines[0].Body? then ReadBack(lines[1..])
    else if |lines| > 1 && lines[1].NoNewline? then [Marked(lines[0].mark, lines[0].content)] + ReadBack(lines[2..])
    else [Marked(lines[0].mark, lines[0].content + [NEWLINE])] + ReadBack(lines[1..])
  }

  function OldSide(body: seq<Marked>): seq<Text> {
    if body == [] then [] else (if body[0].mark.Added? then [] else [body[0].line]) + OldSide(body[1..])
  }

  function NewSide(body: seq<Marked>): seq<Text> {
    if body == [] then [] else (if body[0].mark.Deleted? then [] else [body[0].line]) + NewSide(body[1..])
  }

  /** Replaces the old side, where it is found as announced, by the new side. */
  function ApplyPreview(before: seq<Text>, preview: seq<PreviewLine>): Option<Text> {
    if |preview| < 3 || !preview[2].Header? then None
    else
      var header, body := preview[2], ReadBack(preview[3..]);
      var at := if header.oldCount == 0 then header.oldStart else header.oldStart - 1;
      if 0 <= at && at + header.oldCount <= |before| && before[at..at + header.oldCount] == OldSide(body)
         && |NewSide(body)| == header.newCount
      then Some(Join(before[..at] + NewSide(body) + before[at + header.oldCount..]))
      else None
  }

  function EscapeAll(lines: seq<Text>): (escaped: seq<Text>)
    ensures |escaped| == |lines|
    ensures forall i :: 0 <= i < |lines| ==> escaped[i] == Escape(lines[i])
  {
    seq(|lines|, i requires 0 <= i < |lines| => Escape(lines[i]))
  }

  function MarkAll(mark: Mark, lines: seq<Text>): (marked: seq<Marked>)
    ensures |marked| == |lines|
    ensures forall i :: 0 <= i < |lines| ==> marked[i] == Marked(mark, Escape(lines[i]))
  {
    seq(|lines|, i requires 0 <= i < |lines| => Marked(mark, Escape(lines[i])))
  }

  lemma {:induction false} EscapeConcat(a: Text, b: Text)
    ensures Escape(a + b) == Escape(a) + Escape(b)
  {
    if a == [] {
      assert a + b == b;
    } else {
      assert (a + b)[1..] == a[1..] + b;
      EscapeConcat(a[1..], b);
    }
  }

  /** Escaping lengthens a line exactly when it holds a carriage return, and otherwise changes nothing. */
  lemma {:induction false} EscapeLength(line: Text)
    ensures |Escape(line)| >= |line|
    ensures CARRIAGE_RETURN !in line ==> Escape(line) == line
    ensures CARRIAGE_RETURN in line ==> |Escape(line)| > |line|
  {
    if line != [] {
      EscapeLength(line[1..]);
      assert line == [line[0]] + line[1..];
    }
  }

  lemma {:induction false} RenderFirst(mark: Mark, lines: seq<Text>)
    requires lines != []
    ensures RenderAll(mark, lines) == Rendered(mark, lines[0]) + RenderAll(mark, lines[1..])
  {
    hide Rendered, RenderAll;
    var n := |lines| - 1;
    var front, last := lines[..n], lines[n];
    assert lines == front + [last];
    RenderLast(mark, front, last);
    RenderEmpty(mark);
    if n == 0 {
      assert front == [] && lines[1..] == [];
    } else {
      RenderFirst(mark, front);
      assert lines[1..] == front[1..] + [last];
      RenderLast(mark, front[1..], last);
    }
  }

  lemma {:induction false} RenderEmpty(mark: Mark)
    ensures RenderAll(mark, []) == []
  {
  }

  lemma {:induction false} RenderLast(mark: Mark, front: seq<Text>, last: Text)
    ensures RenderAll(mark, front + [last]) == RenderAll(mark, front) + Rendered(mark, last)
  {
    hide Rendered;
    assert (front + [last])[..|front|] == front;
  }

  /** A line is read back escaped, with its newline or without. */
  lemma {:induction false} ReadOne(mark: Mark, line: Text, rest: seq<PreviewLine>)
    requires rest == [] || !rest[0].NoNewline?
    ensures ReadBack(Rendered(mark, line) + rest) == [Marked(mark, Escape(line))] + ReadBack(rest)
  {
    hide Escape;
    var lines := Rendered(mark, line) + rest;
    if Ends(line) {
      EscapeConcat(Stripped(line), [NEWLINE]);
      assert line == Stripped(line) + [NEWLINE];
      EscapeNewline();
      assert lines[1..] == rest;
    } else {
      assert lines[1].NoNewline? && lines[2..] == rest;
    }
  }

  lemma {:induction false} EscapeNewline()
    ensures Escape([NEWLINE]) == [NEWLINE]
  {
    assert [NEWLINE][1..] == [];
  }

  lemma {:induction false} RenderStarts(mark: Mark, lines: seq<Text>, rest: seq<PreviewLine>)
    requires rest == [] || !rest[0].NoNewline?
    ensures RenderAll(mark, lines) + rest == [] || !(RenderAll(mark, lines) + rest)[0].NoNewline?
  {
    if lines != [] { RenderFirst(mark, lines); }
  }

  lemma {:induction false} ReadRendered(mark: Mark, lines: seq<Text>, rest: seq<PreviewLine>)
    requires rest == [] || !rest[0].NoNewline?
    ensures ReadBack(RenderAll(mark, lines) + rest) == MarkAll(mark, lines) + ReadBack(rest)
  {
    hide ReadBack, Rendered, RenderAll;
    if lines == [] {
      RenderNothing(mark);
      assert RenderAll(mark, lines) + rest == rest && MarkAll(mark, lines) == [];
    } else {
      RenderFirst(mark, lines);
      RenderStarts(mark, lines[1..], rest);
      ReadRendered(mark, lines[1..], rest);
      ReadOne(mark, lines[0], RenderAll(mark, lines[1..]) + rest);
      assert RenderAll(mark, lines) + rest == Rendered(mark, lines[0]) + (RenderAll(mark, lines[1..]) + rest);
      assert MarkAll(mark, lines) == [Marked(mark, Escape(lines[0]))] + MarkAll(mark, lines[1..]);
    }
  }

  lemma {:induction false} RenderNothing(mark: Mark)
    ensures RenderAll(mark, []) == [] && ReadBack([]) == []
  {
  }

  lemma {:induction false} SidesConcat(a: seq<Marked>, b: seq<Marked>)
    ensures OldSide(a + b) == OldSide(a) + OldSide(b) && NewSide(a + b) == NewSide(a) + NewSide(b)
  {
    hide OldSide, NewSide;
    if a == [] {
      SidesNothing();
      assert a + b == b;
    } else {
      var x, rest := a[0], a[1..];
      assert a == [x] + rest && a + b == [x] + (rest + b);
      SidesConcat(rest, b);
      SidesFirst(x, rest + b);
      SidesFirst(x, rest);
    }
  }

  lemma {:induction false} SidesNothing()
    ensures OldSide([]) == [] && NewSide([]) == []
  {
  }

  lemma {:induction false} SidesFirst(first: Marked, rest: seq<Marked>)
    ensures OldSide([first] + rest) == (if first.mark.Added? then [] else [first.line]) + OldSide(rest)
    ensures NewSide([first] + rest) == (if first.mark.Deleted? then [] else [first.line]) + NewSide(rest)
  {
    assert ([first] + rest)[1..] == rest;
  }

  lemma {:induction false} SidesOf(mark: Mark, lines: seq<Text>)
    ensures OldSide(MarkAll(mark, lines)) == if mark.Added? then [] else EscapeAll(lines)
    ensures NewSide(MarkAll(mark, lines)) == if mark.Deleted? then [] else EscapeAll(lines)
  {
    if lines != [] {
      SidesOf(mark, lines[1..]);
      assert MarkAll(mark, lines)[1..] == MarkAll(mark, lines[1..]);
      assert EscapeAll(lines) == [Escape(lines[0])] + EscapeAll(lines[1..]);
    }
  }

  lemma {:induction false} ReadHunk(before: seq<Text>, after: seq<Text>, h: Hunk)
    requires Sound(before, after, h)
    ensures ReadBack(HunkBody(before, after, h))
         == MarkAll(Kept, before[h.start..h.prefix]) + MarkAll(Deleted, before[h.prefix..h.beforeChanged])
            + MarkAll(Added, after[h.prefix..h.afterChanged]) + MarkAll(Kept, after[h.afterChanged..h.afterEnd])
  {
    hide RenderAll, ReadBack;
    var a, b := before[h.start..h.prefix], before[h.prefix..h.beforeChanged];
    var c, d := after[h.prefix..h.afterChanged], after[h.afterChanged..h.afterEnd];
    var three := RenderAll(Kept, d) + [];
    var two := RenderAll(Added, c) + three;
    var one := RenderAll(Deleted, b) + two;
    RenderNothing(Kept);
    RenderStarts(Kept, d, []);
    RenderStarts(Added, c, three);
    RenderStarts(Deleted, b, two);
    ReadRendered(Kept, d, []);
    ReadRendered(Added, c, three);
    ReadRendered(Deleted, b, two);
    ReadRendered(Kept, a, one);
    assert HunkBody(before, after, h) == RenderAll(Kept, a) + one;
  }

  /** The two sides of the hunk are the two files' lines there, escaped; the header counts them. */
  lemma {:induction false} HunkSides(before: seq<Text>, after: seq<Text>, h: Hunk)
    requires Sound(before, after, h)
    ensures OldSide(ReadBack(HunkBody(before, after, h))) == EscapeAll(before[h.start..h.beforeEnd])
    ensures NewSide(ReadBack(HunkBody(before, after, h))) == EscapeAll(after[h.start..h.afterEnd])
  {
    hide HunkBody, OldSide, NewSide, ReadBack, EscapeAll, MarkAll;
    ReadHunk(before, after, h);
    var a, b := before[h.start..h.prefix], before[h.prefix..h.beforeChanged];
    var c, d := after[h.prefix..h.afterChanged], after[h.afterChanged..h.afterEnd];
    FourSides(a, b, c, d);
    SameAround(before, after, h);
    assert before[h.start..h.beforeEnd] == a + b + d;
    assert after[h.start..h.afterEnd] == a + c + d;
  }

  lemma {:induction false} FourSides(a: seq<Text>, b: seq<Text>, c: seq<Text>, d: seq<Text>)
    ensures var body := MarkAll(Kept, a) + MarkAll(Deleted, b) + MarkAll(Added, c) + MarkAll(Kept, d);
      OldSide(body) == EscapeAll(a + b + d) && NewSide(body) == EscapeAll(a + c + d)
  {
    hide OldSide, NewSide, EscapeAll, MarkAll;
    SidesOf(Kept, a);
    SidesOf(Deleted, b);
    SidesOf(Added, c);
    SidesOf(Kept, d);
    SidesConcat(MarkAll(Kept, a), MarkAll(Deleted, b));
    SidesConcat(MarkAll(Kept, a) + MarkAll(Deleted, b), MarkAll(Added, c));
    SidesConcat(MarkAll(Kept, a) + MarkAll(Deleted, b) + MarkAll(Added, c), MarkAll(Kept, d));
    EscapeThree(a, b, d);
    EscapeThree(a, c, d);
  }

  lemma {:induction false} EscapeThree(a: seq<Text>, b: seq<Text>, c: seq<Text>)
    ensures EscapeAll(a + b + c) == EscapeAll(a) + EscapeAll(b) + EscapeAll(c)
  {
    hide Escape;
  }

  lemma {:induction false} SameAround(before: seq<Text>, after: seq<Text>, h: Hunk)
    requires Sound(before, after, h)
    ensures before[..h.start] == after[..h.start] && before[h.start..h.prefix] == after[h.start..h.prefix]
    ensures before[h.beforeChanged..h.beforeEnd] == after[h.afterChanged..h.afterEnd]
    ensures before[h.beforeEnd..] == after[h.afterEnd..]
  {
    var n := h.beforeEnd - h.beforeChanged;
    assert before[..h.start] == before[..h.prefix][..h.start] && after[..h.start] == after[..h.prefix][..h.start];
    assert before[h.start..h.prefix] == before[..h.prefix][h.start..]
      && after[h.start..h.prefix] == after[..h.prefix][h.start..];
    assert before[h.beforeChanged..h.beforeEnd] == before[h.beforeChanged..][..n];
    assert after[h.afterChanged..h.afterEnd] == after[h.afterChanged..][..n];
    assert before[h.beforeEnd..] == before[h.beforeChanged..][n..]
      && after[h.afterEnd..] == after[h.afterChanged..][n..];
  }

  ghost predicate NoReturns(lines: seq<Text>) {
    forall i :: 0 <= i < |lines| ==> CARRIAGE_RETURN !in lines[i]
  }

  lemma {:induction false} EscapeAllLength(lines: seq<Text>)
    ensures |Join(EscapeAll(lines))| >= |Join(lines)|
    ensures NoReturns(lines) ==> EscapeAll(lines) == lines
    ensures !NoReturns(lines) ==> |Join(EscapeAll(lines))| > |Join(lines)|
  {
    hide Escape, Join;
    if lines == [] {
      assert EscapeAll(lines) == [];
    } else {
      var x, rest := lines[0], lines[1..];
      EscapeAllLength(rest);
      EscapeLength(x);
      assert EscapeAll(lines) == [Escape(x)] + EscapeAll(rest);
      assert lines == [x] + rest;
      JoinFirst(x, rest);
      JoinFirst(Escape(x), EscapeAll(rest));
      assert NoReturns(lines) <==> CARRIAGE_RETURN !in x && NoReturns(rest) by { FirstReturns(x, rest); }
    }
  }

  lemma {:induction false} JoinFirst(x: Text, rest: seq<Text>)
    ensures Join([x] + rest) == x + Join(rest)
  {
    assert ([x] + rest)[1..] == rest;
  }

  lemma {:induction false} FirstReturns(x: Text, rest: seq<Text>)
    ensures NoReturns([x] + rest) <==> CARRIAGE_RETURN !in x && NoReturns(rest)
  {
    var lines := [x] + rest;
    assert lines[0] == x;
    forall i | 0 <= i < |rest| ensures lines[i + 1] == rest[i] {}
  }

  /**
   * Read as a patch of the first file, a preview that is not cut short gives exactly the second file when
   * no line of the hunk holds a carriage return, and does not give it otherwise.
   */
  lemma {:induction false} PreviewIsPatch(path: Text, before: Option<Text>, after: Option<Text>, h: Hunk)
    requires Sound(Lines(Contents(before)), Lines(Contents(after)), h)
    ensures ApplyPreview(Lines(Contents(before)), Full(path, before, after, h)) == Some(Contents(after)) <==>
      NoReturns(Lines(Contents(before))[h.start..h.beforeEnd]) && NoReturns(Lines(Contents(after))[h.start..h.afterEnd])
  {
    hide Lines, HunkBody, ReadBack, OldSide, NewSide, Join, EscapeAll, NoReturns;
    var a, b := Lines(Contents(before)), Lines(Contents(after));
    var full := Full(path, before, after, h);
    assert full[2] == HunkHeader(h) && full[3..] == HunkBody(a, b, h);
    HunkSides(a, b, h);
    SameAround(a, b, h);
    EscapeAllLength(a[h.start..h.beforeEnd]);
    EscapeAllLength(b[h.start..h.afterEnd]);
    JoinLines(Contents(after));
    assert b == b[..h.start] + b[h.start..h.afterEnd] + b[h.afterEnd..];
    JoinThree(b[..h.start], b[h.start..h.afterEnd], b[h.afterEnd..]);
    JoinThree(b[..h.start], EscapeAll(b[h.start..h.afterEnd]), b[h.afterEnd..]);
  }

  /** Two files that differ in one line ending in CR LF: no hunk that encloses the difference is a patch. */
  lemma {:induction false} ReturnsBreakPatch(path: Text, h: Hunk)
    requires Sound(Lines([97, 13, 10]), Lines([98, 13, 10]), h)
    ensures ApplyPreview(Lines([97, 13, 10]), Full(path, Some([97, 13, 10]), Some([98, 13, 10]), h)) !=
      Some([98, 13, 10])
  {
    hide ApplyPreview, Full, Lines;
    OneLine(97);
    OneLine(98);
    var a: seq<Text>, b: seq<Text> := [[97, 13, 10]], [[98, 13, 10]];
    PreviewIsPatch(path, Some([97, 13, 10]), Some([98, 13, 10]), h);
    assert a[0] !in b;
    assert h.prefix == 0 && h.beforeChanged == 1;
    assert a[h.start..h.beforeEnd][0] == a[0] && CARRIAGE_RETURN in a[0];
  }

  lemma {:induction false} OneLine(first: Byte)
    requires first != NEWLINE
    ensures Lines([first, 13, 10]) == [[first, 13, 10]]
  {
    var line: Text := [first, 13, 10];
    assert line[1..] == [13, 10] && line[1..][1..] == [10] && LineEnd([10]) == 1;
    assert LineEnd([13, 10]) == 2 && LineEnd(line) == 3;
    assert line[3..] == [] && line[..3] == line;
  }

  lemma {:induction false} JoinThree(a: seq<Text>, b: seq<Text>, c: seq<Text>)
    ensures Join(a + b + c) == Join(a) + Join(b) + Join(c)
  {
    JoinConcat(a + b, c);
    JoinConcat(a, b);
  }
}
