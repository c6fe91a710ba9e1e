/** Streamed export: every part of a run, in the order a bundle demands. */
module Exports {
  import opened Bundles
  import opened BundleWriters
  import opened Bytes
  import opened Digests
  import opened Events
  import opened Readers
  import opened Snapshots
  import opened Sorting
  import opened Timelines
  import opened Wrappers

  const EXPORT_PAGE_SIZE := 2_048

  datatype ExportError =
    | Bundle(cause: BundleError)
    | TooLarge(actual: nat)
    | ObjectMissing(objectId: Digest)

  // ----- the event stream -----

  /** What an export writes for an event: input bytes are omitted when the policy says so. */
  function Redacted(redact: bool, event: Event): Event {
    if redact && event.payload.TerminalInput?
    then event.(payload := TerminalInputRedacted(event.payload.byteLength)) else event
  }

  function EventLines(line: Event -> Text, redact: bool, events: seq<Event>): Text {
    if events == [] then []
    else EventLines(line, redact, events[..|events| - 1]) + line(Redacted(redact, events[|events| - 1]))
  }

  /** The objects that exported events still name. */
  function NamedObjects(redact: bool, events: seq<Event>): set<Digest> {
    set i | 0 <= i < |events| && Reference(Redacted(redact, events[i]).payload).Some?
      :: Reference(Redacted(redact, events[i]).payload).value.0
  }

  function RedactedCount(redact: bool, events: seq<Event>): nat {
    if events == [] then 0
    else RedactedCount(redact, events[..|events| - 1])
         + if redact && events[|events| - 1].payload.TerminalInput? then 1 else 0
  }

  // ----- what an export shows -----

  /** An event as an export may show it: all but typed input unchanged, and typed input only when not redacted. */
  ghost predicate Shows(redact: bool, original: Event, shown: Event) {
    && shown.runId == original.runId && shown.sequence == original.sequence
    && shown.wallClock == original.wallClock && shown.offset == original.offset
    && match original.payload
       case TerminalInput(id, n) => shown.payload == if redact then TerminalInputRedacted(n) else TerminalInput(id, n)
       case _ => shown.payload == original.payload
  }

  /** The whole timeline, event by event, as an export may show it. */
  ghost predicate Exported(redact: bool, events: seq<Event>, shown: seq<Event>) {
    |shown| == |events| && forall i :: 0 <= i < |events| ==> Shows(redact, events[i], shown[i])
  }

  /** The lines of a list of events, one after the other. */
  function Written(line: Event -> Text, shown: seq<Event>): Text {
    if shown == [] then [] else Written(line, shown[..|shown| - 1]) + line(shown[|shown| - 1])
  }

  ghost predicate OutputNames(events: seq<Event>, id: Digest) {
    exists i :: 0 <= i < |events| && events[i].payload.TerminalOutput? && events[i].payload.objectId == id
  }

  ghost predicate InputNames(events: seq<Event>, id: Digest) {
    exists i :: 0 <= i < |events| && events[i].payload.TerminalInput? && events[i].payload.objectId == id
  }

  /** What the stream must be, without reference to how it is made. */
  ghost predicate StreamShows(
    stream: EventStream, line: Event -> Text, redact: bool, events: seq<Event>, shown: seq<Event>)
  {
    && Exported(redact, events, shown) && stream.text == Written(line, shown)
    && (forall id :: id in stream.objects <==> OutputNames(events, id) || (!redact && InputNames(events, id)))
    && stream.redacted == |set i | 0 <= i < |events| && redact && events[i].payload.TerminalInput?|
  }

  lemma {:induction false} StreamIsShown(line: Event -> Text, redact: bool, events: seq<Event>)
    returns (shown: seq<Event>)
    ensures StreamShows(
      EventStream(EventLines(line, redact, events), NamedObjects(redact, events), RedactedCount(redact, events)),
      line, redact, events, shown)
    ensures redact ==> forall i :: 0 <= i < |shown| ==> !shown[i].payload.TerminalInput?
  {
    shown := seq(|events|, i requires 0 <= i < |events| => Redacted(redact, events[i]));
    WrittenLines(line, redact, events, shown);
    CountInputs(redact, events);
    forall id ensures id in NamedObjects(redact, events) <==>
        OutputNames(events, id) || (!redact && InputNames(events, id))
    {
      NamedExactly(redact, events, id);
    }
  }

  lemma {:induction false} NamedExactly(redact: bool, events: seq<Event>, id: Digest)
    ensures id in NamedObjects(redact, events) <==> OutputNames(events, id) || (!redact && InputNames(events, id))
  {
    if id in NamedObjects(redact, events) {
      var i :| 0 <= i < |events| && Reference(Redacted(redact, events[i]).payload).Some?
               && Reference(Redacted(redact, events[i]).payload).value.0 == id;
    }
    forall i | 0 <= i < |events| && events[i].payload.TerminalOutput? && events[i].payload.objectId == id
      ensures id in NamedObjects(redact, events)
    {
      assert Reference(Redacted(redact, events[i]).payload).value.0 == id;
    }
    forall i | 0 <= i < |events| && !redact && events[i].payload.TerminalInput? && events[i].payload.objectId == id
      ensures id in NamedObjects(redact, events)
    {
      assert Reference(Redacted(redact, events[i]).payload).value.0 == id;
    }
  }

  lemma {:induction false} WrittenLines(line: Event -> Text, redact: bool, events: seq<Event>, shown: seq<Event>)
    requires |shown| == |events| && forall i :: 0 <= i < |events| ==> shown[i] == Redacted(redact, events[i])
    ensures EventLines(line, redact, events) == Written(line, shown)
  {
    if events != [] { WrittenLines(line, redact, events[..|events| - 1], shown[..|shown| - 1]); }
  }

  lemma {:induction false} CountInputs(redact: bool, events: seq<Event>)
    ensures RedactedCount(redact, events) == |set i | 0 <= i < |events| && redact && events[i].payload.TerminalInput?|
  {
    var inputs := set i | 0 <= i < |events| && redact && events[i].payload.TerminalInput?;
    if events != [] {
      var n := |events| - 1;
      CountInputs(redact, events[..n]);
      var fewer := set i | 0 <= i < n && redact && events[..n][i].payload.TerminalInput?;
      assert inputs == if n in inputs then fewer + {n} else fewer;
    }
  }

  lemma {:induction false} LinesNext(line: Event -> Text, redact: bool, events: seq<Event>, n: nat)
    requires n < |events|
    ensures EventLines(line, redact, events[..n + 1]) ==
      EventLines(line, redact, events[..n]) + line(Redacted(redact, events[n]))
    ensures RedactedCount(redact, events[..n + 1])
         == RedactedCount(redact, events[..n]) + if redact && events[n].payload.TerminalInput? then 1 else 0
    ensures NamedObjects(redact, events[..n + 1])
         == NamedObjects(redact, events[..n])
            + if Reference(Redacted(redact, events[n]).payload).Some?
              then {Reference(Redacted(redact, events[n]).payload).value.0} else {}
  {
    var front, more := events[..n], events[..n + 1];
    assert more[..n] == front && more[n] == events[n];
    forall i | 0 <= i < n ensures more[i] == front[i] {}
  }

  lemma {:induction false} LinesGrow(line: Event -> Text, redact: bool, events: seq<Event>, n: nat)
    requires n <= |events|
    ensures |EventLines(line, redact, events[..n])| <= |EventLines(line, redact, events)|
    decreases |events| - n
  {
    if n < |events| {
      LinesNext(line, redact, events, n);
      LinesGrow(line, redact, events, n + 1);
    } else {
      assert events[..n] == events;
    }
  }

  datatype EventStream = EventStream(text: Text, objects: set<Digest>, redacted: nat)

  /**
   * Page by page, the whole timeline is written once and in order, whatever its length. It fails
   * exactly when the text would exceed the limit.
   */
  method StreamExportEvents(events: seq<Event>, redact: bool, line: Event -> Text, maximum: nat)
    returns (r: Result<EventStream, ExportError>, ghost shown: seq<Event>)
    requires Numbered(events) && |events| < CURSOR_LIMIT
    ensures Exported(redact, events, shown) && (r.Success? <==> |Written(line, shown)| <= maximum)
    ensures r.Success? ==> StreamShows(r.value, line, redact, events, shown)
    ensures redact ==> forall i :: 0 <= i < |shown| ==> !shown[i].payload.TerminalInput?
    ensures r.Success? <==> |EventLines(line, redact, events)| <= maximum
    ensures r.Success? ==>
      r.value ==
        EventStream(EventLines(line, redact, events), NamedObjects(redact, events), RedactedCount(redact, events))
    ensures r.Failure? ==> r.error.TooLarge? && r.error.actual > maximum
  {
    hide EventLines, NamedObjects, RedactedCount, Redacted, Written, Exported, StreamShows;
    shown := StreamIsShown(line, redact, events);
    StreamFields(line, redact, events, shown);
    var cursor: Option<nat> := None;
    var text: Text, objects: set<Digest>, redacted := [], {}, 0;
    var more := true;
    ghost var done := 0;
    StreamNothing(line, redact);
    assert events[..0] == [];
    while more
      invariant done <= |events|
      invariant cursor == if done == 0 then None else Some(done)
      invariant more || done == |events|
      invariant text == EventLines(line, redact, events[..done]) && |text| <= maximum
      invariant objects == NamedObjects(redact, events[..done]) && redacted == RedactedCount(redact, events[..done])
      decreases more, |events| - done
    {
      var loaded := LoadTimeline(events, cursor, EXPORT_PAGE_SIZE);
      var page := loaded.value;
      ghost var start := done;
      for i := 0 to |page.events|
        invariant done == start + i
        invariant cursor == if done == 0 then None else Some(done)
        invariant text == EventLines(line, redact, events[..done]) && |text| <= maximum
        invariant objects == NamedObjects(redact, events[..done]) && redacted == RedactedCount(redact, events[..done])
      {
        var original := page.events[i];
        assert original == events[done];
        LinesNext(line, redact, events, done);
        RedactedIs(redact, original);
        var event := original;
        if redact && original.payload.TerminalInput? {
          event := original.(payload := TerminalInputRedacted(original.payload.byteLength));
          redacted := redacted + 1;
        } else if original.payload.TerminalInput? || original.payload.TerminalOutput? {
          objects := objects + {original.payload.objectId};
        }
        var written := line(event);
        if |text| + |written| > maximum {
          LinesGrow(line, redact, events, done + 1);
          return Failure(TooLarge(|text| + |written|)), shown;
        }
        text := text + written;
        cursor := Some(original.sequence);
        done := done + 1;
      }
      more := page.hasMore;
    }
    assert events[..|events|] == events;
    return Success(EventStream(text, objects, redacted)), shown;
  }

  lemma {:induction false} StreamFields(line: Event -> Text, redact: bool, events: seq<Event>, shown: seq<Event>)
    requires StreamShows(
      EventStream(EventLines(line, redact, events), NamedObjects(redact, events), RedactedCount(redact, events)),
      line, redact, events, shown)
    ensures Exported(redact, events, shown) && EventLines(line, redact, events) == Written(line, shown)
  {
  }

  lemma RedactedIs(redact: bool, event: Event)
    ensures Redacted(redact, event) == if redact && event.payload.TerminalInput?
      then event.(payload := TerminalInputRedacted(event.payload.byteLength)) else event
  {
  }

  lemma {:induction false} StreamNothing(line: Event -> Text, redact: bool)
    ensures EventLines(line, redact, []) == [] && NamedObjects(redact, []) == {} && RedactedCount(redact, []) == 0
  {
  }

  // ----- paths inside a bundle -----

  function ObjectPath(id: Digest): Text {
    Ascii("objects/") + Hex(id)[..2] + [SLASH] + Hex(id)[2..]
  }

  function SnapshotEntryPath(id: Digest): Text { Ascii("snapshots/") + Hex(id) + Ascii(".json") }

  /** Splitting the digest text at its second digit does not disturb the order. */
  lemma {:induction false} ObjectPathOrder(a: Digest, b: Digest)
    ensures Less(ObjectPath(a), ObjectPath(b)) <==> Less(a, b)
  {
    hide Hex, Less;
    var h, k := Hex(a), Hex(b);
    var p, s := Ascii("objects/"), [SLASH];
    assert ObjectPath(a) == p + (h[..2] + (s + h[2..])) && ObjectPath(b) == p + (k[..2] + (s + k[2..]));
    LessUnderPrefix(p, h[..2] + (s + h[2..]), k[..2] + (s + k[2..]));
    assert h == h[..2] + h[2..] && k == k[..2] + k[2..];
    if h[..2] == k[..2] {
      LessUnderPrefix(h[..2], s + h[2..], s + k[2..]);
      LessUnderPrefix(s, h[2..], k[2..]);
      LessUnderPrefix(h[..2], h[2..], k[2..]);
    } else {
      LessEqualLengths(h[..2], k[..2], s + h[2..], s + k[2..]);
      LessEqualLengths(h[..2], k[..2], h[2..], k[2..]);
    }
    HexKeepsOrder(a, b);
  }

  lemma {:induction false} SnapshotPathOrder(a: Digest, b: Digest)
    ensures Less(SnapshotEntryPath(a), SnapshotEntryPath(b)) <==> Less(a, b)
  {
    hide Hex, Less;
    var p, s := Ascii("snapshots/"), Ascii(".json");
    assert SnapshotEntryPath(a) == p + (Hex(a) + s) && SnapshotEntryPath(b) == p + (Hex(b) + s);
    LessUnderPrefix(p, Hex(a) + s, Hex(b) + s);
    HexKeepsOrder(a, b);
    if Hex(a) == Hex(b) {
      LessIrreflexive(Hex(a));
      LessIrreflexive(Hex(a) + s);
    } else {
      LessEqualLengths(Hex(a), Hex(b), s, s);
    }
  }

  /** Text without separators, control bytes or leading dot is safe as a path component. */
  ghost predicate Plainly(t: Text) {
    t != [] && SLASH !in t && 0 !in t && BACKSLASH !in t && t[0] != DOT
  }

  lemma {:induction false} PlainPath(t: Text)
    requires Plainly(t) && |t| <= MAX_PATH_BYTES
    ensures ValidPath(t)
  {
    ComponentsWhole(t);
  }

  lemma {:induction false} JoinedPath(a: Text, b: Text)
    requires Plainly(a) && ValidPath(b) && |a| + 1 + |b| <= MAX_PATH_BYTES
    ensures ValidPath(a + [SLASH] + b)
  {
    hide Components;
    ComponentsJoin(a, b);
  }

  lemma {:induction false} HexPlain(bytes: Text, from: nat, to: nat)
    requires from < to <= 2 * |bytes|
    ensures Plainly(Hex(bytes)[from..to])
  {
    HexDigits(bytes);
    var t := Hex(bytes)[from..to];
    forall i | 0 <= i < |t| ensures IsHexDigit(t[i]) { assert t[i] == Hex(bytes)[from + i]; }
  }

  lemma {:induction false} ObjectPathSafe(id: Digest)
    ensures ValidPath(ObjectPath(id))
  {
    hide Hex, ValidPath;
    var h := Hex(id);
    HexPlain(id, 0, 2);
    HexPlain(id, 2, 64);
    assert h[2..64] == h[2..] && h[0..2] == h[..2];
    PlainPath(h[2..]);
    JoinedPath(h[..2], h[2..]);
    var top := Ascii("objects");
    assert Ascii("objects/") == top + [SLASH];
    JoinedPath(top, h[..2] + [SLASH] + h[2..]);
    assert ObjectPath(id) == top + [SLASH] + (h[..2] + [SLASH] + h[2..]);
  }

  lemma {:induction false} SnapshotPathSafe(id: Digest)
    ensures ValidPath(SnapshotEntryPath(id))
  {
    hide Hex, ValidPath;
    HexPlain(id, 0, 64);
    assert Hex(id)[0..64] == Hex(id);
    var name := Hex(id) + Ascii(".json");
    PlainPath(name);
    var top := Ascii("snapshots");
    assert Ascii("snapshots/") == top + [SLASH];
    JoinedPath(top, name);
    assert SnapshotEntryPath(id) == top + [SLASH] + name;
  }

  // ----- the parts of a bundle -----

  datatype Stored = Stored(id: Digest, bytes: Text)

  /** Objects and snapshots are listed the way their ordered sets iterate: by identity. */
  datatype Parts = Parts(
    checkpoints: Text, events: Text, manifest: Text, objects: seq<Stored>, run: Text, snapshots: seq<Stored>)

  function StoredId(): Stored -> Text { (s: Stored) => s.id }

  function ObjectEntry(s: Stored): BundleEntry { BundleEntry(ObjectPath(s.id), s.bytes) }

  function SnapshotEntry(s: Stored): BundleEntry { BundleEntry(SnapshotEntryPath(s.id), s.bytes) }

  function ObjectEntries(parts: seq<Stored>): (entries: seq<BundleEntry>)
    ensures |entries| == |parts|
    ensures forall i :: 0 <= i < |parts| ==> entries[i] == ObjectEntry(parts[i])
  {
    seq(|parts|, i requires 0 <= i < |parts| => ObjectEntry(parts[i]))
  }

  function SnapshotEntries(parts: seq<Stored>): (entries: seq<BundleEntry>)
    ensures |entries| == |parts|
    ensures forall i :: 0 <= i < |parts| ==> entries[i] == SnapshotEntry(parts[i])
  {
    seq(|parts|, i requires 0 <= i < |parts| => SnapshotEntry(parts[i]))
  }

  function Front(parts: Parts): seq<BundleEntry> {
    [BundleEntry(Ascii("checkpoints.json"), parts.checkpoints), BundleEntry(Ascii("events.ndjson"), parts.events),
     BundleEntry(Ascii("manifest.json"), parts.manifest)]
  }

  function ExportEntries(parts: Parts): seq<BundleEntry> {
    Front(parts) + ObjectEntries(parts.objects) + [BundleEntry(Ascii("run.json"), parts.run)]
    + SnapshotEntries(parts.snapshots)
  }

  lemma {:induction false} StartsLess(a: Text, b: Text)
    requires a != [] && b != [] && a[0] < b[0]
    ensures Less(a, b)
  {
  }

  lemma {:induction false} SortedConcat(a: seq<BundleEntry>, b: seq<BundleEntry>)
    requires SortedBy(EntryPath(), a) && SortedBy(EntryPath(), b)
    requires forall i, j :: 0 <= i < |a| && 0 <= j < |b| ==>
        a[i].path != [] && b[j].path != [] && a[i].path[0] < b[j].path[0]
    ensures SortedBy(EntryPath(), a + b)
  {
    hide Less;
    var keys := Keys(EntryPath(), a + b);
    forall i, j | 0 <= i < j < |keys| ensures Less(keys[i], keys[j]) {
      if j < |a| {
        assert Less(Keys(EntryPath(), a)[i], Keys(EntryPath(), a)[j]);
      } else if i >= |a| {
        assert Less(Keys(EntryPath(), b)[i - |a|], Keys(EntryPath(), b)[j - |a|]);
      } else {
        assert (a + b)[i] == a[i] && (a + b)[j] == b[j - |a|];
        StartsLess(a[i].path, b[j - |a|].path);
      }
    }
  }

  lemma {:induction false} SortedOne(entry: BundleEntry)
    ensures SortedBy(EntryPath(), [entry])
  {
  }

  lemma {:induction false} ObjectsSorted(parts: seq<Stored>)
    requires SortedBy(StoredId(), parts)
    ensures SortedBy(EntryPath(), ObjectEntries(parts))
  {
    hide Less, ObjectPath;
    var keys := Keys(EntryPath(), ObjectEntries(parts));
    forall i, j | 0 <= i < j < |keys| ensures Less(keys[i], keys[j]) {
      assert Less(Keys(StoredId(), parts)[i], Keys(StoredId(), parts)[j]);
      ObjectPathOrder(parts[i].id, parts[j].id);
    }
  }

  lemma {:induction false} SnapshotsSorted(parts: seq<Stored>)
    requires SortedBy(StoredId(), parts)
    ensures SortedBy(EntryPath(), SnapshotEntries(parts))
  {
    hide Less, SnapshotEntryPath;
    var keys := Keys(EntryPath(), SnapshotEntries(parts));
    forall i, j | 0 <= i < j < |keys| ensures Less(keys[i], keys[j]) {
      assert Less(Keys(StoredId(), parts)[i], Keys(StoredId(), parts)[j]);
      SnapshotPathOrder(parts[i].id, parts[j].id);
    }
  }

  lemma {:induction false} FrontSorted(parts: Parts)
    ensures SortedBy(EntryPath(), Front(parts))
  {
    hide Less;
    var front := Front(parts);
    SortedOne(front[0]);
    SortedOne(front[1]);
    SortedOne(front[2]);
    SortedConcat([front[0]], [front[1]]);
    SortedConcat([front[0]] + [front[1]], [front[2]]);
    assert [front[0]] + [front[1]] + [front[2]] == front;
  }

  ghost predicate Listed(parts: Parts) {
    SortedBy(StoredId(), parts.objects) && SortedBy(StoredId(), parts.snapshots)
  }

  /** The parts come in strictly increasing path order, because object paths keep digest order. */
  lemma {:induction false} ExportSorted(parts: Parts)
    requires Listed(parts)
    ensures SortedBy(EntryPath(), ExportEntries(parts))
    ensures |ExportEntries(parts)| == 4 + |parts.objects| + |parts.snapshots|
  {
    hide Less, SortedBy;
    var a, b, c, d := Front(parts), ObjectEntries(parts.objects), [BundleEntry(Ascii("run.json"), parts.run)],
                      SnapshotEntries(parts.snapshots);
    FrontSorted(parts);
    ObjectsSorted(parts.objects);
    SortedOne(c[0]);
    SnapshotsSorted(parts.snapshots);
    forall i | 0 <= i < |b| ensures b[i].path != [] && b[i].path[0] == 111 {
      assert b[i].path[0] == Ascii("objects/")[0];
    }
    forall i | 0 <= i < |d| ensures d[i].path != [] && d[i].path[0] == 115 {
      assert d[i].path[0] == Ascii("snapshots/")[0];
    }
    SortedConcat(a, b);
    SortedConcat(a + b, c);
    SortedConcat(a + b + c, d);
  }

  lemma {:induction false} ExportSafe(parts: Parts)
    ensures SafePaths(ExportEntries(parts))
  {
    hide ObjectPath, SnapshotEntryPath, ValidPath, Ascii, ExportEntries;
    PartPositions(parts);
    FixedSafe();
    var entries := ExportEntries(parts);
    forall i | 0 <= i < |entries| ensures ValidPath(entries[i].path) {
      var o := i - 3;
      var s := o - |parts.objects| - 1;
      if 0 <= o < |parts.objects| {
        assert entries[3 + o] == ObjectEntry(parts.objects[o]);
        ObjectPathSafe(parts.objects[o].id);
      } else if s >= 0 {
        assert entries[4 + |parts.objects| + s] == SnapshotEntry(parts.snapshots[s]);
        SnapshotPathSafe(parts.snapshots[s].id);
      }
    }
  }

  lemma {:induction false} FixedSafe()
    ensures ValidPath(Ascii("checkpoints.json")) && ValidPath(Ascii("events.ndjson"))
    ensures ValidPath(Ascii("manifest.json")) && ValidPath(Ascii("run.json"))
  {
    hide ValidPath;
    PlainPath(Ascii("checkpoints.json"));
    PlainPath(Ascii("events.ndjson"));
    PlainPath(Ascii("manifest.json"));
    PlainPath(Ascii("run.json"));
  }

  /** The next part is never refused: its path is safe, above the last one and within the count. */
  lemma {:induction false} HeaderAccepted(parts: Parts, n: nat)
    requires Listed(parts) && n < |ExportEntries(parts)|
    ensures HeaderError(ExportEntries(parts)[n].path, |ExportEntries(parts)|, n,
        LastPath(ExportEntries(parts)[..n])).None?
  {
    hide ExportEntries, Less, ValidPath;
    ExportSorted(parts);
    ExportSafe(parts);
    var entries := ExportEntries(parts);
    if n > 0 { assert Less(Keys(EntryPath(), entries)[n - 1], Keys(EntryPath(), entries)[n]); }
  }

  // ----- the driver -----

  type Plan = seq<Option<nat>>

  /** Every object has its declared size and digest, and no length overflows its field. */
  ghost predicate Intact(hash: Hasher, parts: Parts, sizes: seq<nat>)
    requires |sizes| == |parts.objects|
  {
    && |parts.checkpoints| < U64_LIMIT && |parts.manifest| < U64_LIMIT && |parts.run| < U64_LIMIT
    && (forall i :: 0 <= i < |parts.objects| ==>
      |parts.objects[i].bytes| == sizes[i] && hash(parts.objects[i].bytes) == parts.objects[i].id)
    && forall i :: 0 <= i < |parts.snapshots| ==> |parts.snapshots[i].bytes| < U64_LIMIT
  }

  ghost predicate MayFail(eventPlan: Plan, plans: seq<Plan>) {
    None in eventPlan || exists i :: 0 <= i < |plans| && None in plans[i]
  }

  /**
   * Supplies exactly the declared count of entries in strictly increasing path order, so the only
   * refusals are failing readers, damaged objects and lengths beyond their fields.
   */
  method WriteBundleFile(hash: Hasher, count: nat, parts: Parts, sizes: seq<nat>, eventPlan: Plan, plans: seq<Plan>)
    returns (r: Result<Text, BundleError>)
    requires Listed(parts) && count == 4 + |parts.objects| + |parts.snapshots| < U32_LIMIT
    requires |sizes| == |parts.objects| == |plans| && |parts.events| < U64_LIMIT
    requires forall i :: 0 <= i < |sizes| ==> sizes[i] < U64_LIMIT
    ensures r.Success? ==> Intact(hash, parts, sizes) && r.value == BundleBytes(hash, ExportEntries(parts))
    ensures r.Failure? ==> !Intact(hash, parts, sizes) || MayFail(eventPlan, plans)
    ensures r.Failure? ==> !r.error.UnsafePath? && !r.error.OutOfOrder? && !r.error.EntryCountMismatch?
  {
    hide ExportEntries, Ascii, Listed, BundleBytes, BundleStreamWriter.Valid, ObjectEntry, SnapshotEntry;
    ghost var entries := ExportEntries(parts);
    PartPositions(parts);
    var writer := new BundleStreamWriter(hash, count);
    var error := WriteFront(writer, parts, eventPlan);
    if error.Some? { return Failure(error.value); }
    error := WriteObjects(writer, parts, sizes, plans);
    if error.Some? { return Failure(error.value); }
    error := AppendPart(writer, parts, 3 + |parts.objects|, Ascii("run.json"), parts.run);
    if error.Some? { return Failure(error.value); }
    error := WriteSnapshots(writer, parts);
    if error.Some? { return Failure(error.value); }
    r := writer.Finish();
  }

  /** The next part in line, whole. */
  method AppendPart(writer: BundleStreamWriter, ghost parts: Parts, ghost n: nat, path: Text, bytes: Text)
    returns (error: Option<BundleError>)
    requires Listed(parts) && n < |ExportEntries(parts)| && ExportEntries(parts)[n] == BundleEntry(path, bytes)
    requires writer.Valid() && writer.declared == |ExportEntries(parts)| && writer.entries == ExportEntries(parts)[..n]
    modifies writer
    ensures writer.Valid() && (error.None? <==> |bytes| < U64_LIMIT)
    ensures error.None? ==> writer.entries == ExportEntries(parts)[..n + 1]
    ensures error.Some? ==> error.value == NumericRange
  {
    hide ExportEntries, HeaderError, BundleBytes, SortedBy, SafePaths, ValidPath, Ascii, Listed, Body;
    HeaderAccepted(parts, n);
    PrefixNext(ExportEntries(parts), n);
    error := writer.WriteEntry(path, bytes);
  }

  /** The next part in line, from a reader with a declared length and checksum. */
  method AppendSource(
    writer: BundleStreamWriter, ghost parts: Parts, ghost n: nat, path: Text, size: nat, checksum: Digest,
    reader: ByteSource)
    returns (error: Option<BundleError>)
    requires Listed(parts) && n < |ExportEntries(parts)| && size < U64_LIMIT
    requires ExportEntries(parts)[n] == BundleEntry(path, reader.rest)
    requires writer.Valid() && writer.declared == |ExportEntries(parts)| && writer.entries == ExportEntries(parts)[..n]
    modifies writer, reader
    ensures error.None? ==> writer.Valid() && writer.entries == ExportEntries(parts)[..n + 1]
    ensures error.None? ==> |old(reader.rest)| == size && writer.hash(old(reader.rest)) == checksum
    ensures error.Some? ==>
      || (error.value.SourceFailed? && None in old(reader.plans))
      || (error.value.SourceLengthMismatch? && |old(reader.rest)| != size)
      || (error.value.ChecksumMismatch? && writer.hash(old(reader.rest)) != checksum)
  {
    hide ExportEntries, HeaderError, BundleBytes, SortedBy, SafePaths, ValidPath, Ascii, Listed, Body;
    HeaderAccepted(parts, n);
    PrefixNext(ExportEntries(parts), n);
    error := writer.WritePrehashedEntry(path, size, checksum, reader);
  }

  method WriteFront(writer: BundleStreamWriter, parts: Parts, eventPlan: Plan) returns (error: Option<BundleError>)
    requires Listed(parts) && |parts.events| < U64_LIMIT
    requires writer.Valid() && writer.declared == |ExportEntries(parts)| && writer.entries == []
    modifies writer
    ensures error.None? ==> writer.Valid() && |ExportEntries(parts)| >= 3 && writer.entries == ExportEntries(parts)[..3]
    ensures error.None? ==> |parts.checkpoints| < U64_LIMIT && |parts.manifest| < U64_LIMIT
    ensures error.Some? ==>
      |parts.checkpoints| >= U64_LIMIT || |parts.manifest| >= U64_LIMIT || None in eventPlan
    ensures error.Some? ==> error.value.NumericRange? || error.value.SourceFailed?
  {
    hide ExportEntries, Ascii, BundleStreamWriter.Valid, Listed;
    PartPositions(parts);
    assert ExportEntries(parts)[..0] == [];
    error := AppendPart(writer, parts, 0, Ascii("checkpoints.json"), parts.checkpoints);
    if error.Some? { return; }
    var events := new ByteSource(parts.events, eventPlan);
    error := AppendSource(
      writer, parts, 1, Ascii("events.ndjson"), |parts.events|, writer.hash(parts.events), events);
    if error.Some? { return; }
    error := AppendPart(writer, parts, 2, Ascii("manifest.json"), parts.manifest);
  }

  /** Where each part stands among the entries. */
  lemma {:induction false} PartPositions(parts: Parts)
    ensures |ExportEntries(parts)| == 4 + |parts.objects| + |parts.snapshots|
    ensures ExportEntries(parts)[0] == BundleEntry(Ascii("checkpoints.json"), parts.checkpoints)
    ensures ExportEntries(parts)[1] == BundleEntry(Ascii("events.ndjson"), parts.events)
    ensures ExportEntries(parts)[2] == BundleEntry(Ascii("manifest.json"), parts.manifest)
    ensures ExportEntries(parts)[3 + |parts.objects|] == BundleEntry(Ascii("run.json"), parts.run)
    ensures forall i :: 0 <= i < |parts.objects| ==> ExportEntries(parts)[3 + i] == ObjectEntry(parts.objects[i])
    ensures forall i :: 0 <= i < |parts.snapshots| ==>
      ExportEntries(parts)[4 + |parts.objects| + i] == SnapshotEntry(parts.snapshots[i])
  {
    hide ObjectPath, SnapshotEntryPath;
  }

  lemma {:induction false} PrefixNext(entries: seq<BundleEntry>, n: nat)
    requires n < |entries|
    ensures entries[..n + 1] == entries[..n] + [entries[n]]
  {
  }

  method WriteObjects(writer: BundleStreamWriter, parts: Parts, sizes: seq<nat>, plans: seq<Plan>)
    returns (error: Option<BundleError>)
    requires Listed(parts) && |sizes| == |parts.objects| == |plans|
    requires forall i :: 0 <= i < |sizes| ==> sizes[i] < U64_LIMIT
    requires writer.Valid() && writer.declared == |ExportEntries(parts)| && |ExportEntries(parts)| >= 3
    requires writer.entries == ExportEntries(parts)[..3]
    modifies writer
    ensures error.None? ==> writer.Valid() && writer.entries == ExportEntries(parts)[..3 + |parts.objects|]
    ensures error.None? ==> forall i :: 0 <= i < |parts.objects| ==>
      |parts.objects[i].bytes| == sizes[i] && writer.hash(parts.objects[i].bytes) == parts.objects[i].id
    ensures error.Some? ==>
      || (exists i :: 0 <= i < |plans| && None in plans[i])
      || (exists i ::
        0 <= i < |parts.objects|
        && (|parts.objects[i].bytes| != sizes[i] || writer.hash(parts.objects[i].bytes) != parts.objects[i].id))
    ensures error.Some? ==>
        error.value.SourceFailed? || error.value.SourceLengthMismatch? || error.value.ChecksumMismatch?
  {
    hide ExportEntries, ObjectPath, BundleStreamWriter.Valid, Listed;
    PartPositions(parts);
    for i := 0 to |parts.objects|
      invariant writer.Valid() && writer.entries == ExportEntries(parts)[..3 + i]
      invariant forall k :: 0 <= k < i ==>
        |parts.objects[k].bytes| == sizes[k] && writer.hash(parts.objects[k].bytes) == parts.objects[k].id
    {
      var stored := parts.objects[i];
      assert ExportEntries(parts)[3 + i] == ObjectEntry(stored);
      var reader := new ByteSource(stored.bytes, plans[i]);
      error := AppendSource(writer, parts, 3 + i, ObjectPath(stored.id), sizes[i], stored.id, reader);
      if error.Some? {
        return;
      }
    }
    return None;
  }

  method WriteSnapshots(writer: BundleStreamWriter, parts: Parts) returns (error: Option<BundleError>)
    requires Listed(parts)
    requires writer.Valid() && writer.declared == |ExportEntries(parts)|
    requires |ExportEntries(parts)| >= 4 + |parts.objects|
        && writer.entries == ExportEntries(parts)[..4 + |parts.objects|]
    modifies writer
    ensures writer.Valid()
    ensures error.None? ==> writer.entries == ExportEntries(parts)
    ensures error.None? <==> forall i :: 0 <= i < |parts.snapshots| ==> |parts.snapshots[i].bytes| < U64_LIMIT
    ensures error.Some? ==> error.value == NumericRange
  {
    hide ExportEntries, SnapshotEntryPath, BundleStreamWriter.Valid, Listed;
    PartPositions(parts);
    ghost var n := 4 + |parts.objects|;
    for i := 0 to |parts.snapshots|
      invariant writer.Valid() && writer.entries == ExportEntries(parts)[..n + i]
      invariant forall k :: 0 <= k < i ==> |parts.snapshots[k].bytes| < U64_LIMIT
    {
      var snapshot := parts.snapshots[i];
      assert ExportEntries(parts)[n + i] == SnapshotEntry(snapshot);
      error := AppendPart(writer, parts, n + i, SnapshotEntryPath(snapshot.id), snapshot.bytes);
      if error.Some? {
        return;
      }
    }
    assert ExportEntries(parts)[..|ExportEntries(parts)|] == ExportEntries(parts);
    return None;
  }

  // ----- the manifest -----

  datatype Checksum = Checksum(path: Text, digest: Digest, size: nat)

  function ChecksumPath(): Checksum -> Text { (c: Checksum) => c.path }

  function ChecksumOf(hash: Hasher, entry: BundleEntry): Checksum {
    Checksum(entry.path, hash(entry.bytes), |entry.bytes|)
  }

  function ChecksumsOf(hash: Hasher, entries: seq<BundleEntry>): (sums: seq<Checksum>)
    ensures |sums| == |entries|
    ensures forall i :: 0 <= i < |entries| ==> sums[i] == ChecksumOf(hash, entries[i])
  {
    seq(|entries|, i requires 0 <= i < |entries| => ChecksumOf(hash, entries[i]))
  }

  /** Every entry but the manifest, in path order. */
  function Described(parts: Parts): seq<BundleEntry> {
    Front(parts)[..2] + ObjectEntries(parts.objects) + [BundleEntry(Ascii("run.json"), parts.run)]
    + SnapshotEntries(parts.snapshots)
  }

  lemma {:induction false} DescribedSorted(parts: Parts)
    requires Listed(parts)
    ensures SortedBy(EntryPath(), Described(parts))
  {
    hide Less, ObjectPath, SnapshotEntryPath, Ascii;
    ExportSorted(parts);
    var all, some := ExportEntries(parts), Described(parts);
    forall i, j | 0 <= i < j < |some| ensures Less(Keys(EntryPath(), some)[i], Keys(EntryPath(), some)[j]) {
      var m, n := if i < 2 then i else i + 1, if j < 2 then j else j + 1;
      assert some[i] == all[m] && some[j] == all[n];
      assert Less(Keys(EntryPath(), all)[m], Keys(EntryPath(), all)[n]);
    }
  }

  /** The order in which checksums are collected, before they are sorted by path. */
  function Collected(hash: Hasher, parts: Parts): seq<Checksum> {
    ChecksumsOf(hash, Front(parts)[..2] + [BundleEntry(Ascii("run.json"), parts.run)]
                      + SnapshotEntries(parts.snapshots) + ObjectEntries(parts.objects))
  }

  lemma {:induction false} CollectedDistinct(hash: Hasher, parts: Parts)
    requires Listed(parts)
    ensures DistinctKeys(ChecksumPath(), Collected(hash, parts))
    ensures forall c :: c in Collected(hash, parts) <==> c in ChecksumsOf(hash, Described(parts))
  {
    hide Less, ObjectPath, SnapshotEntryPath, Ascii;
    DescribedSorted(parts);
    var described := Described(parts);
    var o, s := |parts.objects|, |parts.snapshots|;
    var collected := Collected(hash, parts);
    var sums := ChecksumsOf(hash, described);
    // Position `i` of the collection is position `Moved(o, s, i)` of the path order.
    forall i | 0 <= i < |collected| ensures Moved(o, s, i) < |sums| && collected[i] == sums[Moved(o, s, i)] {}
    forall i, j | 0 <= i < j < |collected| ensures collected[i].path != collected[j].path {
      var m, n := Moved(o, s, i), Moved(o, s, j);
      if m < n {
        assert Less(Keys(EntryPath(), described)[m], Keys(EntryPath(), described)[n]);
      } else {
        assert Less(Keys(EntryPath(), described)[n], Keys(EntryPath(), described)[m]);
      }
      LessIrreflexive(described[m].path);
    }
    forall m | 0 <= m < |sums| ensures sums[m] in collected {
      var i := if m < 2 then m else if m < 2 + o then m + 1 + s else if m == 2 + o then 2 else m - o;
      assert Moved(o, s, i) == m && collected[i] == sums[m];
    }
  }

  function Moved(objects: nat, snapshots: nat, i: nat): nat {
    if i < 2 then i
    else if i == 2 then 2 + objects
    else if i < 3 + snapshots then i + objects
    else i - 1 - snapshots
  }

  /** Sorting the collected checksums lists every other entry once, in path order. */
  lemma {:induction false} ManifestExact(hash: Hasher, parts: Parts)
    requires Listed(parts)
    ensures Sort(ChecksumPath(), Collected(hash, parts)) == ChecksumsOf(hash, Described(parts))
  {
    hide Less, Described, Collected;
    CollectedDistinct(hash, parts);
    DescribedSorted(parts);
    var sums := ChecksumsOf(hash, Described(parts));
    assert Keys(ChecksumPath(), sums) == Keys(EntryPath(), Described(parts));
    SortDistinct(ChecksumPath(), Collected(hash, parts));
    SortMembers(ChecksumPath(), Collected(hash, parts));
    SortedUnique(ChecksumPath(), Sort(ChecksumPath(), Collected(hash, parts)), sums);
  }

  // ----- the whole export -----

  /** What an export is made of; JSON rendering and object readers are parameters. */
  datatype Request = Request(
    hash: Hasher,
    events: seq<Event>, redact: bool, line: Event -> Text,
    checkpoints: Text, run: Text, snapshots: seq<Stored>, files: set<Digest>,
    stored: map<Digest, Text>, render: seq<Checksum> -> Text,
    eventPlan: Plan, plan: Digest -> Plan, maximum: nat)

  ghost predicate Readable(request: Request) {
    Numbered(request.events) && |request.events| < CURSOR_LIMIT && SortedBy(StoredId(), request.snapshots)
    && request.maximum < U64_LIMIT
  }

  /** The objects a bundle must hold: those of its snapshots and those its events still name. */
  function Needed(request: Request): set<Digest> {
    request.files + NamedObjects(request.redact, request.events)
  }

  ghost predicate PartsOf(request: Request, parts: Parts) {
    && Listed(parts)
    && parts.checkpoints == request.checkpoints && parts.run == request.run && parts.snapshots == request.snapshots
    && parts.events == EventLines(request.line, request.redact, request.events)
    && (forall id: Digest :: id in Needed(request) <==>
      exists i :: 0 <= i < |parts.objects| && parts.objects[i].id == id)
    && forall i :: 0 <= i < |parts.objects| ==>
         parts.objects[i].id in request.stored && parts.objects[i].bytes == request.stored[parts.objects[i].id]
  }

  /** An object is among the parts exactly when a snapshot holds it or an event that is shown still names it. */
  ghost predicate HoldsWhatIsShown(request: Request, parts: Parts) {
    forall id: Digest :: Holds(parts, id) <==>
      || id in request.files || OutputNames(request.events, id)
      || (!request.redact && InputNames(request.events, id))
  }

  ghost predicate Holds(parts: Parts, id: Digest) {
    exists i :: 0 <= i < |parts.objects| && parts.objects[i].id == id
  }

  /** The event text is the whole timeline as it may be shown; redacted, it holds no typed input. */
  ghost predicate TellsWhatIsShown(request: Request, parts: Parts) {
    exists shown: seq<Event> ::
      && Exported(request.redact, request.events, shown) && parts.events == Written(request.line, shown)
      && (request.redact ==> forall i :: 0 <= i < |shown| ==> !shown[i].payload.TerminalInput?)
  }

  lemma {:induction false} PartsShow(request: Request, parts: Parts)
    requires PartsOf(request, parts)
    ensures HoldsWhatIsShown(request, parts) && TellsWhatIsShown(request, parts)
  {
    hide NamedObjects, EventLines, Written, Exported, Listed, OutputNames, InputNames;
    var shown := StreamIsShown(request.line, request.redact, request.events);
    StreamFields(request.line, request.redact, request.events, shown);
    forall id: Digest
      ensures Holds(parts, id) <==>
        id in request.files || OutputNames(request.events, id) || (!request.redact && InputNames(request.events, id))
    {
      NamedExactly(request.redact, request.events, id);
      assert id in Needed(request) <==> Holds(parts, id);
    }
  }

  /**
   * The privacy of a redacted export: an object that only typed input names, and no snapshot holds, is not
   * part of it.
   */
  lemma {:induction false} RedactedExportHidesInput(request: Request, parts: Parts, id: Digest)
    requires PartsOf(request, parts) && request.redact
    requires id !in request.files && !OutputNames(request.events, id)
    ensures forall i :: 0 <= i < |parts.objects| ==> parts.objects[i].id != id
  {
    PartsShow(request, parts);
    assert !Holds(parts, id);
  }

  /** The parts of the request, with the manifest that lists the others as their digests announce them. */
  ghost predicate Assembled(request: Request, parts: Parts) {
    && PartsOf(request, parts)
    && parts.manifest == request.render(Sort(ChecksumPath(), Gathered(request.hash, parts)))
  }

  /** Everything an export can fail for: limits, missing or damaged objects, and failing readers. */
  ghost predicate ExportExcused(request: Request, parts: Parts) {
    || |EventLines(request.line, request.redact, request.events)| > request.maximum
    || (exists id :: id in Needed(request) && (id in request.stored ==>
          |request.stored[id]| > request.maximum || request.hash(request.stored[id]) != id
          || None in request.plan(id)))
    || (Assembled(request, parts) &&
         (SumOf(parts) > request.maximum || 4 + |parts.objects| + |parts.snapshots| >= U32_LIMIT))
    || None in request.eventPlan
  }

  function Sizes(parts: seq<Stored>): (sizes: seq<nat>)
    ensures |sizes| == |parts|
    ensures forall i :: 0 <= i < |parts| ==> sizes[i] == |parts[i].bytes|
  {
    seq(|parts|, i requires 0 <= i < |parts| => |parts[i].bytes|)
  }

  /** Finds every needed object, in digest order. */
  method CollectObjects(request: Request, ids: set<Digest>) returns (r: Result<seq<Stored>, ExportError>)
    ensures r.Success? ==> SortedBy(StoredId(), r.value)
    ensures r.Success? ==> forall id: Digest :: id in ids <==> exists i :: 0 <= i < |r.value| && r.value[i].id == id
    ensures r.Success? ==> forall i :: 0 <= i < |r.value| ==>
      r.value[i].id in request.stored && r.value[i].bytes == request.stored[r.value[i].id]
        && |r.value[i].bytes| <= request.maximum
    ensures r.Failure? ==> !r.error.Bundle?
    ensures r.Failure? ==> exists id :: id in ids && (id in request.stored ==> |request.stored[id]| > request.maximum)
  {
    hide Less;
    var keys := Listing(ids);
    var objects: seq<Stored> := [];
    for i := 0 to |keys|
      invariant |objects| == i && Keys(StoredId(), objects) == keys[..i]
      invariant forall k :: 0 <= k < i ==>
        objects[k].id in request.stored && objects[k].bytes == request.stored[objects[k].id]
          && |objects[k].bytes| <= request.maximum
    {
      assert keys[i] in ids;
      var id: Digest := keys[i];
      if id !in request.stored {
        return Failure(ObjectMissing(id));
      }
      if |request.stored[id]| > request.maximum {
        return Failure(TooLarge(|request.stored[id]|));
      }
      objects := objects + [Stored(id, request.stored[id])];
      assert keys[..i + 1] == keys[..i] + [keys[i]];
    }
    assert keys[..|keys|] == keys;
    forall id: Digest ensures id in ids <==> exists i :: 0 <= i < |objects| && objects[i].id == id {
      if id in ids {
        var i :| 0 <= i < |keys| && keys[i] == id;
        assert Keys(StoredId(), objects)[i] == id;
      }
      if exists i :: 0 <= i < |objects| && objects[i].id == id {
        var i :| 0 <= i < |objects| && objects[i].id == id;
        assert Keys(StoredId(), objects)[i] in keys;
      }
    }
    return Success(objects);
  }

  /**
   * A successful export holds the whole timeline, exactly the needed objects, and a manifest with the
   * checksum of every other entry; input that is redacted leaves neither its bytes nor its object.
   */
  method ExportBundle(request: Request) returns (r: Result<Text, ExportError>, parts: Parts)
    requires Readable(request)
    ensures r.Success? ==> Assembled(request, parts) && r.value == BundleBytes(request.hash, ExportEntries(parts))
    ensures r.Success? ==> Intact(request.hash, parts, Sizes(parts.objects))
    ensures r.Success? ==> parts.manifest == request.render(ChecksumsOf(request.hash, Described(parts)))
    ensures r.Success? ==> SumOf(parts) <= request.maximum
    ensures r.Success? ==> HoldsWhatIsShown(request, parts) && TellsWhatIsShown(request, parts)
    ensures r.Failure? ==> ExportExcused(request, parts)
    ensures r.Failure? && r.error.Bundle? ==>
      !r.error.cause.UnsafePath? && !r.error.cause.OutOfOrder? && !r.error.cause.EntryCountMismatch?
  {
    hide ExportEntries, EventLines, NamedObjects, BundleBytes, SortedBy, Less, Described, ChecksumsOf, Intact;
    hide HoldsWhatIsShown, TellsWhatIsShown, SumOf, StreamShows, Written, Exported, Gathered, MayFail;
    parts := Parts([], [], [], [], [], []);
    var streamed, _ := StreamExportEvents(request.events, request.redact, request.line, request.maximum);
    if streamed.Failure? {
      return Failure(streamed.error), parts;
    }
    var objects := CollectObjects(request, request.files + streamed.value.objects);
    if objects.Failure? {
      return Failure(objects.error), parts;
    }
    parts := Parts(request.checkpoints, streamed.value.text, [], objects.value, request.run, request.snapshots);
    ghost var unlisted := parts;
    parts := parts.(manifest := request.render(Sort(ChecksumPath(), Gathered(request.hash, parts))));
    GatheredBefore(request.hash, unlisted, parts.manifest);
    var payload := SumOf(parts);
    if payload > request.maximum {
      return Failure(TooLarge(payload)), parts;
    }
    var count := 4 + |parts.objects| + |parts.snapshots|;
    if count >= U32_LIMIT {
      return Failure(Bundle(NumericRange)), parts;
    }
    var plans := seq(|parts.objects|, i requires 0 <= i < |parts.objects| => request.plan(parts.objects[i].id));
    var written := WriteBundleFile(request.hash, count, parts, Sizes(parts.objects), request.eventPlan, plans);
    if written.Failure? {
      WriteExcused(request, parts, plans);
      return Failure(Bundle(written.error)), parts;
    }
    GatheredExact(request.hash, parts);
    ManifestExact(request.hash, parts);
    PartsShow(request, parts);
    return Success(written.value), parts;
  }

  /** Within the limits, only a damaged object or a failing reader stops the writing of a bundle. */
  lemma {:induction false} WriteExcused(request: Request, parts: Parts, plans: seq<Plan>)
    requires PartsOf(request, parts) && SumOf(parts) <= request.maximum < U64_LIMIT
    requires |plans| == |parts.objects|
    requires forall i :: 0 <= i < |plans| ==> plans[i] == request.plan(parts.objects[i].id)
    requires !Intact(request.hash, parts, Sizes(parts.objects)) || MayFail(request.eventPlan, plans)
    ensures ExportExcused(request, parts)
  {
    hide EventLines, NamedObjects, Listed;
    forall i | 0 <= i < |parts.objects| ensures parts.objects[i].id in Needed(request) {
      assert Holds(parts, parts.objects[i].id);
    }
    forall i | 0 <= i < |parts.snapshots| ensures |parts.snapshots[i].bytes| < U64_LIMIT {
      StoredWithin(parts.snapshots, i);
    }
  }

  lemma {:induction false} StoredWithin(parts: seq<Stored>, i: nat)
    requires i < |parts|
    ensures |parts[i].bytes| <= SumStored(parts)
  {
    if i > 0 { StoredWithin(parts[1..], i - 1); }
  }

  /** The checksum of an object entry is its identity, read off without hashing. */
  function Gathered(hash: Hasher, parts: Parts): seq<Checksum> {
    ChecksumsOf(
      hash, Front(parts)[..2] + [BundleEntry(Ascii("run.json"), parts.run)] + SnapshotEntries(parts.snapshots))
    + seq(|parts.objects|, i requires 0 <= i < |parts.objects| =>
            Checksum(ObjectPath(parts.objects[i].id), parts.objects[i].id, |parts.objects[i].bytes|))
  }

  lemma {:induction false} GatheredExact(hash: Hasher, parts: Parts)
    requires Intact(hash, parts, Sizes(parts.objects))
    ensures Gathered(hash, parts) == Collected(hash, parts)
  {
    hide Ascii, ObjectPath, SnapshotEntryPath;
  }

  /** The manifest does not list itself. */
  lemma {:induction false} GatheredBefore(hash: Hasher, parts: Parts, manifest: Text)
    ensures Gathered(hash, parts.(manifest := manifest)) == Gathered(hash, parts)
  {
    hide Ascii, ObjectPath, SnapshotEntryPath;
    assert Front(parts)[..2] == Front(parts.(manifest := manifest))[..2];
  }

  function SumStored(parts: seq<Stored>): nat {
    if parts == [] then 0 else |parts[0].bytes| + SumStored(parts[1..])
  }

  /** The payload of the whole bundle. */
  function SumOf(parts: Parts): nat {
    |parts.checkpoints| + |parts.events| + |parts.manifest| + SumStored(parts.objects) + |parts.run|
      + SumStored(parts.snapshots)
  }

  /** Whatever an export writes, a decoder with large enough ceilings reads back, part by part. */
  lemma {:induction false} ExportDecodes(d: Decoder, parts: Parts)
    requires d.Valid() && Listed(parts) && |ExportEntries(parts)| <= d.limits.entries
    requires TotalBytes(ExportEntries(parts)) <= d.limits.totalBytes
    requires forall i :: 0 <= i < |ExportEntries(parts)| ==>
      |ExportEntries(parts)[i].bytes| <= d.limits.entryBytes && d.utf8(ExportEntries(parts)[i].path)
    ensures Decode(d, BundleBytes(d.hash, ExportEntries(parts))) == Success(ExportEntries(parts))
  {
    hide ExportEntries, SortedBy, ValidPath, Decode, BundleBytes, TotalBytes;
    ExportSorted(parts);
    ExportSafe(parts);
    DecodeEncoded(d, ExportEntries(parts));
  }
}
