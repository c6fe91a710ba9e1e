/** The single writer of a run: sequencer, pending batch, two-phase checkpoints, quota and finish. */
module Recording {
  import opened Accesses
  import opened Bytes
  import opened Digests
  import opened Events
  import opened RunStores
  import opened Wrappers

  datatype CaptureError =
    | BadEvent
    | SequenceExhausted
    | StoreFailed(cause: StoreError)
    | RunStorageLimit
    | TerminalOutputLimit
    | ScanFailed

  // ----- unique logical bytes -----

  ghost function SumSizes(sizes: Objects, ids: set<Digest>): nat
    requires ids <= sizes.Keys
  {
    if ids == {} then 0 else
      var id :| id in ids;
      sizes[id] + SumSizes(sizes, ids - {id})
  }

  lemma {:induction false} SumSplit(sizes: Objects, ids: set<Digest>, id: Digest)
    requires ids <= sizes.Keys && id in ids
    ensures SumSizes(sizes, ids) == sizes[id] + SumSizes(sizes, ids - {id})
    decreases |ids|
  {
    var other :| other in ids && SumSizes(sizes, ids) == sizes[other] + SumSizes(sizes, ids - {other});
    if other != id {
      SumSplit(sizes, ids - {other}, id);
      SumSplit(sizes, ids - {id}, other);
      assert ids - {other} - {id} == ids - {id} - {other};
    }
  }

  lemma {:induction false} SumInsert(sizes: Objects, ids: set<Digest>, id: Digest)
    requires ids <= sizes.Keys && id in sizes
    ensures SumSizes(sizes, ids + {id}) == SumSizes(sizes, ids) + if id in ids then 0 else sizes[id]
  {
    SumSplit(sizes, ids + {id}, id);
    if id in ids {
      assert ids + {id} == ids;
    } else {
      assert ids + {id} - {id} == ids;
    }
  }

  lemma {:induction false} SumNothing(sizes: Objects)
    ensures SumSizes(sizes, {}) == 0
  {
  }

  lemma {:induction false} SumAgrees(a: Objects, b: Objects, ids: set<Digest>)
    requires ids <= a.Keys && ids <= b.Keys && forall id :: id in ids ==> a[id] == b[id]
    ensures SumSizes(a, ids) == SumSizes(b, ids)
    decreases |ids|
  {
    if ids != {} {
      var id :| id in ids;
      SumAgrees(a, b, ids - {id});
      SumSplit(a, ids, id);
      SumSplit(b, ids, id);
    }
  }

  /** The objects that emitted terminal frames name. */
  function FrameObjects(events: seq<Event>): set<Digest> {
    set i | 0 <= i < |events| && Reference(events[i].payload).Some? :: Reference(events[i].payload).value.0
  }

  /** The objects that committed checkpoints hold. */
  function CheckpointObjects(rows: seq<CheckpointRow>, snapshots: Snapshots): set<Digest> {
    set i, id | 0 <= i < |rows| && rows[i].snapshot in snapshots && id in snapshots[rows[i].snapshot] :: id
  }

  // ----- the timeline a recorder builds -----

  ghost predicate Referenced(objects: Objects, payload: Payload) {
    match Reference(payload)
    case None => true
    case Some((id, size)) => id in objects && objects[id] == size
  }

  /** Durable and pending events together. */
  ghost predicate TotalValid(runId: RunId, total: seq<Event>, objects: Objects) {
    && Timeline(runId, total)
    && Tracked(total).Some?
    && forall i :: 0 <= i < |total| ==>
         ValidPayload(total[i].payload) && Referenced(objects, total[i].payload)
  }

  ghost predicate Uncompleted(events: seq<Event>) {
    forall i :: 0 <= i < |events| ==> !events[i].payload.RunCompleted?
  }

  /** A payload the recorder's own callers may emit next. */
  ghost predicate Emittable(total: seq<Event>, objects: Objects, payload: Payload) {
    && Referenced(objects, payload)
    && Tracked(total).Some? && Track(Tracked(total).value, payload).Some?
  }

  lemma {:induction false} TimelineExtends(runId: RunId, total: seq<Event>, event: Event)
    requires Timeline(runId, total)
    requires event.runId == runId && event.sequence == |total| + 1 && event.offset >= LastOffset(total)
    ensures Timeline(runId, total + [event])
  {
    var more := total + [event];
    forall i, j | 0 <= i < j < |more| ensures more[i].offset <= more[j].offset {
      if j == |total| && i < |total| - 1 { assert total[i].offset <= total[|total| - 1].offset; }
    }
  }

  lemma {:induction false} TotalExtends(runId: RunId, total: seq<Event>, objects: Objects, event: Event)
    requires TotalValid(runId, total, objects) && Emittable(total, objects, event.payload)
    requires event.runId == runId && event.sequence == |total| + 1 && event.offset >= LastOffset(total)
    requires ValidPayload(event.payload)
    ensures TotalValid(runId, total + [event], objects)
  {
    TimelineExtends(runId, total, event);
    TrackLast(total, event);
  }

  /** Apart from the range of SQL integers the store finds nothing wrong with a recorder's batch. */
  lemma {:induction false} FlushError(runId: RunId, log: RunLog, runs: Runs, objects: Objects, pending: seq<Event>)
    requires runId in runs && runs[runId] == log && log.status.IsActive() && pending != []
    requires Timeline(runId, log.events + pending)
    requires forall i :: 0 <= i < |pending| ==>
        ValidPayload(pending[i].payload) && Referenced(objects, pending[i].payload)
    requires forall id :: id in runs ==> Timeline(id, runs[id].events)
    ensures AppendError(runs, objects, pending).None? || AppendError(runs, objects, pending) == Some(NumericRange)
    ensures InRange(pending) ==> AppendError(runs, objects, pending).None?
  {
    hide ValidPayload, OffsetsRise;
    ContinuesAccepted(runId, log.events, pending);
    BatchSound(pending, 0);
    OnlyRange(objects, pending, 0);
    assert log.events == [] || log.events[|log.events| - 1].sequence == |log.events|;
  }

  /** Everything about to be stored fits SQL integers. */
  ghost predicate InRange(events: seq<Event>) {
    forall i :: 0 <= i < |events| ==>
      && events[i].sequence < SQL_LIMIT && events[i].offset < SQL_LIMIT
      && (Reference(events[i].payload).Some? ==> Reference(events[i].payload).value.1 < SQL_LIMIT)
  }

  lemma {:induction false} OnlyRange(objects: Objects, events: seq<Event>, i: nat)
    requires i <= |events|
    requires forall k :: 0 <= k < |events| ==> Referenced(objects, events[k].payload)
    ensures RowsDefect(objects, events, i).None? || RowsDefect(objects, events, i) == Some(NumericRange)
    ensures InRange(events) ==> RowsDefect(objects, events, i).None?
    decreases |events| - i
  {
    if i < |events| { OnlyRange(objects, events, i + 1); }
  }

  // ----- one recording session as a value -----

  datatype Session = Session(
    log: RunLog, pending: seq<Event>, next: nat, lastOffset: nat,
    accounted: set<Digest>, bytes: nat, checkpoints: nat)

  function Total(s: Session): seq<Event> { s.log.events + s.pending }

  /** Durable events followed by pending ones are one unbroken timeline that the sequencer continues. */
  ghost predicate Ordered(runId: RunId, s: Session, objects: Objects) {
    && s.log.status.IsActive()
    && TotalValid(runId, Total(s), objects)
    && s.next == |Total(s)| + 1 && s.lastOffset == LastOffset(Total(s))
    && (forall i :: 0 <= i < |s.pending| ==> !s.pending[i].payload.CheckpointCommitted?)
    && s.log.checkpoints == Checkpoints(s.log.events) && s.checkpoints == |s.log.checkpoints|
  }

  /** The byte counter is the size of the distinct objects that frames and checkpoints name. */
  ghost predicate Accounted(s: Session, objects: Objects, snapshots: Snapshots) {
    && s.accounted == FrameObjects(Total(s)) + CheckpointObjects(s.log.checkpoints, snapshots)
    && s.accounted <= objects.Keys
    && s.bytes == SumSizes(objects, s.accounted)
  }

  /** What is durable of a run is exact: checkpoint rows mirror the events, and outcomes follow their starts. */
  ghost predicate Exact(log: RunLog) {
    log.checkpoints == Checkpoints(log.events) && Tracked(log.events).Some?
  }

  ghost predicate DurableLog(runId: RunId, log: RunLog, objects: Objects, snapshots: Snapshots) {
    LogValid(runId, log, objects, snapshots) && Exact(log)
  }

  /** At most one completion: the last event of a run that is no longer active. */
  ghost predicate Ended(log: RunLog) {
    forall i :: 0 <= i < |log.events| && log.events[i].payload.RunCompleted? ==>
      !log.status.IsActive() && i == |log.events| - 1
  }

  /** A sequence number is missing between what is durable and everything that may follow. */
  ghost predicate Gapped(runId: RunId, s: Session) {
    && s.next > |s.log.events| + 1
    && (s.pending != [] ==> s.pending[0].runId == runId && s.pending[0].sequence > |s.log.events| + 1)
  }

  /** The objects that the durable part of a run refers to. */
  function Held(log: RunLog, snapshots: Snapshots): set<Digest> {
    FrameObjects(log.events) + CheckpointObjects(log.checkpoints, snapshots)
  }

  /** The session has stored what it refers to before referring to it, and will not owe anything later. */
  ghost predicate StoresFirst(s: Session, snapshots: Snapshots, accesses: seq<Access>) {
    && StoredFirst(accesses) && ReferredIn(accesses) == Held(s.log, snapshots)
    && FrameObjects(s.pending) <= StoredIn(accesses)
  }

  function Queued(s: Session, event: Event): Session {
    s.(pending := s.pending + [event], next := s.next + 1, lastOffset := event.offset)
  }

  function Flushed(s: Session): Session {
    s.(log := Appended(s.log, s.pending), pending := [])
  }

  lemma {:induction false} QueueKeepsOrder(runId: RunId, s: Session, objects: Objects, event: Event)
    requires Ordered(runId, s, objects) && Emittable(Total(s), objects, event.payload) && ValidPayload(event.payload)
    requires !event.payload.CheckpointCommitted?
    requires event.runId == runId && event.sequence == s.next && event.offset >= s.lastOffset
    ensures Total(Queued(s, event)) == Total(s) + [event]
    ensures Ordered(runId, Queued(s, event), objects)
  {
    hide TotalValid, Emittable, Checkpoints;
    assert Total(Queued(s, event)) == Total(s) + [event];
    TotalExtends(runId, Total(s), objects, event);
  }

  lemma {:induction false} NoCheckpointRows(events: seq<Event>)
    requires forall i :: 0 <= i < |events| ==> !events[i].payload.CheckpointCommitted?
    ensures Checkpoints(events) == []
  {
    if events != [] { NoCheckpointRows(events[..|events| - 1]); }
  }

  lemma {:induction false} FlushKeepsOrder(runId: RunId, s: Session, objects: Objects)
    requires Ordered(runId, s, objects)
    ensures Total(Flushed(s)) == Total(s)
    ensures Ordered(runId, Flushed(s), objects)
  {
    hide TotalValid, Checkpoints, Chunks, Warnings;
    assert Total(Flushed(s)) == Total(s);
    NoCheckpointRows(s.pending);
    ProjectConcat(s.log.events, s.pending);
    assert Checkpoints(s.log.events) + [] == Checkpoints(s.log.events);
  }

  function Committed(s: Session, event: Event, reason: Reason, row: CheckpointRow): Session {
    s.(log := Linked(Appended(s.log, [event]), reason, row),
       next := s.next + 1, lastOffset := event.offset, checkpoints := s.checkpoints + 1)
  }

  lemma {:induction false} CommitKeepsOrder(
    runId: RunId, s: Session, objects: Objects, event: Event, reason: Reason, row: CheckpointRow)
    requires Ordered(runId, s, objects) && s.pending == [] && CheckpointOf(event) == [row]
    requires Emittable(Total(s), objects, event.payload)
    requires event.runId == runId && event.sequence == s.next && event.offset >= s.lastOffset
    ensures Total(Committed(s, event, reason, row)) == Total(s) + [event]
    ensures Ordered(runId, Committed(s, event, reason, row), objects)
  {
    hide TotalValid, Emittable, Chunks, Warnings, Checkpoints;
    var after := Committed(s, event, reason, row);
    assert Total(s) == s.log.events && Total(after) == Total(s) + [event];
    TotalExtends(runId, Total(s), objects, event);
    ProjectLast(s.log.events, event);
  }

  lemma {:induction false} FrameObjectsLast(total: seq<Event>, event: Event)
    ensures FrameObjects(total + [event]) == FrameObjects(total)
              + if Reference(event.payload).Some? then {Reference(event.payload).value.0} else {}
  {
    var more := total + [event];
    forall i | 0 <= i < |total| ensures more[i] == total[i] {}
    assert more[|total|] == event;
  }

  lemma {:induction false} FrameObjectsConcat(a: seq<Event>, b: seq<Event>)
    ensures FrameObjects(a + b) == FrameObjects(a) + FrameObjects(b)
  {
    forall i | 0 <= i < |a| ensures (a + b)[i] == a[i] {}
    forall i | 0 <= i < |b| ensures (a + b)[|a| + i] == b[i] {}
  }

  lemma {:induction false} FlushKeepsAccesses(s: Session, snapshots: Snapshots, accesses: seq<Access>)
    requires StoresFirst(s, snapshots, accesses)
    ensures StoresFirst(Flushed(s), snapshots, accesses + [Referred(FrameObjects(s.pending))])
  {
    hide StoredFirst, StoredIn, ReferredIn, CheckpointObjects, Chunks, Warnings;
    AccessLast(accesses, Referred(FrameObjects(s.pending)));
    FrameObjectsConcat(s.log.events, s.pending);
  }

  lemma {:induction false} QueueKeepsAccesses(s: Session, snapshots: Snapshots, accesses: seq<Access>, event: Event)
    requires StoresFirst(s, snapshots, accesses)
    requires Reference(event.payload).Some? ==> Reference(event.payload).value.0 in StoredIn(accesses)
    ensures StoresFirst(Queued(s, event), snapshots, accesses)
  {
    FrameObjectsLast(s.pending, event);
  }

  /** The durable part keeps its exactness, and without a pending completion it has none. */
  lemma {:induction false} FlushKeepsLog(runId: RunId, s: Session, objects: Objects)
    requires Ordered(runId, s, objects)
    ensures Exact(Flushed(s).log) && Total(Flushed(s)) == Total(s)
    ensures Uncompleted(Total(s)) ==> Ended(Flushed(s).log)
  {
    hide Timeline, Checkpoints, Chunks, Warnings, Tracked;
    FlushKeepsOrder(runId, s, objects);
    assert Total(Flushed(s)) == Flushed(s).log.events + [] == Flushed(s).log.events;
  }

  lemma {:induction false} UncompletedLast(total: seq<Event>, event: Event)
    ensures Uncompleted(total + [event]) <==> Uncompleted(total) && !event.payload.RunCompleted?
  {
    var more := total + [event];
    assert more[|total|] == event;
    forall i | 0 <= i < |total| ensures more[i] == total[i] {}
  }

  lemma {:induction false} CheckpointObjectsLast(
    rows: seq<CheckpointRow>, row: CheckpointRow, before: Snapshots, files: Objects)
    requires forall i :: 0 <= i < |rows| ==> rows[i].snapshot in before
    requires row.snapshot in before ==> before[row.snapshot] == files
    ensures CheckpointObjects(rows + [row], before[row.snapshot := files]) == CheckpointObjects(rows, before)
        + files.Keys
  {
    var more, after := rows + [row], before[row.snapshot := files];
    forall i | 0 <= i < |rows| ensures more[i] == rows[i] && after[rows[i].snapshot] == before[rows[i].snapshot] {}
    assert more[|rows|] == row;
    forall id ensures id in CheckpointObjects(more, after) <==> id in CheckpointObjects(rows, before) + files.Keys {
      if id in files.Keys { assert id in after[more[|rows|].snapshot]; }
    }
  }

  // ----- whole runs -----

  /** What a recorder's session does while no store call fails. */
  datatype Step = QueueOne(event: Event) | FlushBatch | CommitOne(event: Event, reason: Reason, row: CheckpointRow)

  ghost predicate Enabled(runId: RunId, s: Session, objects: Objects, step: Step) {
    match step
    case FlushBatch => true
    case QueueOne(event) =>
      && event.runId == runId && event.sequence == s.next && event.offset >= s.lastOffset
      && ValidPayload(event.payload) && !event.payload.CheckpointCommitted? && !event.payload.RunCompleted?
      && Emittable(Total(s), objects, event.payload)
    case CommitOne(event, _, row) =>
      && event.runId == runId && event.sequence == s.next && event.offset >= s.lastOffset
      && s.pending == [] && CheckpointOf(event) == [row] && Emittable(Total(s), objects, event.payload)
  }

  function Stepped(s: Session, step: Step): Session {
    match step
    case QueueOne(event) => Queued(s, event)
    case FlushBatch => Flushed(s)
    case CommitOne(event, reason, row) => Committed(s, event, reason, row)
  }

  /** `run[0]` is a fresh recorder and each later session is one enabled step further. */
  ghost predicate SessionRun(runId: RunId, run: seq<Session>, steps: seq<Step>, objects: Objects) {
    && |run| == |steps| + 1
    && run[0] == Session(EmptyLog, [], 1, 0, {}, 0, 0)
    && forall i :: 0 <= i < |steps| ==>
      Enabled(runId, run[i], objects, steps[i]) && run[i + 1] == Stepped(run[i], steps[i])
  }

  lemma {:induction false} FreshOrdered(runId: RunId, objects: Objects)
    ensures Ordered(runId, Session(EmptyLog, [], 1, 0, {}, 0, 0), objects)
    ensures Uncompleted(Total(Session(EmptyLog, [], 1, 0, {}, 0, 0)))
  {
    assert EmptyLog.events + [] == [];
  }

  /**
   * However emits, flushes and commits follow each other, every session of a run is ordered and without a
   * completion, and what an earlier session had recorded is the beginning of what a later one has.
   */
  lemma {:induction false} EveryRunOrdered(runId: RunId, run: seq<Session>, steps: seq<Step>, objects: Objects,
      i: nat, j: nat)
    requires SessionRun(runId, run, steps, objects) && i <= j < |run|
    ensures Ordered(runId, run[i], objects) && Ordered(runId, run[j], objects)
    ensures Total(run[i]) <= Total(run[j]) && run[i].log.events <= run[j].log.events
    ensures Uncompleted(Total(run[j]))
    decreases j, i
  {
    hide Ordered, Emittable, Uncompleted;
    if j == 0 {
      FreshOrdered(runId, objects);
    } else if i < j {
      EveryRunOrdered(runId, run, steps, objects, i, j - 1);
      var before, step := run[j - 1], steps[j - 1];
      assert Enabled(runId, before, objects, step) && run[j] == Stepped(before, step);
      StepKeepsOrder(runId, before, step, objects);
    } else {
      EveryRunOrdered(runId, run, steps, objects, i - 1, j);
    }
  }

  lemma {:induction false} StepKeepsOrder(runId: RunId, s: Session, step: Step, objects: Objects)
    requires Ordered(runId, s, objects) && Uncompleted(Total(s)) && Enabled(runId, s, objects, step)
    ensures Ordered(runId, Stepped(s, step), objects) && Uncompleted(Total(Stepped(s, step)))
    ensures Total(s) <= Total(Stepped(s, step)) && s.log.events <= Stepped(s, step).log.events
  {
    hide Ordered, Emittable, Checkpoints, Chunks, Warnings, Uncompleted;
    match step
    case QueueOne(event) =>
      QueueKeepsOrder(runId, s, objects, event);
      UncompletedLast(Total(s), event);
    case FlushBatch => FlushKeepsOrder(runId, s, objects);
    case CommitOne(event, reason, row) =>
      CommitKeepsOrder(runId, s, objects, event, reason, row);
      UncompletedLast(Total(s), event);
  }

  // ----- the classes -----

  /** Numbers events and keeps their offsets from running backwards. */
  class Sequencer {
    const runId: RunId
    var next: nat
    var lastOffset: nat
    ghost var lastReading: nat
    /** Whether the clock has never run backwards. */
    ghost var steady: bool

    ghost predicate Valid()
      reads this
    {
      steady ==> lastOffset <= lastReading
    }

    constructor (runId: RunId)
      ensures Valid() && this.runId == runId && next == 1 && lastOffset == 0 && steady
    {
      this.runId := runId;
      next, lastOffset, lastReading, steady := 1, 0, 0, true;
    }

    /** Reads the clocks, which this model leaves free. */
    method Now() returns (wall: int, now: nat)
      requires Valid()
      modifies this`lastReading, this`steady
      ensures Valid() && lastReading == now
      ensures steady <==> old(steady) && now >= old(lastReading)
    {
      wall := *;
      now := *;
      steady := steady && now >= lastReading;
      lastReading := now;
    }

    /** An invalid payload or an exhausted sequence leaves the sequence and the offset as they were. */
    method Next(payload: Payload) returns (r: Result<Event, CaptureError>)
      requires Valid()
      modifies this
      ensures Valid()
      ensures r.Success? <==> ValidPayload(payload) && old(next) + 1 < U64_LIMIT
      ensures r.Success? ==> r.value == Event(runId, old(next), r.value.wallClock, lastOffset, payload)
      ensures r.Success? ==>
        next == old(next) + 1 && lastOffset == if lastReading > old(lastOffset) then lastReading else old(lastOffset)
      ensures r.Failure? ==> next == old(next) && lastOffset == old(lastOffset)
      ensures r.Failure? ==> r.error == if ValidPayload(payload) then SequenceExhausted else BadEvent
    {
      var wall, now := Now();
      var offset := if now > lastOffset then now else lastOffset;
      if !ValidPayload(payload) {
        return Failure(BadEvent);
      }
      if next + 1 >= U64_LIMIT {
        return Failure(SequenceExhausted);
      }
      r := Success(Event(runId, next, wall, offset, payload));
      next := next + 1;
      lastOffset := offset;
    }
  }

  /** What an authoritative workspace scan hands to a checkpoint: an identity and its file objects. */
  datatype Scan = Scan(snapshot: Digest, files: Objects)

  /** The regular files a scan reads, in its order, each with the digest and the size of its contents. */
  type Contents = seq<(Digest, nat)>

  function Collected(contents: Contents): Objects {
    if contents == [] then map[] else
      Collected(contents[..|contents| - 1])[contents[|contents| - 1].0 := contents[|contents| - 1].1]
  }

  /** No digest has two sizes, among the contents or against what is stored. */
  ghost predicate Consistent(objects: Objects, contents: Contents) {
    && (forall i :: 0 <= i < |contents| && contents[i].0 in objects ==> objects[contents[i].0] == contents[i].1)
    && forall i, j :: 0 <= i < j < |contents| && contents[i].0 == contents[j].0 ==> contents[i].1 == contents[j].1
  }

  lemma {:induction false} NothingCollected(objects: Objects)
    ensures Collected([]) == map[] && Consistent(objects, [])
  {
  }

  lemma {:induction false} CollectedMeaning(contents: Contents, id: Digest)
    ensures id in Collected(contents) <==> exists i :: 0 <= i < |contents| && contents[i].0 == id
    ensures id in Collected(contents) ==>
      exists i :: 0 <= i < |contents| && contents[i] == (id, Collected(contents)[id])
  {
    if contents != [] {
      var n := |contents| - 1;
      CollectedMeaning(contents[..n], id);
      forall i | 0 <= i < n ensures contents[..n][i] == contents[i] {}
      if contents[n].0 == id {
        assert contents[n] == (id, Collected(contents)[id]);
      } else if id in Collected(contents) {
        var i :| 0 <= i < n && contents[..n][i] == (id, Collected(contents[..n])[id]);
        assert contents[i] == (id, Collected(contents)[id]);
      }
    }
  }

  /** One more file fits exactly when what is stored by then has its digest with its size, or not at all. */
  lemma {:induction false} ConsistentNext(objects: Objects, contents: Contents, i: nat)
    requires i < |contents| && Consistent(objects, contents[..i])
    ensures Collected(contents[..i + 1]) == Collected(contents[..i])[contents[i].0 := contents[i].1]
    ensures var stored := objects + Collected(contents[..i]);
      Consistent(objects, contents[..i + 1]) <==> contents[i].0 in stored ==> stored[contents[i].0] == contents[i].1
    ensures Consistent(objects, contents) ==> Consistent(objects, contents[..i + 1])
  {
    var front, more, id := contents[..i], contents[..i + 1], contents[i].0;
    assert more[..i] == front && more[i] == contents[i];
    CollectedMeaning(front, id);
    forall j | 0 <= j < i ensures front[j] == contents[j] && more[j] == contents[j] {}
    var stored := objects + Collected(front);
    if id in Collected(front) {
      var j :| 0 <= j < i && front[j] == (id, Collected(front)[id]);
      assert more[j].1 == stored[id];
    }
  }

  class Recorder {
    const store: RunStore
    const sequencer: Sequencer
    const runId: RunId
    const batchSize: nat
    const maxRunBytes: nat
    var pending: seq<Event>
    var accounted: set<Digest>
    var logicalBytes: nat
    var checkpointCount: nat
    /** Set by the first failing store transaction; nothing is claimed about quotas after that. */
    ghost var broken: bool
    /** Set when the failing transaction was a checkpoint commit, whose sequence number is lost. */
    ghost var gapped: bool
    /** Set when the failing transaction was a finish, whose completion event stays pending. */
    ghost var closing: bool
    ghost var finished: bool
    /** What the session has stored and what its transactions have referred to, in order. */
    ghost var accesses: seq<Access>

    /** What holds whether or not store calls fail: above all, what is durable is exact. */
    ghost predicate Wired()
      reads this, store, sequencer
    {
      && sequencer.runId == runId && sequencer.Valid() && 0 < batchSize && maxRunBytes < U64_LIMIT
      && store.Valid() && runId in store.runs
      && Exact(store.runs[runId]) && (!closing ==> Ended(store.runs[runId]))
      && StoresFirst(Abs(), store.snapshots, accesses)
      && (gapped ==> broken && !finished) && (closing ==> broken)
    }

    ghost function Abs(): Session
      reads this, store, sequencer
      requires runId in store.runs
    {
      Session(store.runs[runId], pending, sequencer.next, sequencer.lastOffset, accounted, logicalBytes,
        checkpointCount)
    }

    /** No store transaction has failed and the run is not finished. */
    ghost predicate Recording()
      reads this
    {
      !broken && !finished
    }

    /** No sequence number has been lost and the run is not finished. */
    ghost predicate Continuing()
      reads this
    {
      !gapped && !finished
    }

    /** What is pending continues what is durable, or a lost number keeps it from ever being stored. */
    ghost predicate Flushable()
      reads this, store, sequencer
    {
      && Wired()
      && (Continuing() ==> Ordered(runId, Abs(), store.objects) && (closing <==> !Uncompleted(Total(Abs()))))
      && (gapped ==> Gapped(runId, Abs()))
    }

    ghost predicate InOrder()
      reads this, store, sequencer
    {
      Flushable() && (Recording() ==> |pending| < batchSize)
    }

    /** What holds between any two calls from outside. */
    ghost predicate Valid()
      reads this, store, sequencer
    {
      && InOrder()
      && (Recording() ==> Accounted(Abs(), store.objects, store.snapshots) && logicalBytes <= maxRunBytes)
    }

    constructor (store: RunStore, runId: RunId, batchSize: nat, maxRunBytes: nat)
      requires store.Valid() && 0 < batchSize && maxRunBytes < U64_LIMIT
      requires runId in store.runs && store.runs[runId] == EmptyLog
      ensures Valid() && Recording() && Continuing() && !closing && accesses == []
      ensures this.store == store && this.runId == runId
      ensures this.batchSize == batchSize && this.maxRunBytes == maxRunBytes
      ensures fresh(sequencer) && Abs() == Session(EmptyLog, [], 1, 0, {}, 0, 0)
    {
      this.store := store;
      this.runId := runId;
      this.batchSize := batchSize;
      this.maxRunBytes := maxRunBytes;
      sequencer := new Sequencer(runId);
      pending := [];
      accounted := {};
      logicalBytes := 0;
      checkpointCount := 0;
      broken, gapped, closing, finished := false, false, false, false;
      accesses := [];
      NothingStored();
    }

    /** Makes the pending batch durable; on failure it stays pending. */
    method Flush() returns (error: Option<CaptureError>)
      requires Flushable() && !finished
      modifies this`pending, this`broken, this`accesses, store`runs, store`outages
      ensures Flushable() && (true in store.outages ==> true in old(store.outages)) && (old(broken) ==> broken)
      ensures error.None? && !gapped ==> Abs() == Flushed(old(Abs()))
      ensures error.None? ==> pending == []
      ensures error.Some? ==> error.value.StoreFailed? && broken && Abs() == old(Abs())
      ensures gapped ==> store.runs == old(store.runs) && (error.None? <==> old(pending) == [])
      ensures OnlyGrew(runId, old(store.runs), store.runs)
      ensures StoredIn(accesses) == StoredIn(old(accesses))
      ensures broken && !old(broken) ==> error.Some? && Excused(old(store.outages), pending)
    {
      hide Ordered, LogValid, Appended, AppendError, OnlyGrew, StoresFirst, Exact, Ended, Uncompleted;
      OnlyGrewAppended(runId, store.runs, pending);
      ghost var before := Abs();
      if pending == [] {
        FlushNothing(before);
        return None;
      }
      if gapped {
        GapRejectsPending(runId, Abs(), store.runs, store.objects, store.snapshots);
      } else {
        FlushAccepted(runId, before, store.runs, store.objects, store.snapshots);
        FlushKeepsOrder(runId, before, store.objects);
        FlushKeepsLog(runId, before, store.objects);
        FlushKeepsAccesses(before, store.snapshots, accesses);
      }
      var failure := store.AppendEventBatch(pending);
      if failure.Some? {
        broken := true;
        return Some(StoreFailed(failure.value));
      }
      AccessLast(accesses, Referred(FrameObjects(pending)));
      assert StoredIn(accesses) + {} == StoredIn(accesses);
      accesses := accesses + [Referred(FrameObjects(pending))];
      pending := [];
      return None;
    }

    /** Appends one event to the pending batch without flushing it. */
    method QueueEvent(payload: Payload) returns (r: Result<nat, CaptureError>)
      requires Flushable() && !finished
      requires Continuing() ==> Emittable(Total(Abs()), store.objects, payload) && !payload.CheckpointCommitted?
      requires Reference(payload).Some? ==> Reference(payload).value.0 in StoredIn(accesses)
      modifies this`pending, sequencer
      ensures Wired() && (gapped ==> Gapped(runId, Abs()))
      ensures r.Success? <==> ValidPayload(payload) && old(sequencer.next) + 1 < U64_LIMIT
      ensures r.Success? ==> r.value == old(sequencer.next) && |pending| == |old(pending)| + 1
      ensures r.Success? ==>
          pending == old(pending)
            + [Event(runId, r.value, pending[|old(pending)|].wallClock, sequencer.lastOffset, payload)]
      ensures r.Success? ==> sequencer.next == r.value + 1 && sequencer.lastOffset >= old(sequencer.lastOffset)
      ensures r.Failure? ==> Abs() == old(Abs()) && (r.error.BadEvent? || r.error.SequenceExhausted?)
      ensures Continuing() ==> Ordered(runId, Abs(), store.objects)
      ensures Continuing() && r.Success? ==> Grew(Total(old(Abs())), Total(Abs()), [payload])
      ensures Continuing() ==>
        (Uncompleted(Total(Abs())) <==> Uncompleted(Total(old(Abs()))) && !(r.Success? && payload.RunCompleted?))
    {
      hide Ordered, LogValid, Emittable, StoresFirst, Exact, Ended, Uncompleted;
      var event := sequencer.Next(payload);
      if event.Failure? {
        return Failure(event.error);
      }
      QueueKeepsAccesses(old(Abs()), store.snapshots, accesses, event.value);
      if !gapped {
        OrderedNumbers(runId, old(Abs()), store.objects);
        QueueKeepsOrder(runId, old(Abs()), store.objects, event.value);
        assert store.runs[runId].events + (pending + [event.value]) == Total(old(Abs())) + [event.value];
        UncompletedLast(Total(old(Abs())), event.value);
      }
      pending := pending + [event.value];
      return Success(event.value.sequence);
    }

    /** Queues one event and makes the batch durable once it is full. */
    method Emit(payload: Payload) returns (r: Result<nat, CaptureError>)
      requires InOrder() && !finished
      requires Continuing() ==> Emittable(Total(Abs()), store.objects, payload)
      requires !payload.CheckpointCommitted? && !payload.RunCompleted?
      requires Reference(payload).Some? ==> Reference(payload).value.0 in StoredIn(accesses)
      modifies this`pending, this`broken, this`accesses, sequencer, store`runs, store`outages
      ensures InOrder() && (true in store.outages ==> true in old(store.outages)) && (old(broken) ==> broken)
      ensures if ValidPayload(payload) && old(sequencer.next) + 1 < U64_LIMIT then r.Success? || r.error.StoreFailed?
              else r.Failure? && (r.error.BadEvent? || r.error.SequenceExhausted?)
      ensures !gapped ==>
        Grew(Total(old(Abs())), Total(Abs()), if r.Success? || r.error.StoreFailed? then [payload] else [])
      ensures OnlyGrew(runId, old(store.runs), store.runs) && (gapped ==> store.runs == old(store.runs))
      ensures r.Success? ==> r.value == old(sequencer.next) && sequencer.next == r.value + 1
      ensures r.Failure? && r.error.StoreFailed? ==> broken
      ensures StoredIn(accesses) == StoredIn(old(accesses))
      ensures broken && !old(broken) ==> r.Failure? && Excused(old(store.outages), pending)
    {
      hide Ordered, LogValid, Emittable, Grew, Flushed, OnlyGrew, StoresFirst, Exact, Ended, Uncompleted;
      OnlyGrewNot(runId, store.runs);
      var sequence := QueueEvent(payload);
      if sequence.Failure? {
        GrewNot(Total(Abs()));
        return sequence;
      }
      if |pending| >= batchSize {
        ghost var queued := Abs();
        if !gapped { FlushKeepsOrder(runId, queued, store.objects); }
        var failure := Flush();
        if failure.Some? {
          return Failure(failure.value);
        }
      }
      return sequence;
    }

    /** Emits a payload that names no object. */
    method EmitPlain(payload: Payload) returns (r: Result<nat, CaptureError>)
      requires Valid() && !finished
      requires Continuing() ==> Emittable(Total(Abs()), store.objects, payload)
      requires !payload.CheckpointCommitted? && !payload.RunCompleted? && Reference(payload).None?
      modifies this`pending, this`broken, this`accesses, sequencer, store`runs, store`outages
      ensures Valid() && (true in store.outages ==> true in old(store.outages)) && (old(broken) ==> broken)
      ensures if ValidPayload(payload) && old(sequencer.next) + 1 < U64_LIMIT then r.Success? || r.error.StoreFailed?
              else r.Failure? && (r.error.BadEvent? || r.error.SequenceExhausted?)
      ensures !gapped ==>
        Grew(Total(old(Abs())), Total(Abs()), if r.Success? || r.error.StoreFailed? then [payload] else [])
      ensures OnlyGrew(runId, old(store.runs), store.runs) && (gapped ==> store.runs == old(store.runs))
      ensures r.Success? ==> sequencer.next == old(sequencer.next) + 1
      ensures r.Failure? && r.error.StoreFailed? ==> broken
      ensures StoredIn(accesses) == StoredIn(old(accesses))
      ensures broken && !old(broken) ==> r.Failure? && Excused(old(store.outages), pending)
    {
      hide Ordered, Accounted, LogValid, Emittable, Grew, OnlyGrew, StoresFirst, Exact, Ended, Uncompleted;
      r := Emit(payload);
      if !broken {
        GrowthKeepsRows(runId, old(store.runs), store.runs);
        EmitKeepsAccounts(old(Abs()), Abs(), store.objects, store.snapshots, if r.Success? then [payload] else []);
      }
    }

    method Warning(code: nat) returns (r: Result<nat, CaptureError>)
      requires Valid() && !finished
      modifies this`pending, this`broken, this`accesses, sequencer, store`runs, store`outages
      ensures Valid() && (true in store.outages ==> true in old(store.outages)) && (old(broken) ==> broken)
      ensures if old(sequencer.next) + 1 < U64_LIMIT then r.Success? || r.error.StoreFailed?
              else r.Failure? && (r.error.BadEvent? || r.error.SequenceExhausted?)
      ensures !gapped ==>
        Grew(Total(old(Abs())), Total(Abs()),
             if r.Success? || r.error.StoreFailed? then [RecorderWarning(code)] else [])
      ensures OnlyGrew(runId, old(store.runs), store.runs) && (gapped ==> store.runs == old(store.runs))
      ensures r.Success? ==> sequencer.next == old(sequencer.next) + 1
      ensures r.Failure? && r.error.StoreFailed? ==> broken
      ensures StoredIn(accesses) == StoredIn(old(accesses))
      ensures broken && !old(broken) ==> r.Failure? && Excused(old(store.outages), pending)
    {
      hide Ordered, Accounted, LogValid, Grew, OnlyGrew, StoresFirst, Exact, Ended, Uncompleted, Emittable;
      if !gapped { OrderedTracks(runId, Abs(), store.objects, RecorderWarning(code)); }
      r := EmitPlain(RecorderWarning(code));
    }

    /** Flushes between calls from outside. */
    method FlushAll() returns (error: Option<CaptureError>)
      requires Valid() && !finished
      modifies this`pending, this`broken, this`accesses, store`runs, store`outages
      ensures Valid() && (true in store.outages ==> true in old(store.outages)) && (old(broken) ==> broken)
      ensures !gapped ==> Total(Abs()) == Total(old(Abs()))
      ensures error.None? ==> pending == []
      ensures error.Some? ==> error.value.StoreFailed? && broken
      ensures OnlyGrew(runId, old(store.runs), store.runs)
      ensures gapped ==> store.runs == old(store.runs) && (error.None? <==> old(pending) == [])
      ensures StoredIn(accesses) == StoredIn(old(accesses))
      ensures broken && !old(broken) ==> error.Some? && Excused(old(store.outages), pending)
    {
      hide Ordered, Accounted, LogValid, Flushed, OnlyGrew, StoresFirst, Exact, Ended, Uncompleted;
      if !gapped { FlushKeepsOrder(runId, Abs(), store.objects); }
      FlushKeepsRows(Abs());
      error := Flush();
      if !broken { FlushKeepsAccounts(old(Abs()), store.objects, store.snapshots); }
    }

    /** The counter after admitting the candidates, or nothing when the run limit forbids it. */
    method ProjectedObjectBytes(candidates: Objects) returns (r: Option<nat>)
      ensures r.Some? <==> logicalBytes + SumSizes(candidates, candidates.Keys - accounted) <= maxRunBytes
      ensures r.Some? ==> r.value == logicalBytes + SumSizes(candidates, candidates.Keys - accounted)
    {
      var remaining, additional := candidates.Keys, 0;
      while remaining != {}
        invariant remaining <= candidates.Keys
        invariant additional + SumSizes(candidates, remaining - accounted) ==
            SumSizes(candidates, candidates.Keys - accounted)
        decreases remaining
      {
        var id :| id in remaining;
        if id !in accounted {
          additional := additional + candidates[id];
          SumSplit(candidates, remaining - accounted, id);
          assert remaining - accounted - {id} == (remaining - {id}) - accounted;
        } else {
          assert remaining - accounted == (remaining - {id}) - accounted;
        }
        remaining := remaining - {id};
      }
      var projected := logicalBytes + additional;
      if projected > maxRunBytes {
        return None;
      }
      return Some(projected);
    }

    method AccountObjects(candidates: Objects, projected: nat)
      modifies this`accounted, this`logicalBytes
      ensures accounted == old(accounted) + candidates.Keys && logicalBytes == projected
    {
      accounted := accounted + candidates.Keys;
      logicalBytes := projected;
    }

    /** Makes the warning about the run limit durable. */
    method RefuseReference() returns (error: CaptureError)
      requires Valid() && !finished
      modifies this`pending, this`broken, this`accesses, sequencer, store`runs, store`outages
      ensures Valid() && (true in store.outages ==> true in old(store.outages)) && (old(broken) ==> broken)
      ensures if old(sequencer.next) + 1 < U64_LIMIT then error == RunStorageLimit || error.StoreFailed?
              else error.BadEvent? || error.SequenceExhausted?
      ensures !gapped && error == RunStorageLimit ==>
        Grew(Total(old(Abs())), Total(Abs()), [RecorderWarning(STORAGE_LIMIT)]) && pending == []
      ensures !gapped && error.StoreFailed? ==>
        Grew(Total(old(Abs())), Total(Abs()), [RecorderWarning(STORAGE_LIMIT)])
      ensures !gapped && (error.BadEvent? || error.SequenceExhausted?) ==> Grew(Total(old(Abs())), Total(Abs()), [])
      ensures error.StoreFailed? ==> broken
      ensures gapped ==> store.runs == old(store.runs)
      ensures StoredIn(accesses) == StoredIn(old(accesses))
      ensures broken && !old(broken) ==> Excused(old(store.outages), pending)
    {
      hide Ordered, Accounted, LogValid, Grew, OnlyGrew, StoresFirst, Exact, Ended, Uncompleted;
      var warned := Warning(STORAGE_LIMIT);
      if warned.Failure? {
        return warned.error;
      }
      var failure := FlushAll();
      if failure.Some? {
        return failure.value;
      }
      return RunStorageLimit;
    }

    /**
     * Emits a terminal frame for an object this session has stored, counting the object once. A frame over
     * the run limit is replaced by a durable warning and changes neither the counter nor the accounted
     * objects.
     */
    method EmitObjectReference(objectId: Digest, size: nat, payload: Payload) returns (r: Result<nat, CaptureError>)
      requires Valid() && !finished
      requires Reference(payload) == Some((objectId, size)) && objectId in StoredIn(accesses)
      requires objectId in store.objects && store.objects[objectId] == size
      modifies this`pending, this`broken, this`accesses, this`accounted, this`logicalBytes
      modifies sequencer, store`runs, store`outages
      ensures Valid() && (true in store.outages ==> true in old(store.outages)) && (old(broken) ==> broken)
      ensures !gapped && r.Success? ==> Grew(Total(old(Abs())), Total(Abs()), [payload])
      ensures !broken && r.Success? ==> accounted == old(accounted) + {objectId}
      ensures !broken && r.Success? ==> logicalBytes == old(logicalBytes) + if objectId in old(accounted) then 0
          else size
      ensures r.Failure? ==> accounted == old(accounted) && logicalBytes == old(logicalBytes)
      ensures !broken && old(sequencer.next) + 1 < U64_LIMIT && size > 0 ==>
        (r.Success? <==> old(logicalBytes) + (if objectId in old(accounted) then 0 else size) <= maxRunBytes)
      ensures !gapped && r == Failure(RunStorageLimit) ==>
        Grew(Total(old(Abs())), Total(Abs()), [RecorderWarning(STORAGE_LIMIT)]) && pending == []
      ensures !gapped && r.Failure? && (r.error.BadEvent? || r.error.SequenceExhausted?) ==>
        Grew(Total(old(Abs())), Total(Abs()), [])
      ensures r.Failure? ==> !r.error.TerminalOutputLimit? && (r.error.StoreFailed? ==> broken)
      ensures r.Failure? ==> !r.error.ScanFailed?
      ensures gapped ==> store.runs == old(store.runs)
      ensures StoredIn(accesses) == StoredIn(old(accesses))
      ensures broken && !old(broken) ==> r.Failure? && Excused(old(store.outages), pending)
    {
      hide Ordered, Accounted, LogValid, Grew, OnlyGrew, StoresFirst, Exact, Ended, Uncompleted, Emittable;
      hide Gapped, Total, InRange, StateValid;
      var candidates := map[objectId := size];
      OneCandidate(candidates, objectId, accounted);
      var projected := ProjectedObjectBytes(candidates);
      if projected.None? {
        var error := RefuseReference();
        return Failure(error);
      }
      r := EmitAdmitted(objectId, size, payload, projected.value);
    }

    /** Emits a frame within the run limit and counts its object once the event is in the batch. */
    method EmitAdmitted(objectId: Digest, size: nat, payload: Payload, projected: nat)
      returns (r: Result<nat, CaptureError>)
      requires Valid() && !finished
      requires Reference(payload) == Some((objectId, size)) && objectId in StoredIn(accesses)
      requires objectId in store.objects && store.objects[objectId] == size
      requires projected == logicalBytes + (if objectId in accounted then 0 else size) <= maxRunBytes
      modifies this`pending, this`broken, this`accesses, this`accounted, this`logicalBytes
      modifies sequencer, store`runs, store`outages
      ensures Valid() && (true in store.outages ==> true in old(store.outages)) && (old(broken) ==> broken)
      ensures if ValidPayload(payload) && old(sequencer.next) + 1 < U64_LIMIT then r.Success? || r.error.StoreFailed?
              else r.Failure? && (r.error.BadEvent? || r.error.SequenceExhausted?)
      ensures r.Failure? && r.error.StoreFailed? ==> broken
      ensures !gapped ==>
        Grew(Total(old(Abs())), Total(Abs()), if r.Success? || r.error.StoreFailed? then [payload] else [])
      ensures r.Success? ==> accounted == old(accounted) + {objectId} && logicalBytes == projected
      ensures r.Failure? ==> accounted == old(accounted) && logicalBytes == old(logicalBytes)
      ensures gapped ==> store.runs == old(store.runs)
      ensures StoredIn(accesses) == StoredIn(old(accesses))
      ensures broken && !old(broken) ==> r.Failure? && Excused(old(store.outages), pending)
    {
      hide Ordered, Accounted, LogValid, Grew, OnlyGrew, StoresFirst, Exact, Ended, Uncompleted, Emittable;
      hide Gapped, Total, InRange, StoredIn, StateValid;
      if !gapped { OrderedTracks(runId, Abs(), store.objects, payload); }
      r := Emit(payload);
      GrowthKeepsRows(runId, old(store.runs), store.runs);
      if r.Failure? {
        if !broken {
          EmitKeepsAccounts(old(Abs()), Abs(), store.objects, store.snapshots, []);
        }
        return;
      }
      CountFrame(old(Abs()), objectId, size, payload, projected);
    }

    /** Counts the object of a frame that has just been emitted. */
    method CountFrame(
      ghost before: Session, objectId: Digest, size: nat, payload: Payload, projected: nat)
      requires InOrder() && !finished && Reference(payload) == Some((objectId, size))
      requires objectId in store.objects && store.objects[objectId] == size
      requires !broken ==>
        && Accounted(before, store.objects, store.snapshots) && Grew(Total(before), Total(Abs()), [payload])
        && Abs().log.checkpoints == before.log.checkpoints
        && accounted == before.accounted && logicalBytes == before.bytes
        && projected == before.bytes + (if objectId in before.accounted then 0 else size) <= maxRunBytes
      modifies this`accounted, this`logicalBytes
      ensures Valid() && accounted == old(accounted) + {objectId} && logicalBytes == projected
      ensures Total(Abs()) == Total(old(Abs()))
    {
      hide Ordered, Accounted, LogValid, Grew, StoresFirst, Exact, Ended, Uncompleted;
      ghost var emitted := Abs();
      AccountObjects(map[objectId := size], projected);
      CountersIgnored(emitted, Abs(), store.snapshots, accesses);
      if !gapped { OrderIgnoresQuota(runId, emitted, Abs(), store.objects); }
      if !broken { FrameAccounted(before, Abs(), store.objects, store.snapshots, objectId, payload); }
    }

    /** A checkpoint identity that no attempt of this run and no row of any run uses. */
    ghost predicate FreshId(id: CheckpointId)
      reads this, store, sequencer
      requires runId in store.runs
    {
      && (Continuing() && Tracked(Total(Abs())).Some? ==> id !in Tracked(Total(Abs())).value.started)
      && Unused(store.runs, id)
    }

    /** Scanned objects were stored by this session, and one identity never names two manifests. */
    ghost predicate Scanned(scan: Scan)
      reads this, store
    {
      && (forall id :: id in scan.files ==>
            id in StoredIn(accesses) && id in store.objects && store.objects[id] == scan.files[id])
      && (scan.snapshot in store.snapshots ==> store.snapshots[scan.snapshot] == scan.files)
    }

    /** Whether the run limit admits the objects of a scan. */
    ghost predicate Admits(files: Objects)
      reads this
    {
      logicalBytes + SumSizes(files, files.Keys - accounted) <= maxRunBytes
    }

    /** The second phase: checkpoint, snapshot and committed event become durable together. */
    method CommitScanned(id: CheckpointId, reason: Reason, scan: Scan) returns (r: Result<Digest, CaptureError>)
      requires Valid() && !finished && Scanned(scan)
      requires Continuing() ==> pending == [] && Open(Total(Abs()), id) && Unused(store.runs, id)
      modifies this`pending, this`broken, this`gapped, this`accesses, this`accounted, this`logicalBytes
      modifies this`checkpointCount, sequencer, store`runs, store`snapshots, store`outages
      ensures Valid() && (true in store.outages ==> true in old(store.outages)) && (old(broken) ==> broken)
      ensures old(gapped) ==> gapped && store.runs == old(store.runs)
      ensures !gapped && r.Success? ==> r.value == scan.snapshot && pending == []
      ensures !gapped && r.Success? ==> Grew(Total(old(Abs())), Total(Abs()), [CheckpointCommitted(id, scan.snapshot)])
      ensures !broken && r.Success? ==> accounted == old(accounted) + scan.files.Keys
      ensures !broken && r.Success? ==>
          logicalBytes == old(logicalBytes) + SumSizes(scan.files, scan.files.Keys - old(accounted))
      ensures r.Failure? ==> accounted == old(accounted) && logicalBytes == old(logicalBytes)
      ensures !broken && r.Failure? ==> !r.error.StoreFailed?
      ensures r.Failure? ==> !r.error.ScanFailed?
      ensures !gapped && r == Failure(RunStorageLimit) ==> pending == []
      ensures !gapped && r == Failure(RunStorageLimit) ==>
        Grew(Total(old(Abs())), Total(Abs()), [RecorderWarning(STORAGE_LIMIT), CheckpointFailed(id)])
      ensures !broken && old(sequencer.next) + 2 < U64_LIMIT ==>
        if old(Admits(scan.files)) then r.Success? else r == Failure(RunStorageLimit)
      ensures broken && !old(broken) ==>
          r.Failure? && CommitExcused(old(store.outages), old(Abs()), Abs(), reason, scan)
    {
      hide Ordered, Accounted, LogValid, Grew, StateValid, OnlyGrew, StoresFirst, Exact, Ended, Uncompleted, SumSizes;
      var projected := ProjectedObjectBytes(scan.files);
      if projected.None? {
        r := RefuseScan(id);
        return;
      }
      r := CommitAdmitted(id, reason, scan, projected.value);
    }

    /** The outcome of a scan over the run limit: a warning and a failed attempt, both durable. */
    method RefuseScan(id: CheckpointId) returns (r: Result<Digest, CaptureError>)
      requires Valid() && !finished && (Continuing() ==> Open(Total(Abs()), id))
      modifies this`pending, this`broken, this`accesses, sequencer, store`runs, store`outages
      ensures Valid() && (true in store.outages ==> true in old(store.outages)) && (old(broken) ==> broken)
      ensures r.Failure? && (gapped ==> store.runs == old(store.runs))
      ensures !broken && old(sequencer.next) + 2 < U64_LIMIT ==> r.error == RunStorageLimit
      ensures !broken ==> !r.error.StoreFailed?
      ensures !r.error.ScanFailed?
      ensures !gapped && r.error == RunStorageLimit ==> pending == []
      ensures !gapped && r.error == RunStorageLimit ==>
        Grew(Total(old(Abs())), Total(Abs()), [RecorderWarning(STORAGE_LIMIT), CheckpointFailed(id)])
      ensures broken && !old(broken) ==> Excused(old(store.outages), pending)
    {
      hide Ordered, Accounted, LogValid, Grew, Tracked, StateValid, OnlyGrew, StoresFirst, Exact, Ended, Uncompleted;
      var warned := Warning(STORAGE_LIMIT);
      if warned.Failure? {
        return Failure(warned.error);
      }
      if !gapped {
        StillOpen(Total(old(Abs())), Total(Abs()), id, RecorderWarning(STORAGE_LIMIT));
        OrderedLength(runId, Abs(), store.objects);
        OrderedLength(runId, old(Abs()), old(store.objects));
        GrewLength(Total(old(Abs())), Total(Abs()), [RecorderWarning(STORAGE_LIMIT)]);
      }
      ghost var middle := Abs();
      r := FailAttempt(id, RunStorageLimit);
      if !gapped && r.error == RunStorageLimit {
        GrewTwice(Total(old(Abs())), Total(middle), Total(Abs()), [RecorderWarning(STORAGE_LIMIT)],
          [CheckpointFailed(id)]);
        assert [RecorderWarning(STORAGE_LIMIT)] + [CheckpointFailed(id)] ==
          [RecorderWarning(STORAGE_LIMIT), CheckpointFailed(id)];
      }
    }

    /** Records the failed outcome of an open attempt. */
    method FailAttempt(id: CheckpointId, error: CaptureError) returns (r: Result<Digest, CaptureError>)
      requires Valid() && !finished && (Continuing() ==> Open(Total(Abs()), id))
      requires error.RunStorageLimit? || error.ScanFailed?
      modifies this`pending, this`broken, this`accesses, sequencer, store`runs, store`outages
      ensures Valid() && (true in store.outages ==> true in old(store.outages)) && (old(broken) ==> broken)
      ensures r.Failure? && (gapped ==> store.runs == old(store.runs))
      ensures !broken && old(sequencer.next) + 1 < U64_LIMIT ==> r.error == error
      ensures !broken ==> !r.error.StoreFailed?
      ensures r.error == error || r.error.StoreFailed? || r.error.SequenceExhausted? || r.error.BadEvent?
      ensures !gapped && r.error == error ==>
          Grew(Total(old(Abs())), Total(Abs()), [CheckpointFailed(id)]) && pending == []
      ensures broken && !old(broken) ==> Excused(old(store.outages), pending)
    {
      hide Ordered, Accounted, LogValid, Grew, Tracked, StateValid, OnlyGrew, StoresFirst, Exact, Ended, Uncompleted;
      var failed := EmitPlain(CheckpointFailed(id));
      if failed.Failure? {
        return Failure(failed.error);
      }
      var failure := FlushAll();
      if failure.Some? {
        return Failure(failure.value);
      }
      return Failure(error);
    }

    /** The commit itself, for a scan within the run limit. A failing commit loses its sequence number. */
    method CommitAdmitted(id: CheckpointId, reason: Reason, scan: Scan, projected: nat)
      returns (r: Result<Digest, CaptureError>)
      requires Valid() && !finished && Scanned(scan)
      requires projected == logicalBytes + SumSizes(scan.files, scan.files.Keys - accounted) <= maxRunBytes
      requires Continuing() ==> pending == [] && Open(Total(Abs()), id) && Unused(store.runs, id)
      modifies this`broken, this`gapped, this`accesses, this`accounted, this`logicalBytes, this`checkpointCount
      modifies sequencer, store`runs, store`snapshots, store`outages
      ensures Valid() && (true in store.outages ==> true in old(store.outages)) && (old(broken) ==> broken)
      ensures old(gapped) ==> gapped && r.Failure? && store.runs == old(store.runs)
      ensures gapped && !old(gapped) ==> r.Failure? && r.error.StoreFailed? && store.runs == old(store.runs)
      ensures !gapped && r.Success? ==> r.value == scan.snapshot
      ensures !gapped && r.Success? ==> Grew(Total(old(Abs())), Total(Abs()), [CheckpointCommitted(id, scan.snapshot)])
      ensures r.Success? ==> accounted == old(accounted) + scan.files.Keys && logicalBytes == projected
      ensures r.Failure? ==> accounted == old(accounted) && logicalBytes == old(logicalBytes)
      ensures if old(sequencer.next) + 1 < U64_LIMIT then r.Success? || (r.error.StoreFailed? && gapped)
              else r.Failure? && r.error == SequenceExhausted && gapped == old(gapped)
      ensures broken && !old(broken) ==>
          r.Failure? && CommitExcused(old(store.outages), old(Abs()), Abs(), reason, scan)
    {
      hide Ordered, Accounted, LogValid, StateValid, Grew, Committable, Linked, Appended, Linkable, AppendError;
      hide Admitted, Open, SumSizes, Continues, LastOffset, StoresFirst, Exact, Ended, Uncompleted;
      ghost var s := Abs();
      var event := sequencer.Next(CheckpointCommitted(id, scan.snapshot));
      if event.Failure? {
        CountersIgnored(s, Abs(), store.snapshots, accesses);
        return Failure(event.error);
      }
      CountersIgnored(s, Abs(), store.snapshots, accesses);
      r := StoreCommit(reason, scan, projected, event.value, s);
    }

    /** The transaction of a commit whose event has taken its number from the session `before`. */
    method StoreCommit(reason: Reason, scan: Scan, projected: nat, event: Event, ghost before: Session)
      returns (r: Result<Digest, CaptureError>)
      requires Wired() && !finished && Scanned(scan)
      requires event.payload.CheckpointCommitted? && event.payload.snapshot == scan.snapshot && event.runId == runId
      requires event.sequence == before.next && event.offset >= before.lastOffset
      requires Abs() == before.(next := before.next + 1, lastOffset := event.offset)
      requires projected == logicalBytes + SumSizes(scan.files, scan.files.Keys - accounted) <= maxRunBytes
      requires gapped ==> Gapped(runId, before)
      requires Continuing() ==>
        && Ordered(runId, before, store.objects) && (closing <==> !Uncompleted(Total(before))) && pending == []
        && Open(Total(before), event.payload.checkpoint) && Unused(store.runs, event.payload.checkpoint)
      requires Recording() ==> Accounted(before, store.objects, store.snapshots)
      modifies this`broken, this`gapped, this`accesses, this`accounted, this`logicalBytes, this`checkpointCount
      modifies store`runs, store`snapshots, store`outages
      ensures Valid() && (true in store.outages ==> true in old(store.outages)) && (old(broken) ==> broken)
      ensures r.Failure? ==> r.error.StoreFailed? && broken && gapped && store.runs == old(store.runs)
      ensures r.Failure? ==> accounted == old(accounted) && logicalBytes == old(logicalBytes)
      ensures old(gapped) ==> r.Failure?
      ensures r.Success? ==> r.value == scan.snapshot && gapped == old(gapped) && broken == old(broken)
      ensures r.Success? ==> Grew(Total(before), Total(Abs()), [event.payload])
      ensures r.Success? ==> accounted == old(accounted) + scan.files.Keys && logicalBytes == projected
      ensures broken && !old(broken) ==>
        CommitExcused(old(store.outages), before, before.(next := before.next + 1, lastOffset := event.offset),
          reason, scan)
    {
      hide Ordered, Accounted, LogValid, StateValid, Grew, Committable, Linked, Appended, Linkable, AppendError;
      hide Admitted, Open, SumSizes, Continues, LastOffset, StoresFirst, Exact, Ended, Uncompleted, Unused;
      hide Total, StoredIn, InRange, CommitExcused;
      var row := CheckpointRow(event.payload.checkpoint, event.sequence, scan.snapshot, event.wallClock, event.offset);
      CountersIgnored(before, Abs(), store.snapshots, accesses);
      CountersIgnored(Abs(), before, store.snapshots, accesses);
      if gapped {
        GapRejectsCommit(runId, store.runs, store.objects, store.snapshots, event);
      } else {
        OrderedLength(runId, before, store.objects);
        CommitStep(runId, before, store.runs, store.objects, store.snapshots, event, reason, row, scan, accesses);
        if !broken {
          CommitAccounts(runId, before, store.runs, store.objects, store.snapshots, event, reason, row, scan);
        }
      }
      var failure := store.CommitCheckpointWithEvent(runId, row, reason, scan.files, event);
      if failure.Some? {
        if !broken {
          CommitExcuse(runId, before, old(store.runs), store.objects, old(store.snapshots), event, reason, row, scan,
            old(store.outages));
        }
        broken, gapped := true, true;
        return Failure(StoreFailed(failure.value));
      }
      accesses := accesses + [Referred(scan.files.Keys)];
      AccountObjects(scan.files, projected);
      checkpointCount := checkpointCount + 1;
      AdmittedFields(before, event, reason, row, scan.files);
      return Success(scan.snapshot);
    }

    /** The first phase: the started event is durable before the workspace is scanned. */
    method StartCheckpoint(id: CheckpointId, reason: Reason) returns (error: Option<CaptureError>)
      requires Valid() && !finished && FreshId(id)
      modifies this`pending, this`broken, this`accesses, sequencer, store`runs, store`outages
      ensures Valid() && (true in store.outages ==> true in old(store.outages)) && (old(broken) ==> broken)
      ensures !broken ==> (error.None? <==> old(sequencer.next) + 1 < U64_LIMIT)
      ensures !gapped && error.None? ==>
          Grew(Total(old(Abs())), Total(Abs()), [CheckpointStarted(id, reason)]) && pending == []
      ensures !gapped && error.None? ==> Open(Total(Abs()), id) && sequencer.next == old(sequencer.next) + 1
      ensures Unused(store.runs, id) && OnlyGrew(runId, old(store.runs), store.runs)
      ensures gapped ==> store.runs == old(store.runs)
      ensures !broken && error.Some? ==> !error.value.StoreFailed?
      ensures error.Some? ==> error.value.StoreFailed? || error.value.SequenceExhausted? || error.value.BadEvent?
      ensures broken && !old(broken) ==> error.Some? && Excused(old(store.outages), pending)
    {
      hide Ordered, Accounted, LogValid, Grew, Tracked, StateValid, OnlyGrew, Emittable, Unused;
      hide StoresFirst, Exact, Ended, Uncompleted;
      if !gapped {
        OrderedLength(runId, Abs(), store.objects);
        StartOpens(runId, Abs(), store.objects, id, reason);
      }
      var started := EmitPlain(CheckpointStarted(id, reason));
      GrowthKeeps(runId, old(store.runs), store.runs, id);
      if started.Failure? {
        return Some(started.error);
      }
      ghost var grown := store.runs;
      error := FlushAll();
      GrowthKeeps(runId, grown, store.runs, id);
      OnlyGrewTwice(runId, old(store.runs), grown, store.runs);
      if !gapped {
        OrderedLength(runId, Abs(), store.objects);
        GrewLength(Total(old(Abs())), Total(Abs()), [CheckpointStarted(id, reason)]);
      }
    }

    /** Stores every file a scan reads, in its order, before anything may refer to it. */
    method ScanObjects(contents: Contents) returns (files: Option<Objects>)
      requires Valid() && !finished
      modifies this`accesses, store`objects, store`outages
      ensures Valid() && (true in store.outages ==> true in old(store.outages))
      ensures files.Some? ==> files.value == Collected(contents) && Consistent(old(store.objects), contents)
      ensures files.Some? ==> forall id :: id in files.value ==>
        id in StoredIn(accesses) && id in store.objects && store.objects[id] == files.value[id]
      ensures files.None? ==> true in old(store.outages) || !Consistent(old(store.objects), contents)
    {
      hide Ordered, Accounted, LogValid, StateValid, StoresFirst, Exact, Ended, Uncompleted, Gapped, Total;
      hide StoredIn, Collected, Consistent;
      NothingCollected(store.objects);
      var collected: Objects := map[];
      assert old(store.objects) + collected == old(store.objects);
      for i := 0 to |contents|
        invariant Valid() && !finished && (true in store.outages ==> true in old(store.outages))
        invariant collected == Collected(contents[..i]) && collected.Keys <= StoredIn(accesses)
        invariant store.objects == old(store.objects) + collected
        invariant Consistent(old(store.objects), contents[..i])
      {
        var (id, size) := contents[i];
        ConsistentNext(old(store.objects), contents, i);
        var failure := PutObject(id, size);
        if failure.Some? {
          return None;
        }
        collected := collected[id := size];
      }
      assert contents[..|contents|] == contents;
      return Some(collected);
    }

    /**
     * One whole attempt; without contents the workspace could not be read. Every attempt that starts
     * ends with exactly one outcome of its own, and only a committed one counts its objects.
     */
    method CheckpointAllocated(id: CheckpointId, reason: Reason, snapshot: Digest, contents: Option<Contents>)
      returns (r: Result<Digest, CaptureError>)
      requires Valid() && !finished && FreshId(id)
      requires contents.Some? && snapshot in store.snapshots ==> store.snapshots[snapshot] == Collected(contents.value)
      modifies this`pending, this`broken, this`gapped, this`accesses, this`accounted, this`logicalBytes
      modifies this`checkpointCount, sequencer, store`runs, store`objects, store`snapshots, store`outages
      ensures Valid() && (true in store.outages ==> true in old(store.outages)) && (old(broken) ==> broken)
      ensures old(gapped) ==> gapped && store.runs == old(store.runs)
      ensures !gapped && r.Success? ==> contents.Some? && r.value == snapshot && pending == []
      ensures !gapped && r.Success? ==>
        Grew(Total(old(Abs())), Total(Abs()), [CheckpointStarted(id, reason), CheckpointCommitted(id, r.value)])
      ensures !broken && r.Success? ==> accounted == old(accounted) + Collected(contents.value).Keys
      ensures !broken && r.Success? ==> var files := Collected(contents.value);
        logicalBytes == old(logicalBytes) + SumSizes(files, files.Keys - old(accounted))
      ensures r.Failure? ==> accounted == old(accounted) && logicalBytes == old(logicalBytes)
      ensures !gapped && r == Failure(ScanFailed) ==>
        Grew(Total(old(Abs())), Total(Abs()), [CheckpointStarted(id, reason), CheckpointFailed(id)])
      ensures !gapped && r == Failure(RunStorageLimit) ==>
        Grew(Total(old(Abs())), Total(Abs()),
             [CheckpointStarted(id, reason), RecorderWarning(STORAGE_LIMIT), CheckpointFailed(id)])
      ensures !broken && old(sequencer.next) + 3 < U64_LIMIT ==>
        if contents.None? || !Consistent(old(store.objects), contents.value) then r == Failure(ScanFailed)
        else
          || (r == Failure(ScanFailed) && true in old(store.outages))
          || if old(Admits(Collected(contents.value))) then r.Success? else r == Failure(RunStorageLimit)
      ensures broken && !old(broken) ==>
          r.Failure? && AttemptExcused(old(store.outages), old(Abs()), Abs(), reason, contents.Some?, snapshot)
    {
      hide Ordered, Accounted, LogValid, Grew, Tracked, StateValid, OnlyGrew, Unused, Open, SumSizes, InRange, Linkable;
      hide StoresFirst, Exact, Ended, Uncompleted, Consistent, Collected, Gapped, Total, StoredIn;
      var failure := StartCheckpoint(id, reason);
      if failure.Some? {
        return Failure(failure.value);
      }
      StartLinks(runId, old(store.runs), store.runs, reason);
      ghost var attempt := Total(Abs());
      r := ScanAndCommit(id, reason, snapshot, contents);
      if !gapped && r.Success? {
        GrewPair(Total(old(Abs())), attempt, Total(Abs()), CheckpointStarted(id, reason),
          CheckpointCommitted(id, r.value));
      } else if !gapped && r == Failure(ScanFailed) {
        GrewPair(Total(old(Abs())), attempt, Total(Abs()), CheckpointStarted(id, reason), CheckpointFailed(id));
      } else if !gapped && r == Failure(RunStorageLimit) {
        GrewTwice(Total(old(Abs())), attempt, Total(Abs()), [CheckpointStarted(id, reason)],
                  [RecorderWarning(STORAGE_LIMIT), CheckpointFailed(id)]);
        assert [CheckpointStarted(id, reason)] + [RecorderWarning(STORAGE_LIMIT), CheckpointFailed(id)]
            == [CheckpointStarted(id, reason), RecorderWarning(STORAGE_LIMIT), CheckpointFailed(id)];
      }
    }

    /** The rest of an attempt that has started: the scan, and its outcome. */
    method ScanAndCommit(id: CheckpointId, reason: Reason, snapshot: Digest, contents: Option<Contents>)
      returns (r: Result<Digest, CaptureError>)
      requires Valid() && !finished
      requires Continuing() ==> pending == [] && Open(Total(Abs()), id) && Unused(store.runs, id)
      requires contents.Some? && snapshot in store.snapshots ==> store.snapshots[snapshot] == Collected(contents.value)
      modifies this`pending, this`broken, this`gapped, this`accesses, this`accounted, this`logicalBytes
      modifies this`checkpointCount, sequencer, store`runs, store`objects, store`snapshots, store`outages
      ensures Valid() && (true in store.outages ==> true in old(store.outages)) && (old(broken) ==> broken)
      ensures old(gapped) ==> gapped && store.runs == old(store.runs)
      ensures !gapped && r.Success? ==> contents.Some? && r.value == snapshot && pending == []
      ensures !gapped && r.Success? ==> Grew(Total(old(Abs())), Total(Abs()), [CheckpointCommitted(id, r.value)])
      ensures !broken && r.Success? ==> accounted == old(accounted) + Collected(contents.value).Keys
      ensures !broken && r.Success? ==> var files := Collected(contents.value);
        logicalBytes == old(logicalBytes) + SumSizes(files, files.Keys - old(accounted))
      ensures r.Failure? ==> accounted == old(accounted) && logicalBytes == old(logicalBytes)
      ensures !gapped && r == Failure(ScanFailed) ==> Grew(Total(old(Abs())), Total(Abs()), [CheckpointFailed(id)])
      ensures !gapped && r == Failure(RunStorageLimit) ==>
        Grew(Total(old(Abs())), Total(Abs()), [RecorderWarning(STORAGE_LIMIT), CheckpointFailed(id)])
      ensures !broken && old(sequencer.next) + 2 < U64_LIMIT ==>
        if contents.None? || !Consistent(old(store.objects), contents.value) then r == Failure(ScanFailed)
        else
          || (r == Failure(ScanFailed) && true in old(store.outages))
          || if old(Admits(Collected(contents.value))) then r.Success? else r == Failure(RunStorageLimit)
      ensures broken && !old(broken) ==>
          r.Failure? && AttemptExcused(old(store.outages), old(Abs()), Abs(), reason, contents.Some?, snapshot)
    {
      hide Ordered, Accounted, LogValid, Grew, Tracked, StateValid, OnlyGrew, Unused, Open, SumSizes, InRange, Linkable;
      hide StoresFirst, Exact, Ended, Uncompleted, Consistent, Collected, Gapped, Total;
      var files: Option<Objects> := None;
      if contents.Some? {
        files := ScanObjects(contents.value);
      }
      if files.None? {
        r := FailAttempt(id, ScanFailed);
        return;
      }
      r := CommitScanned(id, reason, Scan(snapshot, files.value));
    }

    /** Installs and records an object for this session; nothing about the run changes. */
    method PutObject(id: Digest, size: nat) returns (error: Option<CaptureError>)
      requires Valid() && !finished
      modifies this`accesses, store`objects, store`outages
      ensures Valid() && (true in store.outages ==> true in old(store.outages))
      ensures error.None? ==> id in old(store.objects) ==> old(store.objects)[id] == size
      ensures error.Some? ==> error.value.StoreFailed?
      ensures error.Some? ==> true in old(store.outages) || (id in old(store.objects) && old(store.objects)[id] != size)
      ensures store.objects == if error.None? then old(store.objects)[id := size] else old(store.objects)
      ensures accesses == old(accesses) + if error.None? then [Stored(id)] else []
      ensures StoredIn(accesses) == StoredIn(old(accesses)) + if error.None? then {id} else {}
    {
      hide LogValid, Ordered, Accounted, StoredIn, Exact, Ended, Uncompleted, Gapped, StoredFirst, ReferredIn;
      AccessLast(accesses, Stored(id));
      var failure := store.RecordObject(id, size);
      if failure.Some? {
        assert accesses + [] == accesses;
        return Some(StoreFailed(failure.value));
      }
      accesses := accesses + [Stored(id)];
      if !gapped { MoreObjectsOrdered(runId, Abs(), old(store.objects), store.objects); }
      if !broken { MoreObjectsFit(Abs(), old(store.objects), store.objects, store.snapshots); }
      return None;
    }

    /** Leaves the preparing state once the initial checkpoint is durable. */
    method MarkRunning(initial: Digest) returns (error: Option<CaptureError>)
      requires Valid() && !finished
      modifies this`broken, store`runs, store`outages
      ensures Valid() && (true in store.outages ==> true in old(store.outages)) && (old(broken) ==> broken)
      ensures error.None? ==> Total(Abs()) == Total(old(Abs())) && Abs().log.status == Running
      ensures error.Some? ==> broken && store.runs == old(store.runs)
      ensures broken && !old(broken) ==>
        error.Some? && (true in old(store.outages) || !old(Abs()).log.status.Preparing? || initial !in store.snapshots)
    {
      hide LogValid, Tracked, Checkpoints, FrameObjects, CheckpointObjects, SumSizes, Timeline;
      var failure := store.MarkRunRunning(runId, initial);
      if failure.Some? {
        broken := true;
        return Some(StoreFailed(failure.value));
      }
      return None;
    }

    /**
     * Ends the run: the pending batch, the completion event and the run row in one transaction. The
     * completion is the last event. It is the only one of its kind exactly when no earlier attempt to
     * finish has failed, because such an attempt leaves its own completion pending.
     */
    method Finish(status: RunStatus, exitStatus: Option<int>, finalSnapshot: Option<Digest>)
      returns (error: Option<CaptureError>)
      requires Valid() && !finished
      modifies this`pending, this`broken, this`closing, this`finished, this`accesses, sequencer
      modifies store`runs, store`outages
      ensures Valid() && (true in store.outages ==> true in old(store.outages)) && (old(broken) ==> broken)
      ensures finished <==> error.None?
      ensures gapped ==> error.Some? && store.runs == old(store.runs)
      ensures !broken ==> (finished <==> !status.IsActive() && old(sequencer.next) + 1 < U64_LIMIT)
      ensures error.Some? ==> store.runs == old(store.runs)
      ensures closing <==> old(closing) || (error.Some? && error.value.StoreFailed?)
      ensures error.Some? && !error.value.StoreFailed? ==> Abs() == old(Abs())
      ensures finished ==>
        var log := store.runs[runId];
        && pending == [] && log.status == status && !status.IsActive()
        && log.exitStatus == exitStatus && log.finalSnapshot == finalSnapshot && log.finishedAt.Some?
        && log.duration.Some?
        && Grew(Total(old(Abs())), log.events, [RunCompleted(status, exitStatus)])
        && (CompletedOnce(runId, log) <==> !old(closing))
        && (sequencer.steady ==> log.duration.value >= LastOffset(log.events))
      ensures broken && !old(broken) ==>
        && error.Some?
        && (|| Excused(old(store.outages), pending) || sequencer.lastReading >= SQL_LIMIT
            || !old(Abs()).log.status.CanTransitionTo(status)
            || (finalSnapshot.Some? && finalSnapshot.value !in store.snapshots))
    {
      hide Accounted, LogValid, StateValid, Grew, AppendError, Appended, Linkable, Tracked, Checkpoints, InRange;
      hide Timeline, Ordered, CompletedOnce, LastOffset, Total, StoresFirst, Exact, Ended, Uncompleted, Emittable;
      if !gapped { OrderedTracks(runId, Abs(), store.objects, RunCompleted(status, exitStatus)); }
      var queued := QueueEvent(RunCompleted(status, exitStatus));
      if queued.Failure? {
        return Some(queued.error);
      }
      var wall, duration := sequencer.Now();
      error := CommitFinish(RunFinish(status, wall, duration, finalSnapshot, exitStatus), old(Abs()));
    }

    /** The transaction that ends the run, with the completion already queued behind `before`. */
    method CommitFinish(finish: RunFinish, ghost before: Session) returns (error: Option<CaptureError>)
      requires Wired() && !finished && (gapped ==> Gapped(runId, Abs())) && !finish.status.IsActive()
      requires pending != [] && pending[..|pending| - 1] == before.pending && before.log == store.runs[runId]
      requires var completion := pending[|pending| - 1];
        && completion.runId == runId && completion.sequence == before.next && completion.offset >= before.lastOffset
        && completion.payload == RunCompleted(finish.status, finish.exitStatus)
      requires StoresFirst(before, store.snapshots, accesses)
      requires Continuing() ==> Ordered(runId, before, store.objects) && Ordered(runId, Abs(), store.objects)
      requires Continuing() ==> (closing <==> !Uncompleted(Total(before))) && !Uncompleted(Total(Abs()))
      modifies this`pending, this`broken, this`closing, this`finished, this`accesses, store`runs, store`outages
      ensures Valid() && (true in store.outages ==> true in old(store.outages)) && (old(broken) ==> broken)
      ensures finished <==> error.None?
      ensures gapped ==> error.Some?
      ensures error.Some? ==> error.value.StoreFailed? && broken && closing && store.runs == old(store.runs)
      ensures error.Some? ==> pending == old(pending)
      ensures error.None? ==> broken == old(broken)
      ensures finished ==>
        var log := store.runs[runId];
        && pending == [] && closing == old(closing) && log.status == finish.status
        && log.exitStatus == finish.exitStatus && log.finalSnapshot == finish.finalSnapshot
        && log.finishedAt.Some? && log.duration == Some(finish.duration)
        && Grew(Total(before), log.events, [RunCompleted(finish.status, finish.exitStatus)])
        && (CompletedOnce(runId, log) <==> !old(closing))
        && LastOffset(log.events) == old(pending)[|old(pending)| - 1].offset
      ensures error.Some? && !old(broken) ==>
        || Excused(old(store.outages), pending) || finish.duration >= SQL_LIMIT
        || !before.log.status.CanTransitionTo(finish.status)
        || (finish.finalSnapshot.Some? && finish.finalSnapshot.value !in store.snapshots)
    {
      hide Accounted, LogValid, StateValid, Grew, AppendError, Appended, Linkable, Tracked, Checkpoints, InRange;
      hide Timeline, Referenced, Ordered, CompletedOnce, LastOffset, Total, StoresFirst, Exact, Ended, Uncompleted;
      hide Gapped, FrameObjects, StoredIn;
      ghost var completion := pending[|pending| - 1];
      assert pending == before.pending + [completion];
      if gapped {
        GapRejectsPending(runId, Abs(), store.runs, store.objects, store.snapshots);
      } else {
        CompletionAccepted(runId, before, store.runs, store.objects, store.snapshots, completion);
      }
      var failure := store.FinishRunWithEvents(runId, finish, pending);
      if failure.Some? {
        broken, closing := true, true;
        return Some(StoreFailed(failure.value));
      }
      ghost var batch := pending;
      accesses := accesses + [Referred(FrameObjects(pending))];
      pending := [];
      finished := true;
      CompletedFields(runId, before, store.objects, completion, finish);
      CompletedAccesses(before, Abs(), batch, completion, finish, store.snapshots, old(accesses));
      return None;
    }
  }

  /** No stored checkpoint has this identity. */
  ghost predicate Unused(runs: Runs, id: CheckpointId) {
    forall run :: run in runs ==> forall i :: 0 <= i < |runs[run].checkpoints| ==> runs[run].checkpoints[i].id != id
  }

  /** Nothing but the timeline of one run, with its index rows, has changed. */
  ghost predicate OnlyGrew(runId: RunId, before: Runs, after: Runs) {
    && runId in before && after.Keys == before.Keys
    && (forall id :: id in before && id != runId ==> after[id] == before[id])
    && after[runId] == before[runId].(events := after[runId].events, chunks := after[runId].chunks,
                                      warnings := after[runId].warnings)
  }

  lemma {:induction false} OnlyGrewNot(runId: RunId, runs: Runs)
    requires runId in runs
    ensures OnlyGrew(runId, runs, runs)
  {
  }

  lemma {:induction false} OnlyGrewAppended(runId: RunId, runs: Runs, events: seq<Event>)
    requires runId in runs
    ensures OnlyGrew(runId, runs, runs) && OnlyGrew(runId, runs, runs[runId := Appended(runs[runId], events)])
  {
  }

  lemma {:induction false} OnlyGrewTwice(runId: RunId, a: Runs, b: Runs, c: Runs)
    requires OnlyGrew(runId, a, b) && OnlyGrew(runId, b, c)
    ensures OnlyGrew(runId, a, c)
  {
  }

  /** Growth of a timeline uses up no checkpoint identity and changes no link. */
  lemma {:induction false} GrowthKeeps(runId: RunId, before: Runs, after: Runs, id: CheckpointId)
    requires OnlyGrew(runId, before, after) && Unused(before, id)
    ensures Unused(after, id)
    ensures forall reason, snapshot ::
        Linkable(after[runId], reason, snapshot) == Linkable(before[runId], reason, snapshot)
  {
  }

  lemma {:induction false} GrowthKeepsRows(runId: RunId, before: Runs, after: Runs)
    requires OnlyGrew(runId, before, after)
    ensures after[runId].checkpoints == before[runId].checkpoints
  {
  }

  lemma {:induction false} SettledStarted(events: seq<Event>)
    requires Tracked(events).Some?
    ensures Tracked(events).value.settled <= Tracked(events).value.started
  {
    if events != [] { SettledStarted(events[..|events| - 1]); }
  }

  /** Starting an unused attempt is always possible and opens it. */
  lemma {:induction false} StartOpens(runId: RunId, s: Session, objects: Objects, id: CheckpointId, reason: Reason)
    requires Ordered(runId, s, objects) && id !in Tracked(Total(s)).value.started
    ensures Emittable(Total(s), objects, CheckpointStarted(id, reason))
    ensures forall after :: Grew(Total(s), after, [CheckpointStarted(id, reason)]) ==> Open(after, id)
  {
    hide Grew, Tracked;
    SettledStarted(Total(s));
    forall after | Grew(Total(s), after, [CheckpointStarted(id, reason)]) ensures Open(after, id) {
      GrewTracked(Total(s), after, CheckpointStarted(id, reason));
    }
  }

  /** An attempt that has started and has no outcome yet. */
  ghost predicate Open(total: seq<Event>, id: CheckpointId) {
    Tracked(total).Some? && id in Tracked(total).value.started && id !in Tracked(total).value.settled
  }

  /** The excuses of a failing commit: an outage, a number that does not fit, or a run already linked elsewhere. */
  ghost predicate CommitExcused(outages: seq<bool>, before: Session, after: Session, reason: Reason, scan: Scan) {
    || Excused(outages, after.pending)
    || after.next > SQL_LIMIT || after.lastOffset >= SQL_LIMIT
    || !Linkable(before.log, reason, scan.snapshot)
  }

  lemma {:induction false} CommitExcuse(
    runId: RunId, s: Session, runs: Runs, objects: Objects, snapshots: Snapshots, event: Event, reason: Reason,
    row: CheckpointRow, scan: Scan, outages: seq<bool>)
    requires event.sequence < SQL_LIMIT && event.offset < SQL_LIMIT && Linkable(s.log, reason, scan.snapshot) ==>
      Committable(runs, objects, snapshots, runId, row, reason, scan.files, event)
    requires event.sequence == s.next
    requires true in outages || !Committable(runs, objects, snapshots, runId, row, reason, scan.files, event)
    ensures CommitExcused(outages, s, s.(next := s.next + 1, lastOffset := event.offset), reason, scan)
  {
  }

  lemma {:induction false} OrderedLength(runId: RunId, s: Session, objects: Objects)
    requires Ordered(runId, s, objects)
    ensures s.next == |Total(s)| + 1 && s.lastOffset == LastOffset(Total(s)) && Tracked(Total(s)).Some?
    ensures |Total(s)| == |s.log.events| + |s.pending|
  {
  }

  lemma {:induction false} GrewLength(before: seq<Event>, after: seq<Event>, payloads: seq<Payload>)
    requires Grew(before, after, payloads)
    ensures |after| == |before| + |payloads|
  {
  }

  lemma {:induction false} GrewOne(before: seq<Event>, after: seq<Event>, event: Event)
    requires after == before + [event]
    ensures Grew(before, after, [event.payload])
  {
  }

  lemma {:induction false} GrewTwice(a: seq<Event>, b: seq<Event>, c: seq<Event>, first: seq<Payload>,
      second: seq<Payload>)
    requires Grew(a, b, first) && Grew(b, c, second)
    ensures Grew(a, c, first + second)
  {
    assert c[..|a|] == c[..|b|][..|a|];
    forall i | 0 <= i < |first + second| ensures c[|a| + i].payload == (first + second)[i] {
      if i < |first| {
        assert c[|a| + i] == c[..|b|][|a| + i] == b[|a| + i];
      } else {
        assert c[|b| + (i - |first|)].payload == second[i - |first|];
      }
    }
  }

  lemma {:induction false} GrewTracked(before: seq<Event>, after: seq<Event>, payload: Payload)
    requires Grew(before, after, [payload])
    ensures Tracked(after) == if Tracked(before).None? then None else Track(Tracked(before).value, payload)
  {
    assert [payload][0] == payload;
    assert after == before + [after[|before|]];
    TrackLast(before, after[|before|]);
  }

  lemma {:induction false} StillOpen(before: seq<Event>, after: seq<Event>, id: CheckpointId, payload: Payload)
    requires Open(before, id) && Grew(before, after, [payload]) && payload.RecorderWarning?
    ensures Open(after, id)
  {
    GrewTracked(before, after, payload);
  }

  /** An attempt may also fail at its start, before there is anything to link. */
  ghost predicate AttemptExcused(
    outages: seq<bool>, before: Session, after: Session, reason: Reason, scanned: bool, snapshot: Digest)
  {
    || Excused(outages, after.pending)
    || after.next > SQL_LIMIT || after.lastOffset >= SQL_LIMIT
    || (scanned && !Linkable(before.log, reason, snapshot))
  }

  lemma {:induction false} StartLinks(runId: RunId, before: Runs, after: Runs, reason: Reason)
    requires OnlyGrew(runId, before, after)
    ensures forall snapshot :: Linkable(after[runId], reason, snapshot) == Linkable(before[runId], reason, snapshot)
  {
  }

  lemma {:induction false} GrewPair(a: seq<Event>, b: seq<Event>, c: seq<Event>, first: Payload, second: Payload)
    requires Grew(a, b, [first]) && Grew(b, c, [second])
    ensures Grew(a, c, [first, second])
  {
    GrewTwice(a, b, c, [first], [second]);
    assert [first] + [second] == [first, second];
  }

  /** One completion, at the very end, after a timeline without any. */
  ghost predicate CompletedOnce(runId: RunId, log: RunLog) {
    && Timeline(runId, log.events) && log.events != []
    && log.events[|log.events| - 1].payload == RunCompleted(log.status, log.exitStatus)
    && (forall i :: 0 <= i < |log.events| - 1 ==> !log.events[i].payload.RunCompleted?)
    && log.checkpoints == Checkpoints(log.events)
  }

  lemma {:induction false} CompletionAccepted(
    runId: RunId, s: Session, runs: Runs, objects: Objects, snapshots: Snapshots, completion: Event)
    requires StateValid(runs, objects, snapshots) && runId in runs && runs[runId] == s.log
    requires Ordered(runId, s, objects)
    requires completion.runId == runId && completion.sequence == s.next && completion.offset >= s.lastOffset
    requires completion.payload.RunCompleted? && ValidPayload(completion.payload)
    ensures (s.pending + [completion])[0].runId == runId
    ensures InRange(s.pending + [completion]) ==> AppendError(runs, objects, s.pending + [completion]).None?
  {
    hide Ordered, StateValid, AppendError, InRange, ValidPayload, Total;
    OrderedTracks(runId, s, objects, completion.payload);
    QueueKeepsOrder(runId, s, objects, completion);
    FlushAccepted(runId, Queued(s, completion), runs, objects, snapshots);
  }

  /** The completed timeline, and when its completion is the only one. */
  lemma {:induction false} CompletedFields(runId: RunId, s: Session, objects: Objects, completion: Event,
      finish: RunFinish)
    requires Ordered(runId, s, objects) && !finish.status.IsActive()
    requires completion.runId == runId && completion.sequence == s.next && completion.offset >= s.lastOffset
    requires completion.payload == RunCompleted(finish.status, finish.exitStatus)
    ensures var log := Finished(Appended(s.log, s.pending + [completion]), finish);
      && (CompletedOnce(runId, log) <==> Uncompleted(Total(s))) && (Uncompleted(Total(s)) ==> Ended(log))
      && LastOffset(log.events) == completion.offset && Exact(log)
      && Grew(Total(s), log.events, [completion.payload])
  {
    hide OffsetsRise, Tracked, Checkpoints, Chunks, Warnings;
    var log := Finished(Appended(s.log, s.pending + [completion]), finish);
    TimelineExtends(runId, Total(s), completion);
    TrackLast(Total(s), completion);
    NoCheckpointRows(s.pending + [completion]);
    ProjectConcat(s.log.events, s.pending + [completion]);
    assert Checkpoints(s.log.events) + [] == Checkpoints(s.log.events);
    assert log.events == Total(s) + [completion];
    assert log.events[..|log.events| - 1] == Total(s);
    GrewOne(Total(s), log.events, completion);
  }

  lemma {:induction false} CompletedAccesses(
    s: Session, after: Session, batch: seq<Event>, completion: Event, finish: RunFinish, snapshots: Snapshots,
    accesses: seq<Access>)
    requires StoresFirst(s, snapshots, accesses) && batch == s.pending + [completion]
    requires Reference(completion.payload).None?
    requires after.log == Finished(Appended(s.log, batch), finish) && after.pending == []
    ensures StoresFirst(after, snapshots, accesses + [Referred(FrameObjects(batch))])
  {
    hide StoredFirst, StoredIn, ReferredIn, CheckpointObjects, Chunks, Warnings;
    AccessLast(accesses, Referred(FrameObjects(batch)));
    FrameObjectsLast(s.pending, completion);
    FrameObjectsConcat(s.log.events, batch);
  }

  lemma {:induction false} MoreObjectsOrdered(runId: RunId, s: Session, before: Objects, after: Objects)
    requires Ordered(runId, s, before)
    requires forall id :: id in before ==> id in after && after[id] == before[id]
    ensures Ordered(runId, s, after)
  {
    hide Timeline, Tracked, Checkpoints;
  }

  lemma {:induction false} MoreObjectsFit(s: Session, before: Objects, after: Objects, snapshots: Snapshots)
    requires Accounted(s, before, snapshots)
    requires forall id :: id in before ==> id in after && after[id] == before[id]
    ensures Accounted(s, after, snapshots)
  {
    hide FrameObjects, CheckpointObjects, SumSizes;
    SumAgrees(before, after, s.accounted);
  }

  /** Only what is durable or pending refers to anything. */
  lemma {:induction false} CountersIgnored(a: Session, b: Session, snapshots: Snapshots, accesses: seq<Access>)
    requires b.log == a.log && b.pending == a.pending
    ensures StoresFirst(a, snapshots, accesses) ==> StoresFirst(b, snapshots, accesses)
    ensures forall runId :: Gapped(runId, a) && b.next >= a.next ==> Gapped(runId, b)
    ensures Total(a) == Total(b)
  {
  }

  /**
   * A crash, at any moment and after any failures, loses what was pending and nothing else: recovery keeps
   * the durable timeline with its checkpoints and brackets, and ends the run at its last durable event.
   */
  lemma {:induction false} RecoveredAfterCrash(
    runId: RunId, log: RunLog, objects: Objects, snapshots: Snapshots, at: int)
    requires DurableLog(runId, log, objects, snapshots) && log.status.IsActive()
    ensures var after := Recovered(log, at);
      && DurableLog(runId, after, objects, snapshots) && after.status.Interrupted?
      && after.events == log.events && after.checkpoints == Checkpoints(log.events)
      && after.duration == Some(LastOffset(log.events))
      && (Ended(log) ==> Ended(after) && Uncompleted(after.events))
  {
    hide Checkpoints, Tracked, ValidPayload;
    RecoveryKeepsLog(runId, log, objects, snapshots, at);
  }

  /** The store turns away every batch that begins beyond the next number of its run. */
  lemma {:induction false} GapRejected(runs: Runs, objects: Objects, snapshots: Snapshots, batch: seq<Event>)
    requires StateValid(runs, objects, snapshots) && batch != []
    requires batch[0].runId in runs && batch[0].sequence > |runs[batch[0].runId].events| + 1
    ensures AppendError(runs, objects, batch).Some?
  {
    forall id | id in runs ensures Timeline(id, runs[id].events) {
      assert LogValid(id, runs[id], objects, snapshots);
    }
    AppendExact(runs, objects, batch);
    var events := runs[batch[0].runId].events;
    assert (events + batch)[|events|] == batch[0];
  }

  lemma {:induction false} GapRejectsPending(
    runId: RunId, s: Session, runs: Runs, objects: Objects, snapshots: Snapshots)
    requires StateValid(runs, objects, snapshots) && runId in runs && runs[runId] == s.log
    requires Gapped(runId, s) && s.pending != []
    ensures AppendError(runs, objects, s.pending).Some?
  {
    GapRejected(runs, objects, snapshots, s.pending);
  }

  lemma {:induction false} GapRejectsCommit(
    runId: RunId, runs: Runs, objects: Objects, snapshots: Snapshots, event: Event)
    requires runId in runs && event.sequence > |runs[runId].events| + 1
    ensures !Continues(runId, runs[runId], objects, [event])
  {
    var events := runs[runId].events;
    assert (events + [event])[|events|] == event;
  }

  /** The batch a session may come to offer: what is pending, and then events numbered on from there. */
  ghost predicate Offered(runId: RunId, s: Session, batch: seq<Event>) {
    && batch != [] && s.pending <= batch && OfRun(runId, batch)
    && forall i :: |s.pending| <= i < |batch| ==> batch[i].sequence == s.next + (i - |s.pending|)
  }

  /**
   * After a commit that failed, the consumed sequence number leaves a gap that nothing closes: whatever the
   * session goes on to queue, every batch and every commit it can still offer is turned away, so the
   * durable part of the run stays as it was until the run is recovered.
   */
  lemma {:induction false} GapStaysClosed(
    runId: RunId, s: Session, runs: Runs, objects: Objects, snapshots: Snapshots, batch: seq<Event>)
    requires StateValid(runs, objects, snapshots) && runId in runs && runs[runId] == s.log
    requires Gapped(runId, s) && Offered(runId, s, batch)
    ensures AppendError(runs, objects, batch).Some?
    ensures forall event: Event :: event.sequence >= s.next ==> !Continues(runId, s.log, objects, [event])
  {
    assert batch[0] == if s.pending == [] then batch[0] else s.pending[0];
    GapRejected(runs, objects, snapshots, batch);
    forall event: Event | event.sequence >= s.next ensures !Continues(runId, s.log, objects, [event]) {
      GapRejectsCommit(runId, runs, objects, snapshots, event);
    }
  }

  /** Queueing keeps the gap, and what is queued is part of what the session offers. */
  lemma {:induction false} QueueKeepsGap(runId: RunId, s: Session, event: Event)
    requires Gapped(runId, s) && event.runId == runId && event.sequence == s.next
    ensures Gapped(runId, Queued(s, event))
    ensures forall batch :: Offered(runId, Queued(s, event), batch) ==> Offered(runId, s, batch)
  {
    var after := Queued(s, event);
    forall batch | Offered(runId, after, batch) ensures Offered(runId, s, batch) {
      assert batch[..|after.pending|] == after.pending && batch[|s.pending|] == event;
      assert s.pending == after.pending[..|s.pending|] == batch[..|s.pending|];
    }
  }

  /**
   * A finish that failed leaves its completion pending, and a recorder that goes on makes it durable in the
   * middle of a run that is still active: the next event and then the next flush are accepted.
   */
  lemma {:induction false} FailedFinishLeavesCompletion(
    runId: RunId, s: Session, runs: Runs, objects: Objects, snapshots: Snapshots, completion: Event, next: Event)
    requires StateValid(runs, objects, snapshots) && runId in runs && runs[runId] == s.log
    requires Ordered(runId, s, objects) && Uncompleted(Total(s))
    requires completion.payload.RunCompleted? && ValidPayload(completion.payload)
    requires completion.runId == runId && completion.sequence == s.next && completion.offset >= s.lastOffset
    requires next.payload.RecorderWarning? && next.runId == runId
    requires next.sequence == s.next + 1 && next.offset >= completion.offset
    requires InRange(s.pending + [completion] + [next])
    ensures var queued := Queued(Queued(s, completion), next);
      && AppendError(runs, objects, queued.pending).None?
      && Flushed(queued).log.status.IsActive() && !Ended(Flushed(queued).log)
      && Flushed(queued).log.events == Total(s) + [completion, next]
  {
    hide ValidPayload, Tracked, Checkpoints, AppendError, TotalValid, Chunks, Warnings, InRange;
    var first := Queued(s, completion);
    var queued := Queued(first, next);
    OrderedTracks(runId, s, objects, completion.payload);
    QueueKeepsOrder(runId, s, objects, completion);
    OrderedTracks(runId, first, objects, next.payload);
    assert ValidPayload(next.payload) by { ValidWarning(next.payload); }
    QueueKeepsOrder(runId, first, objects, next);
    assert queued.pending == s.pending + [completion] + [next];
    FlushAccepted(runId, queued, runs, objects, snapshots);
    FlushKeepsOrder(runId, queued, objects);
    var events := Flushed(queued).log.events;
    assert events == Total(s) + [completion, next];
    assert events[|Total(s)|] == completion;
  }

  lemma {:induction false} ValidWarning(payload: Payload)
    requires payload.RecorderWarning?
    ensures ValidPayload(payload)
  {
  }

  lemma {:induction false} SumUnion(sizes: Objects, ids: set<Digest>, more: set<Digest>)
    requires ids <= sizes.Keys && more <= sizes.Keys
    ensures SumSizes(sizes, ids + more) == SumSizes(sizes, ids) + SumSizes(sizes, more - ids)
    decreases |more|
  {
    hide SumSizes;
    if more == {} {
      SumNothing(sizes);
      assert ids + more == ids && more - ids == {};
    } else {
      var id :| id in more;
      SumUnion(sizes, ids, more - {id});
      SumInsert(sizes, ids + (more - {id}), id);
      SumInsert(sizes, (more - {id}) - ids, id);
      assert ids + (more - {id}) + {id} == ids + more;
      if id in ids {
        assert (more - {id}) - ids == more - ids;
      } else {
        assert (more - {id}) - ids + {id} == more - ids;
      }
    }
  }

  lemma {:induction false} CheckpointSequences(events: seq<Event>, i: nat)
    requires Numbered(events) && i < |Checkpoints(events)|
    ensures Checkpoints(events)[i].sequence <= |events|
  {
    if events != [] && i < |Checkpoints(events[..|events| - 1])| { CheckpointSequences(events[..|events| - 1], i); }
  }

  /** Apart from the range of SQL integers and the run's links, a commit is always acceptable. */
  lemma {:induction false} CommitReady(
    runId: RunId, s: Session, runs: Runs, objects: Objects, snapshots: Snapshots,
    event: Event, reason: Reason, row: CheckpointRow, scan: Scan)
    requires StateValid(runs, objects, snapshots) && runId in runs && runs[runId] == s.log
    requires Ordered(runId, s, objects) && s.pending == []
    requires CheckpointOf(event) == [row] && row.snapshot == scan.snapshot && event.runId == runId
    requires event.sequence == s.next && event.offset >= s.lastOffset && Open(Total(s), row.id)
    requires forall id :: id in scan.files ==> id in objects
    requires row.snapshot in snapshots ==> snapshots[row.snapshot] == scan.files
    requires Unused(runs, row.id)
    ensures Emittable(Total(s), objects, event.payload)
    ensures event.sequence < SQL_LIMIT && event.offset < SQL_LIMIT && Linkable(s.log, reason, row.snapshot) ==>
      Committable(runs, objects, snapshots, runId, row, reason, scan.files, event)
  {
    hide Linkable, Chunks, Warnings, IndexesExact, Resolved, Tracked, OffsetsRise, AppendError, ValidPayload;
    assert s.log.events + [] == s.log.events;
    forall id | id in runs ensures Timeline(id, runs[id].events) { assert LogValid(id, runs[id], objects, snapshots); }
    forall i | 0 <= i < |s.log.checkpoints| ensures s.log.checkpoints[i].sequence != row.sequence {
      CheckpointSequences(s.log.events, i);
    }
    TimelineExtends(runId, s.log.events, event);
    ValidCommit(event);
    FlushError(runId, s.log, runs, objects, [event]);
  }

  /** The session after a commit, with the scanned objects accounted for. */
  ghost function Admitted(s: Session, event: Event, reason: Reason, row: CheckpointRow, files: Objects): Session
  {
    Committed(s, event, reason, row).(accounted := s.accounted + files.Keys,
                                      bytes := s.bytes + SumSizes(files, files.Keys - s.accounted))
  }

  lemma {:induction false} AdmittedFields(s: Session, event: Event, reason: Reason, row: CheckpointRow, files: Objects)
    ensures Admitted(s, event, reason, row, files) == Session(
      Linked(Appended(s.log, [event]), reason, row), s.pending, s.next + 1, event.offset,
      s.accounted + files.Keys, s.bytes + SumSizes(files, files.Keys - s.accounted), s.checkpoints + 1)
  {
  }

  lemma {:induction false} CommitStep(
    runId: RunId, s: Session, runs: Runs, objects: Objects, snapshots: Snapshots,
    event: Event, reason: Reason, row: CheckpointRow, scan: Scan, accesses: seq<Access>)
    requires StateValid(runs, objects, snapshots) && runId in runs && runs[runId] == s.log
    requires Ordered(runId, s, objects) && s.pending == [] && StoresFirst(s, snapshots, accesses)
    requires CheckpointOf(event) == [row] && row.snapshot == scan.snapshot && event.runId == runId
    requires event.sequence == s.next && event.offset >= s.lastOffset && Open(Total(s), row.id)
    requires forall id :: id in scan.files ==>
      id in StoredIn(accesses) && id in objects && objects[id] == scan.files[id]
    requires row.snapshot in snapshots ==> snapshots[row.snapshot] == scan.files
    requires Unused(runs, row.id)
    ensures event.sequence < SQL_LIMIT && event.offset < SQL_LIMIT && Linkable(s.log, reason, row.snapshot) ==>
      Committable(runs, objects, snapshots, runId, row, reason, scan.files, event)
    ensures var after := Admitted(s, event, reason, row, scan.files);
      && Ordered(runId, after, objects) && Exact(after.log)
      && (Uncompleted(Total(after)) <==> Uncompleted(Total(s))) && (Uncompleted(Total(s)) ==> Ended(after.log))
      && Grew(Total(s), Total(after), [event.payload])
      && StoresFirst(after, snapshots[row.snapshot := scan.files], accesses + [Referred(scan.files.Keys)])
  {
    hide Ordered, StateValid, Committable, Linkable, Committed, Grew, Open, StoresFirst, Exact, Ended, Uncompleted;
    var after := Admitted(s, event, reason, row, scan.files);
    CommitReady(runId, s, runs, objects, snapshots, event, reason, row, scan);
    CommitKeepsOrder(runId, s, objects, event, reason, row);
    OrderIgnoresQuota(runId, Committed(s, event, reason, row), after, objects);
    GrewOne(Total(s), Total(after), event);
    UncompletedLast(Total(s), event);
    AdmittedFields(s, event, reason, row, scan.files);
    CommittedLog(runId, after, objects);
    CommitKeepsAccesses(runId, s, runs, objects, snapshots, event, reason, row, scan.files, accesses);
    CountersIgnored(Committed(s, event, reason, row), after, snapshots[row.snapshot := scan.files],
      accesses + [Referred(scan.files.Keys)]);
  }

  /** With nothing pending, what is durable is the whole timeline. */
  lemma {:induction false} CommittedLog(runId: RunId, s: Session, objects: Objects)
    requires Ordered(runId, s, objects) && s.pending == []
    ensures Exact(s.log) && (Uncompleted(Total(s)) ==> Ended(s.log))
  {
    hide Timeline, Checkpoints, Tracked;
    assert Total(s) == s.log.events;
  }

  lemma {:induction false} CommitKeepsAccesses(
    runId: RunId, s: Session, runs: Runs, objects: Objects, snapshots: Snapshots,
    event: Event, reason: Reason, row: CheckpointRow, files: Objects, accesses: seq<Access>)
    requires StateValid(runs, objects, snapshots) && runId in runs && runs[runId] == s.log
    requires StoresFirst(s, snapshots, accesses) && s.pending == [] && CheckpointOf(event) == [row]
    requires files.Keys <= StoredIn(accesses)
    requires row.snapshot in snapshots ==> snapshots[row.snapshot] == files
    ensures StoresFirst(
      Committed(s, event, reason, row), snapshots[row.snapshot := files], accesses + [Referred(files.Keys)])
  {
    hide FrameObjects, CheckpointObjects, IndexesExact, Resolved, Timeline, Chunks, Warnings;
    hide StoredFirst, StoredIn, ReferredIn;
    assert LogValid(runId, s.log, objects, snapshots);
    FrameObjectsLast(s.log.events, event);
    CheckpointObjectsLast(s.log.checkpoints, row, snapshots, files);
    AccessLast(accesses, Referred(files.Keys));
  }

  lemma {:induction false} CommitAccounts(
    runId: RunId, s: Session, runs: Runs, objects: Objects, snapshots: Snapshots,
    event: Event, reason: Reason, row: CheckpointRow, scan: Scan)
    requires StateValid(runs, objects, snapshots) && runId in runs && runs[runId] == s.log
    requires Accounted(s, objects, snapshots) && s.pending == []
    requires CheckpointOf(event) == [row] && row.snapshot == scan.snapshot
    requires forall id :: id in scan.files ==> id in objects && objects[id] == scan.files[id]
    requires row.snapshot in snapshots ==> snapshots[row.snapshot] == scan.files
    ensures Accounted(Admitted(s, event, reason, row, scan.files), objects, snapshots[row.snapshot := scan.files])
  {
    hide Accounted, StateValid, Committed, CheckpointOf;
    CommitKeepsAccounts(runId, s, runs, objects, snapshots, event, reason, row, scan.files);
  }

  lemma {:induction false} ValidCommit(event: Event)
    requires event.payload.CheckpointCommitted?
    ensures ValidPayload(event.payload)
  {
  }

  lemma {:induction false} CommitKeepsAccounts(
    runId: RunId, s: Session, runs: Runs, objects: Objects, snapshots: Snapshots,
    event: Event, reason: Reason, row: CheckpointRow, files: Objects)
    requires StateValid(runs, objects, snapshots) && runId in runs && runs[runId] == s.log
    requires Accounted(s, objects, snapshots) && s.pending == [] && CheckpointOf(event) == [row]
    requires forall id :: id in files ==> id in objects && objects[id] == files[id]
    requires row.snapshot in snapshots ==> snapshots[row.snapshot] == files
    ensures Accounted(
      Committed(s, event, reason, row).(accounted := s.accounted + files.Keys,
                                        bytes := s.bytes + SumSizes(files, files.Keys - s.accounted)),
      objects, snapshots[row.snapshot := files])
  {
    hide FrameObjects, CheckpointObjects, IndexesExact, Resolved, Timeline, Chunks, Warnings;
    var after := Committed(s, event, reason, row);
    assert LogValid(runId, s.log, objects, snapshots);
    assert Total(s) == s.log.events && Total(after) == Total(s) + [event];
    FrameObjectsLast(Total(s), event);
    CheckpointObjectsLast(s.log.checkpoints, row, snapshots, files);
    SumUnion(objects, s.accounted, files.Keys);
    SumAgrees(files, objects, files.Keys - s.accounted);
  }

  const STORAGE_LIMIT := 5

  lemma {:induction false} OrderIgnoresQuota(runId: RunId, a: Session, b: Session, objects: Objects)
    requires Ordered(runId, a, objects) && b == a.(accounted := b.accounted, bytes := b.bytes)
    ensures Ordered(runId, b, objects) && Total(b) == Total(a)
  {
  }

  lemma {:induction false} OneCandidate(candidates: Objects, id: Digest, accounted: set<Digest>)
    requires candidates.Keys == {id}
    ensures SumSizes(candidates, candidates.Keys - accounted) == if id in accounted then 0 else candidates[id]
  {
    if id in accounted {
      assert candidates.Keys - accounted == {};
    } else {
      assert candidates.Keys - accounted == {id};
      SumSplit(candidates, {id}, id);
      assert {id} - {id} == {};
    }
  }

  lemma {:induction false} OrderedTracks(runId: RunId, s: Session, objects: Objects, payload: Payload)
    requires Ordered(runId, s, objects) && Referenced(objects, payload)
    requires !payload.CheckpointStarted? && !payload.CheckpointCommitted? && !payload.CheckpointFailed?
    ensures Emittable(Total(s), objects, payload)
  {
  }

  lemma {:induction false} FrameObjectsGrew(before: seq<Event>, after: seq<Event>, payloads: seq<Payload>)
    requires Grew(before, after, payloads)
    ensures FrameObjects(after) == FrameObjects(before)
              + set i | 0 <= i < |payloads| && Reference(payloads[i]).Some? :: Reference(payloads[i]).value.0
  {
    forall i | 0 <= i < |before| ensures after[i] == before[i] { assert after[..|before|][i] == after[i]; }
    forall i | |before| <= i < |after| ensures after[i].payload == payloads[i - |before|] {
      assert after[|before| + (i - |before|)].payload == payloads[i - |before|];
    }
  }

  lemma {:induction false} EmitKeepsAccounts(
    before: Session, after: Session, objects: Objects, snapshots: Snapshots, payloads: seq<Payload>)
    requires Accounted(before, objects, snapshots) && Grew(Total(before), Total(after), payloads)
    requires forall i :: 0 <= i < |payloads| ==> Reference(payloads[i]).None?
    requires after.log.checkpoints == before.log.checkpoints
    requires after.accounted == before.accounted && after.bytes == before.bytes
    ensures Accounted(after, objects, snapshots)
  {
    FrameObjectsGrew(Total(before), Total(after), payloads);
  }

  lemma {:induction false} FlushKeepsAccounts(s: Session, objects: Objects, snapshots: Snapshots)
    requires Accounted(s, objects, snapshots) && Total(Flushed(s)) == Total(s)
    ensures Accounted(Flushed(s), objects, snapshots)
  {
  }

  lemma {:induction false} FrameAccounted(
    before: Session, after: Session, objects: Objects, snapshots: Snapshots, id: Digest, payload: Payload)
    requires Accounted(before, objects, snapshots) && Grew(Total(before), Total(after), [payload])
    requires id in objects && Reference(payload) == Some((id, objects[id]))
    requires after.log.checkpoints == before.log.checkpoints && after.accounted == before.accounted + {id}
    requires after.bytes == before.bytes + if id in before.accounted then 0 else objects[id]
    ensures Accounted(after, objects, snapshots)
  {
    FrameObjectsGrew(Total(before), Total(after), [payload]);
    SumInsert(objects, before.accounted, id);
    var refs := set i | 0 <= i < |[payload]| && Reference([payload][i]).Some? :: Reference([payload][i]).value.0;
    assert refs == {id} by { assert Reference([payload][0]).value.0 == id; }
  }

  /** A store call may fail only in an outage or for a number that does not fit. */
  ghost predicate Excused(outages: seq<bool>, pending: seq<Event>) {
    true in outages || !InRange(pending)
  }

  /** `after` is `before` with one more event for each payload. */
  ghost predicate Grew(before: seq<Event>, after: seq<Event>, payloads: seq<Payload>) {
    && |after| == |before| + |payloads| && after[..|before|] == before
    && forall i :: 0 <= i < |payloads| ==> after[|before| + i].payload == payloads[i]
  }

  lemma {:induction false} GrewNot(total: seq<Event>)
    ensures Grew(total, total, [])
  {
  }

  lemma {:induction false} FlushKeepsRows(s: Session)
    ensures Flushed(s).log.checkpoints == s.log.checkpoints && Flushed(s).pending == []
  {
  }

  lemma {:induction false} OrderedNumbers(runId: RunId, s: Session, objects: Objects)
    requires Ordered(runId, s, objects)
    ensures s.next == |Total(s)| + 1
  {
  }

  lemma {:induction false} FlushNothing(s: Session)
    requires s.pending == []
    ensures Flushed(s) == s
  {
    AppendedNothing(s.log);
    ProjectNothing();
  }

  /** The store never rejects a recorder's batch for its ordering or its references. */
  lemma {:induction false} FlushAccepted(runId: RunId, s: Session, runs: Runs, objects: Objects, snapshots: Snapshots)
    requires StateValid(runs, objects, snapshots) && runId in runs && runs[runId] == s.log
    requires Ordered(runId, s, objects) && s.pending != []
    ensures s.pending[0].runId == runId
    ensures AppendError(runs, objects, s.pending).None? || AppendError(runs, objects, s.pending) == Some(NumericRange)
    ensures InRange(s.pending) ==> AppendError(runs, objects, s.pending).None?
  {
    hide ValidPayload, OffsetsRise, Tracked, Checkpoints, AppendError;
    ContinuesAccepted(runId, s.log.events, s.pending);
    forall i | 0 <= i < |s.pending|
      ensures ValidPayload(s.pending[i].payload) && Referenced(objects, s.pending[i].payload)
    {
      assert Total(s)[|s.log.events| + i] == s.pending[i];
    }
    forall id | id in runs ensures Timeline(id, runs[id].events) {
      assert LogValid(id, runs[id], objects, snapshots);
    }
    FlushError(runId, s.log, runs, objects, s.pending);
  }
}
