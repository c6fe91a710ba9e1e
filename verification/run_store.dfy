/** The durable run tables: each method is one transaction, applied whole or not at all. */
module RunStores {
  import opened Digests
  import opened Events
  import opened Wrappers

  /** Unsigned values at or above this bound do not fit the database's signed integers. */
  const SQL_LIMIT := 0x8000_0000_0000_0000

  datatype StoreError =
    | NotFound
    | EventOrder
    | InvalidEvent
    | InvalidRun
    | InvalidCheckpoint
    | InvalidSnapshot
    | NumericRange
    | Constraint
    | Database

  datatype RunLog = RunLog(
    status: RunStatus,
    events: seq<Event>,
    checkpoints: seq<CheckpointRow>,
    chunks: seq<Chunk>,
    warnings: seq<WarningRow>,
    finishedAt: Option<int>,
    duration: Option<nat>,
    initialSnapshot: Option<Digest>,
    finalSnapshot: Option<Digest>,
    exitStatus: Option<int>)

  const EmptyLog := RunLog(Preparing, [], [], [], [], None, None, None, None, None)

  datatype RunFinish = RunFinish(
    status: RunStatus, finishedAt: int, duration: nat, finalSnapshot: Option<Digest>, exitStatus: Option<int>)

  type Objects = map<Digest, nat>
  type Snapshots = map<Digest, Objects>
  type Runs = map<RunId, RunLog>

  // ----- what a batch must satisfy -----

  /** The first defect among the events of a batch from index `i` on, looking at the batch alone. */
  function BatchDefect(events: seq<Event>, i: nat): Option<StoreError>
    requires events != [] && i <= |events|
    decreases |events| - i
  {
    if i == |events| then None
    else if !ValidPayload(events[i].payload) then Some(InvalidEvent)
    else if events[i].runId != events[0].runId then Some(EventOrder)
    else if i > 0 && events[i].sequence != events[i - 1].sequence + 1 then Some(EventOrder)
    else if i > 0 && events[i].offset < events[i - 1].offset then Some(EventOrder)
    else BatchDefect(events, i + 1)
  }

  /** Why one row cannot be inserted. */
  function RowDefect(objects: Objects, event: Event): Option<StoreError> {
    if event.sequence >= SQL_LIMIT || event.offset >= SQL_LIMIT then Some(NumericRange)
    else
      match Reference(event.payload)
      case None => None
      case Some((objectId, byteLength)) =>
        if byteLength >= SQL_LIMIT then Some(NumericRange)
        else if objectId !in objects || objects[objectId] != byteLength then Some(InvalidEvent)
        else None
  }

  function RowsDefect(objects: Objects, events: seq<Event>, i: nat): Option<StoreError>
    requires i <= |events|
    decreases |events| - i
  {
    if i == |events| then None
    else if RowDefect(objects, events[i]).Some? then RowDefect(objects, events[i])
    else RowsDefect(objects, events, i + 1)
  }

  function AppendError(runs: Runs, objects: Objects, events: seq<Event>): Option<StoreError>
    requires events != []
  {
    if BatchDefect(events, 0).Some? then BatchDefect(events, 0)
    else if events[0].runId !in runs then Some(NotFound)
    else
      var log := runs[events[0].runId];
      var last := |log.events| - 1;
      if !log.status.IsActive() then Some(EventOrder)
      else if events[0].sequence != (if last < 0 then 1 else log.events[last].sequence + 1) then Some(EventOrder)
      else if last >= 0 && events[0].offset < log.events[last].offset then Some(EventOrder)
      else RowsDefect(objects, events, 0)
  }

  function Appended(log: RunLog, events: seq<Event>): RunLog {
    log.(events := log.events + events,
         chunks := log.chunks + Chunks(events),
         warnings := log.warnings + Warnings(events))
  }

  ghost predicate Resolved(objects: Objects, events: seq<Event>) {
    forall i :: 0 <= i < |events| ==> RowDefect(objects, events[i]).None? && ValidPayload(events[i].payload)
  }

  /** A batch continues a run's timeline. */
  ghost predicate Continues(runId: RunId, log: RunLog, objects: Objects, events: seq<Event>) {
    log.status.IsActive() && Timeline(runId, log.events + events) && Resolved(objects, events)
  }

  lemma {:induction false} BatchSound(events: seq<Event>, i: nat)
    requires events != [] && i <= |events|
    ensures BatchDefect(events, i).None? <==>
      forall k :: i <= k < |events| ==>
        && ValidPayload(events[k].payload) && events[k].runId == events[0].runId
        && (k > 0 ==> events[k].sequence == events[k - 1].sequence + 1)
        && (k > 0 ==> events[k].offset >= events[k - 1].offset)
    decreases |events| - i
  {
    if i < |events| { BatchSound(events, i + 1); }
  }

  lemma {:induction false} RowsSound(objects: Objects, events: seq<Event>, i: nat)
    requires i <= |events|
    ensures RowsDefect(objects, events, i).None? <==>
      forall k :: i <= k < |events| ==> RowDefect(objects, events[k]).None?
    decreases |events| - i
  {
    if i < |events| { RowsSound(objects, events, i + 1); }
  }

  /** Neighbours in order suffice for the whole timeline to be in order. */
  lemma {:induction false} StepsMakeTimeline(runId: RunId, events: seq<Event>)
    requires OfRun(runId, events) && (events != [] ==> events[0].sequence == 1)
    requires forall k :: 0 < k < |events| ==>
      events[k].sequence == events[k - 1].sequence + 1 && events[k].offset >= events[k - 1].offset
    ensures Timeline(runId, events)
  {
    if events != [] {
      var n := |events| - 1;
      var front := events[..n];
      forall k | 0 < k < |front|
        ensures front[k].sequence == front[k - 1].sequence + 1 && front[k].offset >= front[k - 1].offset
      {
        assert front[k] == events[k] && front[k - 1] == events[k - 1];
      }
      StepsMakeTimeline(runId, front);
      forall i, j | 0 <= i < j < |events| ensures events[i].offset <= events[j].offset {
        if j < n {
          assert front[i].offset <= front[j].offset;
        } else if i < n - 1 {
          assert front[i].offset <= front[n - 1].offset;
        }
      }
      if n > 0 { assert front[n - 1].sequence == n; }
      forall i | 0 <= i < |events| ensures events[i].sequence == i + 1 {
        if i < n { assert front[i].sequence == i + 1; }
      }
    }
  }

  lemma {:induction false} AcceptedContinues(runId: RunId, before: seq<Event>, events: seq<Event>)
    requires Timeline(runId, before) && events != [] && OfRun(runId, events)
    requires events[0].sequence == |before| + 1 && events[0].offset >= LastOffset(before)
    requires forall k :: 0 < k < |events| ==>
      events[k].sequence == events[k - 1].sequence + 1 && events[k].offset >= events[k - 1].offset
    ensures Timeline(runId, before + events)
  {
    var all := before + events;
    forall k | 0 < k < |all|
      ensures all[k].sequence == all[k - 1].sequence + 1 && all[k].offset >= all[k - 1].offset
    {
      if k > |before| {
        assert all[k] == events[k - |before|] && all[k - 1] == events[k - |before| - 1];
      }
    }
    StepsMakeTimeline(runId, all);
  }

  lemma {:induction false} ContinuesAccepted(runId: RunId, before: seq<Event>, events: seq<Event>)
    requires Timeline(runId, before + events) && events != []
    ensures OfRun(runId, events)
    ensures events[0].sequence == |before| + 1 && events[0].offset >= LastOffset(before)
    ensures forall k :: 0 < k < |events| ==>
      events[k].sequence == events[k - 1].sequence + 1 && events[k].offset >= events[k - 1].offset
  {
    var all := before + events;
    forall k | 0 <= k < |events|
      ensures events[k].runId == runId && events[k].sequence == |before| + k + 1
      ensures k > 0 ==> events[k].offset >= events[k - 1].offset
    {
      assert all[|before| + k] == events[k];
      if k > 0 { assert all[|before| + k - 1] == events[k - 1]; }
    }
    if before != [] {
      assert all[|before| - 1] == before[|before| - 1] && all[|before|] == events[0];
    }
  }

  /** The store accepts exactly the batches that continue the timeline of an active run. */
  lemma {:induction false} AppendExact(runs: Runs, objects: Objects, events: seq<Event>)
    requires events != []
    requires forall id :: id in runs ==> Timeline(id, runs[id].events)
    ensures AppendError(runs, objects, events).None? <==>
      events[0].runId in runs && Continues(events[0].runId, runs[events[0].runId], objects, events)
  {
    hide BatchDefect, RowsDefect, RowDefect, ValidPayload, OffsetsRise;
    var runId := events[0].runId;
    BatchSound(events, 0);
    RowsSound(objects, events, 0);
    if runId in runs {
      var before := runs[runId].events;
      if AppendError(runs, objects, events).None? {
        AcceptedContinues(runId, before, events);
      }
      if Continues(runId, runs[runId], objects, events) {
        ContinuesAccepted(runId, before, events);
      }
    }
  }

  // ----- acceptance, in terms of events alone -----

  /** A terminal frame names a stored object and claims exactly its length. */
  ghost predicate Backed(objects: Objects, payload: Payload) {
    match payload
    case TerminalInput(objectId, byteLength) => objectId in objects && objects[objectId] == byteLength
    case TerminalOutput(objectId, byteLength) => objectId in objects && objects[objectId] == byteLength
    case _ => true
  }

  /** Every number of an event fits the database, and a terminal frame is not empty. */
  ghost predicate Fits(event: Event) {
    && event.sequence < SQL_LIMIT && event.offset < SQL_LIMIT
    && match event.payload
       case TerminalInput(_, byteLength) => 0 < byteLength < SQL_LIMIT
       case TerminalInputRedacted(byteLength) => 0 < byteLength
       case TerminalOutput(_, byteLength) => 0 < byteLength < SQL_LIMIT
       case RunCompleted(status, _) => !status.IsActive()
       case Plain(_, wellFormed) => wellFormed
       case _ => true
  }

  /** The batch may be made durable: it goes on where the run stands, and nothing in it dangles. */
  ghost predicate Acceptable(runs: Runs, objects: Objects, events: seq<Event>)
    requires events != []
  {
    var runId := events[0].runId;
    && runId in runs && runs[runId].status.IsActive()
    && (forall i :: 0 <= i < |events| ==> events[i].runId == runId)
    && (forall i :: 0 <= i < |events| ==> events[i].sequence == |runs[runId].events| + i + 1)
    && (forall i :: 0 < i < |events| ==> events[i - 1].offset <= events[i].offset)
    && LastOffset(runs[runId].events) <= events[0].offset
    && (forall i :: 0 <= i < |events| ==> Fits(events[i]) && Backed(objects, events[i].payload))
  }

  lemma {:induction false} ResolvedExactly(objects: Objects, event: Event)
    ensures RowDefect(objects, event).None? && ValidPayload(event.payload) <==>
      Fits(event) && Backed(objects, event.payload)
  {
  }

  /** The store accepts exactly the acceptable batches. */
  lemma {:induction false} AcceptsExactly(runs: Runs, objects: Objects, events: seq<Event>)
    requires events != []
    requires forall id :: id in runs ==> Timeline(id, runs[id].events)
    ensures AppendError(runs, objects, events).None? <==> Acceptable(runs, objects, events)
  {
    hide AppendError, RowDefect, ValidPayload, Fits, Backed, Timeline;
    AppendExact(runs, objects, events);
    forall i | 0 <= i < |events|
      ensures RowDefect(objects, events[i]).None? && ValidPayload(events[i].payload) <==>
        Fits(events[i]) && Backed(objects, events[i].payload)
    {
      ResolvedExactly(objects, events[i]);
    }
    var runId := events[0].runId;
    if runId in runs {
      var before := runs[runId].events;
      if Timeline(runId, before + events) { TimelineTail(runId, before, events); }
      if Acceptable(runs, objects, events) { AcceptedContinues(runId, before, events); }
    }
  }

  lemma {:induction false} TimelineTail(runId: RunId, before: seq<Event>, events: seq<Event>)
    requires Timeline(runId, before + events) && events != []
    ensures forall i :: 0 <= i < |events| ==> events[i].runId == runId && events[i].sequence == |before| + i + 1
    ensures forall i :: 0 < i < |events| ==> events[i - 1].offset <= events[i].offset
    ensures LastOffset(before) <= events[0].offset
  {
    hide OffsetsRise;
    ContinuesAccepted(runId, before, events);
    forall i | 0 <= i < |events| ensures events[i].sequence == |before| + i + 1 {
      assert (before + events)[|before| + i] == events[i];
    }
  }

  // ----- what every stored run satisfies -----

  /** The rows derived from a run's events; recovery adds one row after all of them. */
  ghost predicate IndexesExact(log: RunLog) {
    && log.chunks == Chunks(log.events)
    && (log.warnings == Warnings(log.events)
        || (log.status.Interrupted? && |log.warnings| == |Warnings(log.events)| + 1
            && log.warnings[..|log.warnings| - 1] == Warnings(log.events)
            && log.warnings[|log.warnings| - 1].recovered))
    && (log.status.IsActive() ==> log.warnings == Warnings(log.events))
  }

  ghost predicate LogValid(runId: RunId, log: RunLog, objects: Objects, snapshots: Snapshots) {
    && Timeline(runId, log.events) && Resolved(objects, log.events)
    && IndexesExact(log)
    && (log.status.IsActive() <==> log.finishedAt.None?) && (log.finishedAt.None? <==> log.duration.None?)
    && forall i :: 0 <= i < |log.checkpoints| ==> log.checkpoints[i].snapshot in snapshots
  }

  ghost predicate StateValid(runs: Runs, objects: Objects, snapshots: Snapshots) {
    && (forall id :: id in runs ==> LogValid(id, runs[id], objects, snapshots))
    && forall s :: s in snapshots ==> snapshots[s].Keys <= objects.Keys
  }

  /** No event of any stored run dangles: what it names is stored, with the length it claims. */
  lemma {:induction false} StoredRunsBacked(
    runs: Runs, objects: Objects, snapshots: Snapshots, runId: RunId, i: nat)
    requires StateValid(runs, objects, snapshots) && runId in runs && i < |runs[runId].events|
    ensures match runs[runId].events[i].payload
      case TerminalInput(id, length) => id in objects && objects[id] == length && 0 < length
      case TerminalOutput(id, length) => id in objects && objects[id] == length && 0 < length
      case _ => true
    ensures forall c :: 0 <= c < |runs[runId].checkpoints| ==>
      && runs[runId].checkpoints[c].snapshot in snapshots
      && snapshots[runs[runId].checkpoints[c].snapshot].Keys <= objects.Keys
  {
    assert LogValid(runId, runs[runId], objects, snapshots);
    ResolvedExactly(objects, runs[runId].events[i]);
  }

  lemma {:induction false} AppendedTwice(log: RunLog, a: seq<Event>, b: seq<Event>)
    ensures Appended(Appended(log, a), b) == Appended(log, a + b)
  {
    hide Chunks, Warnings;
    ProjectConcat(a, b);
    assert log.events + a + b == log.events + (a + b);
    assert log.chunks + Chunks(a) + Chunks(b) == log.chunks + (Chunks(a) + Chunks(b));
    assert log.warnings + Warnings(a) + Warnings(b) == log.warnings + (Warnings(a) + Warnings(b));
  }

  lemma {:induction false} AppendedNothing(log: RunLog)
    ensures Appended(log, []) == log
  {
    assert log.events + [] == log.events && log.chunks + [] == log.chunks && log.warnings + [] == log.warnings;
  }

  lemma {:induction false} AppendKeepsLog(runId: RunId, log: RunLog, objects: Objects, snapshots: Snapshots,
      events: seq<Event>)
    requires LogValid(runId, log, objects, snapshots) && Continues(runId, log, objects, events)
    ensures LogValid(runId, Appended(log, events), objects, snapshots)
  {
    ProjectConcat(log.events, events);
  }

  /** Comparison evidence read from the indexes agrees with the authoritative timeline. */
  lemma {:induction false} ComparisonEvidence(runId: RunId, log: RunLog, objects: Objects, snapshots: Snapshots)
    requires LogValid(runId, log, objects, snapshots)
    ensures ChunkBytes(log.chunks) == OutputBytes(log.events)
    ensures |log.warnings| == |Warnings(log.events)|
         || (log.status.Interrupted? && |log.warnings| == |Warnings(log.events)| + 1)
  {
    IndexedOutput(log.events);
  }

  function LastWarning(warnings: seq<WarningRow>): nat {
    if warnings == [] then 0 else
      var rest := LastWarning(warnings[..|warnings| - 1]);
      var last := warnings[|warnings| - 1].sequence;
      if last > rest then last else rest
  }

  /** The number behind the last of those in use, or one. */
  ghost predicate Next(sequence: nat, warnings: seq<WarningRow>) {
    && (forall i :: 0 <= i < |warnings| ==> warnings[i].sequence < sequence)
    && (sequence == 1 || exists i :: 0 <= i < |warnings| && warnings[i].sequence + 1 == sequence)
  }

  lemma {:induction false} LastWarningIs(warnings: seq<WarningRow>)
    ensures Next(LastWarning(warnings) + 1, warnings)
  {
    if warnings != [] { LastWarningIs(warnings[..|warnings| - 1]); }
  }

  /** Recovery of a run that no recorder finished: its timeline stays, only its outcome is filled in. */
  function Recovered(log: RunLog, at: int): RunLog {
    log.(status := Interrupted, finishedAt := Some(at), duration := Some(MaxOffset(log.events)),
         warnings := log.warnings + [WarningRow(LastWarning(log.warnings) + 1, at, true)])
  }

  /** `MAX(monotonic_offset_ns)`, or zero without events. */
  function MaxOffset(events: seq<Event>): nat {
    if events == [] then 0
    else
      var rest := MaxOffset(events[..|events| - 1]);
      if events[|events| - 1].offset > rest then events[|events| - 1].offset else rest
  }

  lemma {:induction false} MaxIsLast(events: seq<Event>)
    requires OffsetsRise(events)
    ensures MaxOffset(events) == LastOffset(events)
  {
    if events != [] {
      var n := |events| - 1;
      MaxIsLast(events[..n]);
      if n > 0 { assert events[..n][n - 1] == events[n - 1]; }
    }
  }

  lemma {:induction false} ValidTimeline(runId: RunId, log: RunLog, objects: Objects, snapshots: Snapshots)
    requires LogValid(runId, log, objects, snapshots)
    ensures Timeline(runId, log.events)
  {
  }

  lemma {:induction false} LogOffsets(runId: RunId, log: RunLog, objects: Objects, snapshots: Snapshots)
    requires LogValid(runId, log, objects, snapshots)
    ensures OffsetsRise(log.events)
  {
  }

  lemma {:induction false} RecoveryKeepsLog(runId: RunId, log: RunLog, objects: Objects, snapshots: Snapshots, at: int)
    requires LogValid(runId, log, objects, snapshots) && log.status.IsActive() && OffsetsRise(log.events)
    ensures LogValid(runId, Recovered(log, at), objects, snapshots)
    ensures Recovered(log, at).events == log.events && Recovered(log, at).checkpoints == log.checkpoints
    ensures Recovered(log, at).status == Interrupted && Recovered(log, at).finishedAt == Some(at)
    ensures Recovered(log, at).duration == Some(LastOffset(log.events))
    ensures Recovered(log, at).exitStatus == log.exitStatus
    ensures exists row: WarningRow ::
      && Recovered(log, at).warnings == log.warnings + [row] && row.createdAt == at && row.recovered
      && Next(row.sequence, log.warnings)
  {
    LastWarningIs(log.warnings);
    hide Timeline, Resolved, Chunks, Warnings, MaxOffset, LastWarning;
    MaxIsLast(log.events);
    var more := Recovered(log, at).warnings;
    assert more[..|more| - 1] == log.warnings;
  }

  class RunStore {
    var runs: Runs
    var objects: Objects
    var snapshots: Snapshots
    /** Which of the coming transactions the database fails; those beyond the end succeed. */
    var outages: seq<bool>

    ghost predicate Valid()
      reads this
    {
      StateValid(runs, objects, snapshots)
    }

    constructor (outages: seq<bool>)
      ensures Valid() && runs == map[] && objects == map[] && snapshots == map[] && this.outages == outages
    {
      runs, objects, snapshots := map[], map[], map[];
      this.outages := outages;
    }

    /** Starts a transaction, unless the database fails this one. */
    method Begin() returns (up: bool)
      modifies this`outages
      ensures up <==> !Down(old(outages))
      ensures outages == if old(outages) == [] then [] else old(outages)[1..]
    {
      up := outages == [] || !outages[0];
      if outages != [] {
        outages := outages[1..];
      }
    }

    /** Records an installed object. An existing row is kept and must agree. */
    method RecordObject(id: Digest, size: nat) returns (error: Option<StoreError>)
      requires Valid()
      modifies this`objects, this`outages
      ensures Valid() && (true in outages ==> true in old(outages))
      ensures Outage(error, old(outages)) || (error.None? <==> id !in old(objects) || old(objects)[id] == size)
      ensures error.None? ==> !Down(old(outages)) && (id in old(objects) ==> old(objects)[id] == size)
      ensures objects == if error.None? then old(objects)[id := size] else old(objects)
    {
      var up := Begin();
      if !up {
        return Some(Database);
      }
      if id in objects && objects[id] != size {
        return Some(Constraint);
      }
      ghost var before := objects;
      objects := objects[id := size];
      forall run | run in runs ensures LogValid(run, runs[run], objects, snapshots) {
        MoreObjects(run, runs[run], before, objects, snapshots);
      }
      return None;
    }

    method CreateRun(runId: RunId) returns (error: Option<StoreError>)
      requires Valid()
      modifies this`runs
      ensures Valid()
      ensures error.None? <==> runId !in old(runs)
      ensures runs == if error.None? then old(runs)[runId := EmptyLog] else old(runs)
    {
      if runId in runs {
        return Some(Constraint);
      }
      runs := runs[runId := EmptyLog];
      return None;
    }

    /** One event row with the index rows it brings along. */
    method InsertRow(log: RunLog, event: Event) returns (after: RunLog)
      ensures after == Appended(log, [event])
    {
      after := log.(events := log.events + [event]);
      if event.payload.RecorderWarning? {
        after := after.(warnings := after.warnings + [WarningRow(event.sequence, event.wallClock, false)]);
      }
      if event.payload.TerminalOutput? {
        after := after.(chunks := after.chunks
          + [Chunk(event.sequence, event.payload.objectId, event.payload.byteLength)]);
      }
      ProjectNothing();
      assert [event][..0] == [];
    }

    /** The insertion loop of a batch, run against a copy that the caller commits or drops. */
    method AppendRows(log: RunLog, events: seq<Event>) returns (error: Option<StoreError>, after: RunLog)
      ensures error == RowsDefect(objects, events, 0)
      ensures error.None? ==> after == Appended(log, events)
    {
      hide Appended, RowDefect;
      after := log;
      AppendedNothing(log);
      for i := 0 to |events|
        invariant RowsDefect(objects, events, 0) == RowsDefect(objects, events, i)
        invariant after == Appended(log, events[..i])
      {
        var defect := RowDefect(objects, events[i]);
        if defect.Some? {
          return defect, after;
        }
        after := InsertRow(after, events[i]);
        AppendedTwice(log, events[..i], [events[i]]);
        assert events[..i + 1] == events[..i] + [events[i]];
      }
      assert events[..|events|] == events;
      return None, after;
    }

    method ValidateBatch(events: seq<Event>) returns (error: Option<StoreError>)
      requires events != []
      ensures error == BatchDefect(events, 0)
    {
      var previous: Option<Event> := None;
      for i := 0 to |events|
        invariant BatchDefect(events, 0) == BatchDefect(events, i)
        invariant previous == if i == 0 then None else Some(events[i - 1])
      {
        var event := events[i];
        if !ValidPayload(event.payload) {
          return Some(InvalidEvent);
        }
        if event.runId != events[0].runId {
          return Some(EventOrder);
        }
        if previous.Some? && previous.value.sequence + 1 != event.sequence {
          return Some(EventOrder);
        }
        if previous.Some? && event.offset < previous.value.offset {
          return Some(EventOrder);
        }
        previous := Some(event);
      }
      return None;
    }

    /** The body of every appending transaction. */
    method AppendIn(events: seq<Event>) returns (error: Option<StoreError>, after: RunLog)
      requires Valid() && events != []
      ensures error == AppendError(runs, objects, events)
      ensures error.None? ==> events[0].runId in runs && after == Appended(runs[events[0].runId], events)
      ensures error.None? ==> LogValid(events[0].runId, after, objects, snapshots)
      ensures error.None? ==> Continues(events[0].runId, runs[events[0].runId], objects, events)
    {
      AppendExact(runs, objects, events);
      after := EmptyLog;
      error := ValidateBatch(events);
      if error.Some? {
        return;
      }
      var runId := events[0].runId;
      if runId !in runs {
        return Some(NotFound), after;
      }
      var log := runs[runId];
      if !log.status.IsActive() {
        return Some(EventOrder), after;
      }
      var last := |log.events| - 1;
      var expected := if last < 0 then 1 else log.events[last].sequence + 1;
      if events[0].sequence != expected {
        return Some(EventOrder), after;
      }
      if last >= 0 && events[0].offset < log.events[last].offset {
        return Some(EventOrder), after;
      }
      error, after := AppendRows(log, events);
      if error.None? { AppendKeepsLog(runId, log, objects, snapshots, events); }
    }

    /** Apart from outages the outcome is decided by the batch; every failure leaves the tables as they were. */
    method AppendEventBatch(events: seq<Event>) returns (error: Option<StoreError>)
      requires Valid()
      modifies this`runs, this`outages
      ensures Valid() && (true in outages ==> true in old(outages))
      ensures events == [] ==> error.None? && runs == old(runs)
      ensures events != [] ==> error == AppendError(old(runs), objects, events) || Outage(error, old(outages))
      ensures events != [] ==>
        Outage(error, old(outages)) || (error.None? <==> Acceptable(old(runs), objects, events))
      ensures events != [] && Down(old(outages)) ==> error.Some?
      ensures error.Some? ==> runs == old(runs)
      ensures events != [] && error.None? ==>
        && events[0].runId in old(runs)
        && runs == old(runs)[events[0].runId := Appended(old(runs)[events[0].runId], events)]
    {
      hide Acceptable, AppendError, LogValid;
      if events == [] {
        return None;
      }
      forall id | id in runs ensures Timeline(id, runs[id].events) { ValidTimeline(id, runs[id], objects, snapshots); }
      AcceptsExactly(runs, objects, events);
      var up := Begin();
      if !up {
        return Some(Database);
      }
      var after;
      error, after := AppendIn(events);
      if error.None? {
        runs := runs[events[0].runId := after];
      }
    }

    /**
     * Snapshot, checkpoint row, run link and committed event in one transaction. The row and the event
     * must describe each other.
     */
    method CommitCheckpointWithEvent(
      runId: RunId, row: CheckpointRow, reason: Reason, files: Objects, event: Event)
      returns (error: Option<StoreError>)
      requires Valid()
      modifies this`runs, this`snapshots, this`outages
      ensures Valid() && (true in outages ==> true in old(outages))
      ensures error.Some? ==> runs == old(runs) && snapshots == old(snapshots)
      ensures error.None? ==>
        && runId in old(runs) && event.runId == runId && CheckpointOf(event) == [row]
        && Continues(runId, old(runs)[runId], objects, [event])
        && runs == old(runs)[runId := Linked(Appended(old(runs)[runId], [event]), reason, row)]
        && snapshots == old(snapshots)[row.snapshot := files]
      ensures Outage(error, old(outages))
           || (error.None? <==> Committable(old(runs), objects, old(snapshots), runId, row, reason, files, event))
      ensures Down(old(outages)) ==> error.Some?
    {
      hide LogValid, Continues, AppendError, Appended, Linked, Linkable, FreshCheckpoint, CheckpointOf;
      if event.runId != runId || CheckpointOf(event) != [row] {
        return Some(InvalidCheckpoint);
      }
      var up := Begin();
      if !up {
        return Some(Database);
      }
      if row.snapshot in snapshots && snapshots[row.snapshot] != files {
        return Some(InvalidSnapshot);
      }
      if !(files.Keys <= objects.Keys) || runId !in runs || !FreshCheckpoint(runs, runId, row) {
        return Some(Constraint);
      }
      if !Linkable(runs[runId], reason, row.snapshot) {
        return Some(InvalidCheckpoint);
      }
      var after;
      error, after := AppendIn([event]);
      if error.Some? {
        return;
      }
      CommitKeepsState(runs, objects, snapshots, runId, after, reason, row, files);
      snapshots := snapshots[row.snapshot := files];
      runs := runs[runId := Linked(after, reason, row)];
    }

    /** Leaves the preparing state once the initial snapshot exists. */
    method MarkRunRunning(runId: RunId, initial: Digest) returns (error: Option<StoreError>)
      requires Valid()
      modifies this`runs, this`outages
      ensures Valid() && (true in outages ==> true in old(outages))
      ensures error.Some? ==> runs == old(runs)
      ensures Down(old(outages)) ==> error.Some?
      ensures Outage(error, old(outages))
           || (error.None? <==> runId in old(runs) && old(runs)[runId].status.Preparing? && initial in snapshots)
      ensures error.None? ==>
        runs == old(runs)[runId := old(runs)[runId].(status := Running, initialSnapshot := Some(initial))]
    {
      var up := Begin();
      if !up {
        return Some(Database);
      }
      if runId !in runs {
        return Some(NotFound);
      }
      if !runs[runId].status.Preparing? {
        return Some(InvalidRun);
      }
      if initial !in snapshots {
        return Some(Constraint);
      }
      runs := runs[runId := runs[runId].(status := Running, initialSnapshot := Some(initial))];
      return None;
    }

    /** The terminal batch and the terminal run row commit together or not at all. */
    method FinishRunWithEvents(runId: RunId, finish: RunFinish, events: seq<Event>)
      returns (error: Option<StoreError>)
      requires Valid()
      modifies this`runs, this`outages
      ensures Valid() && (true in outages ==> true in old(outages))
      ensures error.Some? ==> runs == old(runs)
      ensures Down(old(outages)) ==> error.Some?
      ensures Outage(error, old(outages)) || (error.None? <==>
        && events != [] && events[|events| - 1].runId == runId
        && events[|events| - 1].payload == RunCompleted(finish.status, finish.exitStatus)
        && AppendError(old(runs), objects, events).None?
        && Finishable(old(runs)[events[0].runId], finish, snapshots))
      ensures error.None? ==>
        && events[0].runId == runId && runId in old(runs)
        && runs == old(runs)[runId := Finished(Appended(old(runs)[runId], events), finish)]
    {
      if events == [] {
        return Some(EventOrder);
      }
      var last := events[|events| - 1];
      if last.runId != runId || last.payload != RunCompleted(finish.status, finish.exitStatus) {
        return Some(InvalidEvent);
      }
      var up := Begin();
      if !up {
        return Some(Database);
      }
      var after;
      error, after := AppendIn(events);
      if error.Some? {
        return;
      }
      SameRun(events, runs[events[0].runId], objects);
      if finish.status.IsActive() || !after.status.CanTransitionTo(finish.status) {
        return Some(InvalidRun);
      }
      if finish.duration >= SQL_LIMIT {
        return Some(NumericRange);
      }
      if finish.finalSnapshot.Some? && finish.finalSnapshot.value !in snapshots {
        return Some(Constraint);
      }
      runs := runs[runId := Finished(after, finish)];
    }

    /** Recovery on opening: every active run becomes interrupted, in one transaction. */
    method MarkInterruptedRuns(at: int) returns (r: Result<set<RunId>, StoreError>)
      requires Valid()
      modifies this`runs, this`outages
      ensures Valid() && (true in outages ==> true in old(outages))
      ensures r.Failure? <==> Down(old(outages))
      ensures r.Failure? ==> Outage(Some(r.error), old(outages)) && runs == old(runs)
      ensures r.Success? ==>
        && r.value == (set id | id in old(runs) && old(runs)[id].status.IsActive())
        && runs == map id | id in old(runs) ::
             if id in r.value then Recovered(old(runs)[id], at) else old(runs)[id]
    {
      hide LogValid, Recovered;
      var up := Begin();
      if !up {
        return Failure(Database);
      }
      var recovered := set id | id in runs && runs[id].status.IsActive();
      var remaining, after := recovered, runs;
      while remaining != {}
        invariant remaining <= recovered && after.Keys == runs.Keys
        invariant forall id :: id in runs ==>
          after[id] == if id in recovered && id !in remaining then Recovered(runs[id], at) else runs[id]
        decreases remaining
      {
        var id :| id in remaining;
        after := after[id := Recovered(after[id], at)];
        remaining := remaining - {id};
      }
      forall id | id in after ensures LogValid(id, after[id], objects, snapshots) {
        if id in recovered {
          LogOffsets(id, runs[id], objects, snapshots);
          RecoveryKeepsLog(id, runs[id], objects, snapshots, at);
        }
      }
      assert after == map id | id in runs :: if id in recovered then Recovered(runs[id], at) else runs[id];
      runs := after;
      return Success(recovered);
    }
  }

  /** The database fails the next transaction. */
  predicate Down(outages: seq<bool>) { outages != [] && outages[0] }

  /** A failure that says nothing about the request, possible only while outages lie ahead. */
  predicate Outage(error: Option<StoreError>, outages: seq<bool>) {
    error == Some(Database) && true in outages
  }

  /** Neither the checkpoint's identity nor its position is taken. */
  predicate FreshCheckpoint(runs: Runs, runId: RunId, row: CheckpointRow) {
    forall id :: id in runs ==> forall i :: 0 <= i < |runs[id].checkpoints| ==>
      runs[id].checkpoints[i].id != row.id
      && (id == runId ==> runs[id].checkpoints[i].sequence != row.sequence)
  }

  /** Initial and final snapshots may be linked once, or again to the same snapshot. */
  predicate Linkable(log: RunLog, reason: Reason, snapshot: Digest) {
    match reason
    case Initial => log.initialSnapshot.None? || log.initialSnapshot == Some(snapshot)
    case Final => log.finalSnapshot.None? || log.finalSnapshot == Some(snapshot)
    case _ => true
  }

  function Linked(log: RunLog, reason: Reason, row: CheckpointRow): RunLog {
    var with := log.(checkpoints := log.checkpoints + [row]);
    match reason
    case Initial => with.(initialSnapshot := Some(row.snapshot))
    case Final => with.(finalSnapshot := Some(row.snapshot))
    case _ => with
  }

  predicate Finishable(log: RunLog, finish: RunFinish, snapshots: Snapshots) {
    && !finish.status.IsActive() && log.status.CanTransitionTo(finish.status)
    && finish.duration < SQL_LIMIT
    && (finish.finalSnapshot.Some? ==> finish.finalSnapshot.value in snapshots)
  }

  /** A run is finished once: from an active state to a final one, and completed only after it was running. */
  lemma FinishableExactly(log: RunLog, finish: RunFinish, snapshots: Snapshots)
    ensures Finishable(log, finish, snapshots) <==>
      && Stage(log.status) < 2 == Stage(finish.status) && (finish.status.Completed? ==> log.status.Running?)
      && finish.duration < SQL_LIMIT
      && (finish.finalSnapshot.None? || finish.finalSnapshot.value in snapshots)
    ensures !Finishable(Finished(log, finish), finish, snapshots) || !Finishable(log, finish, snapshots)
  {
    TransitionsExactly(log.status, finish.status);
  }

  function Finished(log: RunLog, finish: RunFinish): RunLog {
    log.(status := finish.status, finishedAt := Some(finish.finishedAt), duration := Some(finish.duration),
         finalSnapshot := finish.finalSnapshot, exitStatus := finish.exitStatus)
  }

  lemma {:induction false} MoreObjects(runId: RunId, log: RunLog, before: Objects, after: Objects, snapshots: Snapshots)
    requires LogValid(runId, log, before, snapshots)
    requires forall id :: id in before ==> id in after && after[id] == before[id]
    ensures LogValid(runId, log, after, snapshots)
  {
    forall i | 0 <= i < |log.events| ensures RowDefect(after, log.events[i]).None? {
      assert RowDefect(before, log.events[i]).None?;
    }
  }

  lemma {:induction false} MoreSnapshots(runId: RunId, log: RunLog, objects: Objects, before: Snapshots,
      after: Snapshots)
    requires LogValid(runId, log, objects, before) && before.Keys <= after.Keys
    ensures LogValid(runId, log, objects, after)
  {
  }

  /** What a commit changes in the row of its run: an initial and a final checkpoint link their snapshot. */
  lemma {:induction false} LinkedFields(before: RunLog, event: Event, reason: Reason, row: CheckpointRow)
    requires CheckpointOf(event) == [row] && Linkable(before, reason, row.snapshot)
    ensures var after := Linked(Appended(before, [event]), reason, row);
      && after.checkpoints == before.checkpoints + [row] && after.events == before.events + [event]
      && event.payload == CheckpointCommitted(row.id, row.snapshot)
      && row.sequence == event.sequence && row.createdAt == event.wallClock && row.offset == event.offset
      && after.initialSnapshot == (if reason.Initial? then Some(row.snapshot) else before.initialSnapshot)
      && after.finalSnapshot == (if reason.Final? then Some(row.snapshot) else before.finalSnapshot)
      && (reason.Initial? && before.initialSnapshot.Some? ==> before.initialSnapshot == Some(row.snapshot))
      && (reason.Final? && before.finalSnapshot.Some? ==> before.finalSnapshot == Some(row.snapshot))
      && after.status == before.status
  {
  }

  /** Nothing stands in the way of a checkpoint commit. */
  predicate Committable(
    runs: Runs, objects: Objects, snapshots: Snapshots,
    runId: RunId, row: CheckpointRow, reason: Reason, files: Objects, event: Event)
  {
    && event.runId == runId && CheckpointOf(event) == [row] && runId in runs
    && (row.snapshot in snapshots ==> snapshots[row.snapshot] == files)
    && files.Keys <= objects.Keys
    && FreshCheckpoint(runs, runId, row)
    && Linkable(runs[runId], reason, row.snapshot)
    && AppendError(runs, objects, [event]).None?
  }

  /**
   * What a commit asks for, said for the caller: the event and the row describe each other and continue the
   * run, the identity is new, everything in the snapshot is stored, and no link is replaced.
   */
  lemma {:induction false} CommittableExactly(
    runs: Runs, objects: Objects, snapshots: Snapshots,
    runId: RunId, row: CheckpointRow, reason: Reason, files: Objects, event: Event)
    requires forall id :: id in runs ==> Timeline(id, runs[id].events)
    ensures Committable(runs, objects, snapshots, runId, row, reason, files, event) <==>
      && Acceptable(runs, objects, [event])
      && event == Event(runId, row.sequence, row.createdAt, row.offset, CheckpointCommitted(row.id, row.snapshot))
      && (row.snapshot in snapshots ==> snapshots[row.snapshot] == files)
      && (forall id :: id in files ==> id in objects)
      && (forall id :: id in runs ==> forall i :: 0 <= i < |runs[id].checkpoints| ==>
            && runs[id].checkpoints[i].id != row.id
            && (id == runId ==> runs[id].checkpoints[i].sequence != row.sequence))
      && (reason.Initial? && runs[runId].initialSnapshot.Some? ==>
            runs[runId].initialSnapshot.value == row.snapshot)
      && (reason.Final? && runs[runId].finalSnapshot.Some? ==> runs[runId].finalSnapshot.value == row.snapshot)
  {
    hide AppendError, Timeline;
    AcceptsExactly(runs, objects, [event]);
  }

  /** No two checkpoints anywhere share an identity. */
  ghost predicate DistinctCheckpoints(runs: Runs) {
    forall a, i, b, j ::
      a in runs && 0 <= i < |runs[a].checkpoints| && b in runs && 0 <= j < |runs[b].checkpoints| ==>
      runs[a].checkpoints[i].id == runs[b].checkpoints[j].id ==> a == b && i == j
  }

  lemma {:induction false} CommitKeepsDistinct(
    runs: Runs, objects: Objects, snapshots: Snapshots,
    runId: RunId, row: CheckpointRow, reason: Reason, files: Objects, event: Event)
    requires DistinctCheckpoints(runs) && Committable(runs, objects, snapshots, runId, row, reason, files, event)
    ensures DistinctCheckpoints(runs[runId := Linked(Appended(runs[runId], [event]), reason, row)])
  {
    hide AppendError, Linkable, CheckpointOf;
    assert Linked(Appended(runs[runId], [event]), reason, row).checkpoints == runs[runId].checkpoints + [row];
  }

  lemma {:induction false} LinkKeepsLog(
    runId: RunId, log: RunLog, objects: Objects, snapshots: Snapshots, reason: Reason, row: CheckpointRow)
    requires LogValid(runId, log, objects, snapshots) && row.snapshot in snapshots
    ensures LogValid(runId, Linked(log, reason, row), objects, snapshots)
  {
    hide Timeline, Resolved, IndexesExact;
    var linked := Linked(log, reason, row);
    assert linked.events == log.events && linked.chunks == log.chunks && linked.warnings == log.warnings;
    IndexesOnly(log, linked);
  }

  lemma {:induction false} IndexesOnly(a: RunLog, b: RunLog)
    requires a.events == b.events && a.chunks == b.chunks && a.warnings == b.warnings && a.status == b.status
    requires IndexesExact(a)
    ensures IndexesExact(b)
  {
  }

  lemma {:induction false} CommitKeepsState(
    runs: Runs, objects: Objects, snapshots: Snapshots,
    runId: RunId, after: RunLog, reason: Reason, row: CheckpointRow, files: Objects)
    requires StateValid(runs, objects, snapshots) && LogValid(runId, after, objects, snapshots)
    requires files.Keys <= objects.Keys
    ensures StateValid(runs[runId := Linked(after, reason, row)], objects, snapshots[row.snapshot := files])
  {
    hide LogValid, Linked;
    var more := snapshots[row.snapshot := files];
    var all := runs[runId := Linked(after, reason, row)];
    forall id | id in all ensures LogValid(id, all[id], objects, more) {
      if id == runId {
        MoreSnapshots(id, after, objects, snapshots, more);
        LinkKeepsLog(id, after, objects, more, reason, row);
      } else {
        MoreSnapshots(id, runs[id], objects, snapshots, more);
      }
    }
  }

  lemma {:induction false} SameRun(events: seq<Event>, log: RunLog, objects: Objects)
    requires events != [] && Continues(events[0].runId, log, objects, events)
    ensures forall i :: 0 <= i < |events| ==> events[i].runId == events[0].runId
  {
    forall i | 0 <= i < |events| ensures events[i].runId == events[0].runId {
      assert (log.events + events)[|log.events| + i] == events[i];
    }
  }
}
