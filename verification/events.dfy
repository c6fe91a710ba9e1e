/** Typed execution events and the rows derived from them. */
module Events {
  import opened Digests
  import opened Wrappers

  type RunId = nat
  type CheckpointId = nat

  datatype RunStatus = Preparing | Running | Completed | Failed | Interrupted | Crashed {
    predicate IsActive() { Preparing? || Running? }

    predicate CanTransitionTo(next: RunStatus) {
      match this
      case Preparing => next.Running? || next.Failed? || next.Interrupted? || next.Crashed?
      case Running => next.Completed? || next.Failed? || next.Interrupted? || next.Crashed?
      case _ => false
    }
  }

  /** How far a run has come: being prepared, running, over. */
  function Stage(status: RunStatus): nat {
    match status
    case Preparing => 0
    case Running => 1
    case _ => 2
  }

  /** A run only moves on and never leaves its last stage; it may end early, but completes only after running. */
  lemma TransitionsExactly(from: RunStatus, to: RunStatus)
    ensures from.CanTransitionTo(to) <==> Stage(from) < Stage(to) && (to.Completed? ==> from.Running?)
    ensures from.IsActive() <==> Stage(from) < 2
  {
  }

  datatype Reason = Initial | Manual | Quiescence | Final

  /**
   * Payloads that the store, the recorder or the replay treat specially. `Plain` stands for every
   * other kind; whether its own text and number checks pass is part of the value.
   */
  datatype Payload =
    | TerminalInput(objectId: Digest, byteLength: nat)
    | TerminalInputRedacted(byteLength: nat)
    | TerminalOutput(objectId: Digest, byteLength: nat)
    | CheckpointStarted(checkpoint: CheckpointId, reason: Reason)
    | CheckpointCommitted(checkpoint: CheckpointId, snapshot: Digest)
    | CheckpointFailed(checkpoint: CheckpointId)
    | RunCompleted(status: RunStatus, exitStatus: Option<int>)
    | RecorderWarning(code: nat)
    | Plain(kind: nat, wellFormed: bool)

  predicate ValidPayload(payload: Payload) {
    match payload
    case TerminalInput(_, byteLength) => byteLength != 0
    case TerminalInputRedacted(byteLength) => byteLength != 0
    case TerminalOutput(_, byteLength) => byteLength != 0
    case RunCompleted(status, _) => !status.IsActive()
    case Plain(_, wellFormed) => wellFormed
    case _ => true
  }

  /** The object a terminal frame needs, with the length it claims for it. */
  function Reference(payload: Payload): Option<(Digest, nat)> {
    match payload
    case TerminalInput(objectId, byteLength) => Some((objectId, byteLength))
    case TerminalOutput(objectId, byteLength) => Some((objectId, byteLength))
    case _ => None
  }

  datatype Event = Event(runId: RunId, sequence: nat, wallClock: int, offset: nat, payload: Payload)

  /** Sequence numbers are exactly 1, 2, 3, ... */
  ghost predicate Numbered(events: seq<Event>) {
    forall i :: 0 <= i < |events| ==> events[i].sequence == i + 1
  }

  /** Monotonic offsets never decrease. */
  ghost predicate OffsetsRise(events: seq<Event>) {
    forall i, j :: 0 <= i < j < |events| ==> events[i].offset <= events[j].offset
  }

  ghost predicate OfRun(runId: RunId, events: seq<Event>) {
    forall i :: 0 <= i < |events| ==> events[i].runId == runId
  }

  ghost predicate Timeline(runId: RunId, events: seq<Event>) {
    OfRun(runId, events) && Numbered(events) && OffsetsRise(events)
  }

  function LastOffset(events: seq<Event>): nat {
    if events == [] then 0 else events[|events| - 1].offset
  }

  // ----- rows derived from the timeline -----

  datatype Chunk = Chunk(sequence: nat, objectId: Digest, byteLength: nat)
  datatype WarningRow = WarningRow(sequence: nat, createdAt: int, recovered: bool)
  datatype CheckpointRow = CheckpointRow(id: CheckpointId, sequence: nat, snapshot: Digest, createdAt: int, offset: nat)

  function ChunkOf(event: Event): seq<Chunk> {
    if event.payload.TerminalOutput?
    then [Chunk(event.sequence, event.payload.objectId, event.payload.byteLength)] else []
  }

  function WarningOf(event: Event): seq<WarningRow> {
    if event.payload.RecorderWarning? then [WarningRow(event.sequence, event.wallClock, false)] else []
  }

  function CheckpointOf(event: Event): seq<CheckpointRow> {
    if event.payload.CheckpointCommitted?
    then [CheckpointRow(event.payload.checkpoint, event.sequence, event.payload.snapshot, event.wallClock,
      event.offset)]
    else []
  }

  function Chunks(events: seq<Event>): seq<Chunk> {
    if events == [] then [] else Chunks(events[..|events| - 1]) + ChunkOf(events[|events| - 1])
  }

  function Warnings(events: seq<Event>): seq<WarningRow> {
    if events == [] then [] else Warnings(events[..|events| - 1]) + WarningOf(events[|events| - 1])
  }

  function Checkpoints(events: seq<Event>): seq<CheckpointRow> {
    if events == [] then [] else Checkpoints(events[..|events| - 1]) + CheckpointOf(events[|events| - 1])
  }

  lemma {:induction false} ProjectLast(events: seq<Event>, event: Event)
    ensures Chunks(events + [event]) == Chunks(events) + ChunkOf(event)
    ensures Warnings(events + [event]) == Warnings(events) + WarningOf(event)
    ensures Checkpoints(events + [event]) == Checkpoints(events) + CheckpointOf(event)
  {
    assert (events + [event])[..|events|] == events;
  }

  lemma {:induction false} ProjectNothing()
    ensures Chunks([]) == [] && Warnings([]) == [] && Checkpoints([]) == []
  {
  }

  lemma {:induction false} ProjectConcat(a: seq<Event>, b: seq<Event>)
    ensures Chunks(a + b) == Chunks(a) + Chunks(b)
    ensures Warnings(a + b) == Warnings(a) + Warnings(b)
    ensures Checkpoints(a + b) == Checkpoints(a) + Checkpoints(b)
  {
    hide Chunks, Warnings, Checkpoints;
    if b == [] {
      ProjectNothing();
      assert a + b == a;
    } else {
      var front, last := b[..|b| - 1], b[|b| - 1];
      assert a + b == a + front + [last] && b == front + [last];
      ProjectConcat(a, front);
      ProjectLast(a + front, last);
      ProjectLast(front, last);
    }
  }

  function FrameBytes(event: Event): nat {
    if event.payload.TerminalOutput? then event.payload.byteLength else 0
  }

  /** Terminal output recorded in a timeline. */
  function OutputBytes(events: seq<Event>): nat {
    if events == [] then 0 else FrameBytes(events[0]) + OutputBytes(events[1..])
  }

  function ChunkBytes(chunks: seq<Chunk>): nat {
    if chunks == [] then 0 else chunks[0].byteLength + ChunkBytes(chunks[1..])
  }

  lemma {:induction false} ChunkBytesAppend(chunks: seq<Chunk>, more: seq<Chunk>)
    ensures ChunkBytes(chunks + more) == ChunkBytes(chunks) + ChunkBytes(more)
  {
    if chunks == [] {
      assert chunks + more == more;
    } else {
      assert (chunks + more)[1..] == chunks[1..] + more;
      ChunkBytesAppend(chunks[1..], more);
    }
  }

  lemma {:induction false} FirstChunk(event: Event)
    ensures ChunkBytes(Chunks([event])) == FrameBytes(event)
  {
    assert [event][..0] == [];
  }

  /** The indexed terminal total is the total over the authoritative timeline. */
  lemma {:induction false} IndexedOutput(events: seq<Event>)
    ensures ChunkBytes(Chunks(events)) == OutputBytes(events)
  {
    if events != [] {
      var tail := events[1..];
      assert events == [events[0]] + tail;
      IndexedOutput(tail);
      ProjectConcat([events[0]], tail);
      ChunkBytesAppend(Chunks([events[0]]), Chunks(tail));
      FirstChunk(events[0]);
    }
  }

  /** A row is indexed exactly for an event of its kind, and repeats that event's number, time and contents. */
  lemma {:induction false} IndexedRows(events: seq<Event>)
    ensures forall row :: row in Warnings(events) <==> exists i ::
      0 <= i < |events| && events[i].payload.RecorderWarning?
      && row == WarningRow(events[i].sequence, events[i].wallClock, false)
    ensures forall row :: row in Chunks(events) <==> exists i ::
      0 <= i < |events| && events[i].payload == TerminalOutput(row.objectId, row.byteLength)
      && events[i].sequence == row.sequence
    ensures forall row :: row in Checkpoints(events) <==> exists i ::
      0 <= i < |events| && events[i] == Event(
        events[i].runId, row.sequence, row.createdAt, row.offset, CheckpointCommitted(row.id, row.snapshot))
  {
    if events != [] {
      var most, last := events[..|events| - 1], events[|events| - 1];
      IndexedRows(most);
      forall i | 0 <= i < |events| ensures events[i] == if i < |most| then most[i] else last {}
      assert events[|most|] == last;
      assert forall i :: 0 <= i < |most| ==> events[i] == most[i];
    }
  }

  /** And the rows stand in the order of their numbers, each once. */
  lemma {:induction false} IndexedInOrder(events: seq<Event>)
    requires Numbered(events)
    ensures forall i, j :: 0 <= i < j < |Warnings(events)| ==>
      Warnings(events)[i].sequence < Warnings(events)[j].sequence
    ensures forall i, j :: 0 <= i < j < |Chunks(events)| ==> Chunks(events)[i].sequence < Chunks(events)[j].sequence
    ensures forall i, j :: 0 <= i < j < |Checkpoints(events)| ==>
      Checkpoints(events)[i].sequence < Checkpoints(events)[j].sequence
  {
    if events != [] {
      var most := events[..|events| - 1];
      IndexedInOrder(most);
      IndexedRows(most);
      forall i | 0 <= i < |Warnings(most)| ensures Warnings(most)[i].sequence <= |most| {
        assert Warnings(most)[i] in Warnings(most);
      }
      forall i | 0 <= i < |Chunks(most)| ensures Chunks(most)[i].sequence <= |most| {
        assert Chunks(most)[i] in Chunks(most);
      }
      forall i | 0 <= i < |Checkpoints(most)| ensures Checkpoints(most)[i].sequence <= |most| {
        assert Checkpoints(most)[i] in Checkpoints(most);
      }
    }
  }

  // ----- checkpoint brackets -----

  /** Checkpoint attempts that have started, and those among them that have an outcome. */
  datatype Attempts = Attempts(started: set<CheckpointId>, settled: set<CheckpointId>)

  /** One event's effect on the attempts; `None` when a start repeats or an outcome has no open start. */
  function Track(attempts: Attempts, payload: Payload): Option<Attempts> {
    match payload
    case CheckpointStarted(id, _) =>
      if id in attempts.started then None else Some(attempts.(started := attempts.started + {id}))
    case CheckpointCommitted(id, _) =>
      if id !in attempts.started || id in attempts.settled then None
      else Some(attempts.(settled := attempts.settled + {id}))
    case CheckpointFailed(id) =>
      if id !in attempts.started || id in attempts.settled then None
      else Some(attempts.(settled := attempts.settled + {id}))
    case _ => Some(attempts)
  }

  function Tracked(events: seq<Event>): Option<Attempts> {
    if events == [] then Some(Attempts({}, {}))
    else
      var before := Tracked(events[..|events| - 1]);
      if before.None? then None else Track(before.value, events[|events| - 1].payload)
  }

  lemma {:induction false} TrackLast(events: seq<Event>, event: Event)
    ensures Tracked(events + [event])
         == if Tracked(events).None? then None else Track(Tracked(events).value, event.payload)
  {
    assert (events + [event])[..|events|] == events;
  }

  predicate Outcome(payload: Payload, id: CheckpointId) {
    (payload.CheckpointCommitted? || payload.CheckpointFailed?) && payload.checkpoint == id
  }

  predicate Starts(payload: Payload, id: CheckpointId) {
    payload.CheckpointStarted? && payload.checkpoint == id
  }

  lemma {:induction false} TrackedSets(events: seq<Event>, id: CheckpointId)
    requires Tracked(events).Some?
    ensures id in Tracked(events).value.started <==> exists i :: 0 <= i < |events| && Starts(events[i].payload, id)
    ensures id in Tracked(events).value.settled <==> exists i :: 0 <= i < |events| && Outcome(events[i].payload, id)
  {
    if events != [] {
      var n := |events| - 1;
      TrackedSets(events[..n], id);
      forall i | 0 <= i < n ensures events[..n][i] == events[i] {}
    }
  }

  /**
   * What a tracked timeline means: an outcome follows its own start, and no attempt has two outcomes
   * or two starts.
   */
  lemma {:induction false} TrackedMeaning(events: seq<Event>, i: nat, id: CheckpointId)
    requires Tracked(events).Some? && i < |events|
    ensures Outcome(events[i].payload, id) ==> exists j :: 0 <= j < i && Starts(events[j].payload, id)
    ensures Outcome(events[i].payload, id) ==> forall j :: 0 <= j < |events| && j != i ==>
        !Outcome(events[j].payload, id)
    ensures Starts(events[i].payload, id) ==> forall j :: 0 <= j < |events| && j != i ==> !Starts(events[j].payload, id)
  {
    var n := |events| - 1;
    var front := events[..n];
    TrackedSets(front, id);
    forall j | 0 <= j < n ensures front[j] == events[j] {}
    if i < n {
      TrackedMeaning(front, i, id);
      if Outcome(events[i].payload, id) { assert Outcome(front[i].payload, id); }
      if Starts(events[i].payload, id) { assert Starts(front[i].payload, id); }
    } else if Outcome(events[i].payload, id) {
      var j :| 0 <= j < |front| && Starts(front[j].payload, id);
      assert Starts(events[j].payload, id);
    }
  }
}
