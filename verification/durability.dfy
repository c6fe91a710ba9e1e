/**
 * The order in which fan-out directories, object files, metadata rows and references are made and unmade,
 * cut by a crash at any point. A file becomes visible before its row and its row before any reference;
 * deletion runs the other way.
 */
module Durability {
  import opened Accesses
  import opened Bytes
  import opened Digests
  import opened Objects
  import opened Wrappers

  // ----- states -----

  /** How far the installation of one object has come. */
  datatype Put =
    | Absent(bytes: Text)
    | Writing(bytes: Text, temp: nat)
    | Flushed(bytes: Text, temp: nat)
    | Linked(bytes: Text, temp: nat)
    | Placed(bytes: Text, temp: nat)
    | Installed(bytes: Text)

  /** The writer lock admits one session at a time; a crash ends it wherever it stands. */
  datatype Session =
    | Closed
    | Capturing(recorded: set<Digest>, put: Option<Put>)
    | Collecting(unlinked: Option<Digest>)

  type Files = map<Digest, Text>

  /**
   * `files` is what the final paths hold, `disk` what a flush of their directory has last made permanent
   * of them. `folders` are the fan-out directories, by the first byte of the digests they hold, and `fixed`
   * those whose own entry is permanent. Rows and references are permanent as soon as their transaction has
   * committed.
   */
  datatype State = State(
    files: Files, disk: Files, folders: set<Byte>, fixed: set<Byte>, temps: map<nat, Text>,
    rows: set<Digest>, references: set<Digest>, session: Session)

  const Empty := State(map[], map[], {}, {}, map[], {}, {}, Closed)

  datatype Step =
    | OpenCapture
    | OpenCollector
    | Close
    | MakeFanOut(directory: Byte)
    | FindAbsent(bytes: Text)
    | UseExisting(bytes: Text)
    | CreateTemp(temp: nat)
    | WriteTemp(written: Text)
    | FlushTemp
    | Link
    | LinkFindsExisting
    | FlushDirectory
    | RemoveTemp
    | InsertRow
    | ConfirmRow
    | GiveUp(removed: bool)
    | Refer(ids: set<Digest>)
    | Unlink(id: Digest)
    | DropRow
    | KeepRow
    | RemoveOrphan(id: Digest)
    | RemoveTemporary(temp: nat)
    | Settle
    | Crash
    | PowerLoss(outcome: Files, kept: set<Byte>, leftovers: map<nat, Text>)

  /**
   * After a power loss every entry is as it last was or as it was last flushed; a directory that goes
   * takes along what it holds.
   */
  ghost predicate Survives(s: State, outcome: Files, kept: set<Byte>) {
    && s.fixed <= kept <= s.folders
    && (forall id :: id in outcome ==>
      && id[0] in kept
      && ((id in s.files && outcome[id] == s.files[id]) || (id in s.disk && outcome[id] == s.disk[id])))
    && forall id :: id in s.files && id in s.disk && id[0] in kept ==> id in outcome
  }

  /** A flush makes permanent every entry of one fan-out directory. */
  function FlushedDisk(files: Files, disk: Files, directory: Byte): Files {
    map id | id in files.Keys + disk.Keys && (if id[0] == directory then id in files else id in disk)
      :: if id[0] == directory then files[id] else disk[id]
  }

  predicate Putting(s: State) { s.session.Capturing? && s.session.put.Some? }

  predicate Idle(s: State) { s.session.Capturing? && s.session.put.None? }

  ghost predicate Enabled(hash: Hasher, s: State, step: Step) {
    match step
    case OpenCapture => s.session.Closed?
    case OpenCollector => s.session.Closed?
    case Close => Idle(s) || s.session == Collecting(None)
    case MakeFanOut(directory) => Idle(s) && directory !in s.folders
    case FindAbsent(bytes) =>
      Idle(s) && hash(bytes)[0] in s.folders && hash(bytes) !in s.files && |bytes| < U64_LIMIT
    case UseExisting(bytes) => Idle(s) && hash(bytes) in s.files && s.files[hash(bytes)] == Encode(bytes)
    case CreateTemp(temp) => Putting(s) && s.session.put.value.Absent? && temp !in s.temps
    case WriteTemp(written) => Putting(s) && s.session.put.value.Writing?
      && written <= Encode(s.session.put.value.bytes)
    case FlushTemp =>
      && Putting(s) && s.session.put.value.Writing? && s.session.put.value.temp in s.temps
      && s.temps[s.session.put.value.temp] == Encode(s.session.put.value.bytes)
    case Link =>
      && Putting(s) && s.session.put.value.Flushed? && s.session.put.value.temp in s.temps
      && hash(s.session.put.value.bytes) !in s.files
    case LinkFindsExisting =>
      && Putting(s) && s.session.put.value.Flushed? && hash(s.session.put.value.bytes) in s.files
      && s.files[hash(s.session.put.value.bytes)] == Encode(s.session.put.value.bytes)
    case FlushDirectory => Putting(s) && s.session.put.value.Linked?
    case RemoveTemp => Putting(s) && s.session.put.value.Placed?
    case InsertRow => Putting(s) && s.session.put.value.Installed?
    case ConfirmRow => Putting(s) && s.session.put.value.Installed? && hash(s.session.put.value.bytes) in s.rows
    case GiveUp(_) => Putting(s)
    case Refer(ids) => Idle(s) && ids <= s.rows
    case Unlink(id) => s.session == Collecting(None) && id in s.rows && id !in s.references
    case DropRow => s.session.Collecting? && s.session.unlinked.Some?
    case KeepRow => s.session.Collecting? && s.session.unlinked.Some?
    case RemoveOrphan(id) => s.session == Collecting(None) && id !in s.rows && id !in s.references
    case RemoveTemporary(temp) => s.session == Collecting(None)
    case Settle => true
    case Crash => true
    case PowerLoss(outcome, kept, _) => Survives(s, outcome, kept)
  }

  function Holding(s: State, put: Put): State
    requires s.session.Capturing?
  {
    s.(session := Capturing(s.session.recorded, Some(put)))
  }

  function TempOf(put: Put): set<nat> {
    if put.Absent? || put.Installed? then {} else {put.temp}
  }

  function Apply(hash: Hasher, s: State, step: Step): State
    requires Enabled(hash, s, step)
  {
    match step
    case OpenCapture => s.(session := Capturing({}, None))
    case OpenCollector => s.(session := Collecting(None))
    case Close => s.(session := Closed)
    case MakeFanOut(directory) => s.(folders := s.folders + {directory})
    case FindAbsent(bytes) => Holding(s, Absent(bytes))
    case UseExisting(bytes) => Holding(s, Installed(bytes))
    case CreateTemp(temp) => Holding(s, Writing(s.session.put.value.bytes, temp)).(temps := s.temps[temp := []])
    case WriteTemp(written) => s.(temps := s.temps[s.session.put.value.temp := written])
    case FlushTemp => Holding(s, Flushed(s.session.put.value.bytes, s.session.put.value.temp))
    case Link =>
      Holding(s, Linked(s.session.put.value.bytes, s.session.put.value.temp))
      .(files := s.files[hash(s.session.put.value.bytes) := s.temps[s.session.put.value.temp]])
    case LinkFindsExisting => Holding(s, Placed(s.session.put.value.bytes, s.session.put.value.temp))
    case FlushDirectory =>
      Holding(s, Placed(s.session.put.value.bytes, s.session.put.value.temp))
      .(disk := FlushedDisk(s.files, s.disk, hash(s.session.put.value.bytes)[0]))
    case RemoveTemp =>
      Holding(s, Installed(s.session.put.value.bytes)).(temps := s.temps - {s.session.put.value.temp})
    case InsertRow => s.(rows := s.rows + {hash(s.session.put.value.bytes)})
    case ConfirmRow => s.(session := Capturing(s.session.recorded + {hash(s.session.put.value.bytes)}, None))
    case GiveUp(removed) =>
      s.(session := Capturing(s.session.recorded, None),
         temps := if removed then s.temps - TempOf(s.session.put.value) else s.temps)
    case Refer(ids) => s.(references := s.references + ids)
    case Unlink(id) => s.(files := s.files - {id}, session := Collecting(Some(id)))
    case DropRow => s.(rows := s.rows - {s.session.unlinked.value}, session := Collecting(None))
    case KeepRow => s.(session := Collecting(None))
    case RemoveOrphan(id) => s.(files := s.files - {id})
    case RemoveTemporary(temp) => s.(temps := s.temps - {temp})
    case Settle => s.(disk := s.files, fixed := s.folders)
    case Crash => s.(session := Closed)
    case PowerLoss(outcome, kept, leftovers) =>
      State(outcome, outcome, kept, kept, leftovers, s.rows, s.references, Closed)
  }

  // ----- what every step keeps -----

  ghost predicate AllComplete(hash: Hasher, files: Files) {
    forall id :: id in files ==> Complete(hash, id, files[id])
  }

  ghost predicate AllWithin(files: Files, folders: set<Byte>) {
    forall id :: id in files ==> id[0] in folders
  }

  ghost predicate PutSound(hash: Hasher, s: State, put: Put) {
    && |put.bytes| < U64_LIMIT
    && hash(put.bytes)[0] in s.folders
    && (put.Writing? || put.Flushed? ==> put.temp in s.temps)
    && (put.Flushed? ==> s.temps[put.temp] == Encode(put.bytes))
    && (put.Linked? || put.Placed? || put.Installed? ==> hash(put.bytes) in s.files)
  }

  /**
   * Every final path holds a whole envelope, permanent or not; every reference has its row; what a session
   * has recorded it has a row and a file for; what a collector is deleting nothing refers to.
   */
  ghost predicate Whole(hash: Hasher, s: State) {
    && AllComplete(hash, s.files) && AllComplete(hash, s.disk)
    && AllWithin(s.files, s.folders) && AllWithin(s.disk, s.folders) && s.fixed <= s.folders
    && s.references <= s.rows
    && (s.session.Capturing? ==> s.session.recorded <= s.rows && s.session.recorded <= s.files.Keys)
    && (Putting(s) ==> PutSound(hash, s, s.session.put.value))
    && (s.session.Collecting? && s.session.unlinked.Some? ==> s.session.unlinked.value !in s.references)
  }

  /** Besides, every reference has its file. */
  ghost predicate Inv(hash: Hasher, s: State) {
    Whole(hash, s) && s.references <= s.files.Keys
  }

  lemma {:induction false} EnvelopeComplete(hash: Hasher, bytes: Text)
    requires |bytes| < U64_LIMIT
    ensures Complete(hash, hash(bytes), Encode(bytes))
  {
    hide Encode, Decode;
    DecodeExact(Encode(bytes), bytes);
  }

  lemma {:induction false} CompleteShort(hash: Hasher, id: Digest, bytes: Text)
    requires Complete(hash, id, Encode(bytes))
    ensures |bytes| < U64_LIMIT
  {
    hide Decode;
    DecodeExact(Encode(bytes), Decode(Encode(bytes)).value);
    assert Encode(bytes)[HEADER_LEN..] == bytes;
    assert Encode(Decode(Encode(bytes)).value)[HEADER_LEN..] == Decode(Encode(bytes)).value;
  }

  lemma {:induction false} PowerLossKeepsWhole(hash: Hasher, s: State, step: Step)
    requires Whole(hash, s) && Enabled(hash, s, step) && step.PowerLoss?
    ensures Whole(hash, Apply(hash, s, step))
  {
    hide Complete, Encode, FlushedDisk;
  }

  lemma {:induction false} FlushKeepsWhole(hash: Hasher, s: State)
    requires Whole(hash, s) && Enabled(hash, s, FlushDirectory)
    ensures Whole(hash, Apply(hash, s, FlushDirectory))
  {
    hide Complete, Encode, Survives;
  }

  lemma {:induction false} PuttingKeepsWhole(hash: Hasher, s: State, step: Step)
    requires Whole(hash, s) && Enabled(hash, s, step) && Putting(s) && !step.PowerLoss? && !step.FlushDirectory?
    ensures Whole(hash, Apply(hash, s, step))
  {
    hide Complete, Encode, FlushedDisk, Survives;
    if step.Link? { EnvelopeComplete(hash, s.session.put.value.bytes); }
  }

  /** No step, not even a loss of power, leaves part of an envelope at a final path. */
  lemma {:induction false} StepKeepsWhole(hash: Hasher, s: State, step: Step)
    requires Whole(hash, s) && Enabled(hash, s, step)
    ensures Whole(hash, Apply(hash, s, step))
  {
    hide Complete, Encode, FlushedDisk, Survives;
    if step.PowerLoss? {
      PowerLossKeepsWhole(hash, s, step);
    } else if step.FlushDirectory? {
      FlushKeepsWhole(hash, s);
    } else if Putting(s) {
      PuttingKeepsWhole(hash, s, step);
    } else if step.UseExisting? {
      CompleteShort(hash, hash(step.bytes), step.bytes);
    }
  }

  /** The discipline of a session: it refers only to what it has itself put and recorded. */
  ghost predicate Disciplined(s: State, step: Step) {
    step.Refer? && s.session.Capturing? ==> step.ids <= s.session.recorded
  }

  lemma {:induction false} StepKeeps(hash: Hasher, s: State, step: Step)
    requires Inv(hash, s) && Enabled(hash, s, step) && Disciplined(s, step) && !step.PowerLoss?
    ensures Inv(hash, Apply(hash, s, step))
  {
    hide Complete, Encode;
    StepKeepsWhole(hash, s, step);
  }

  /** Consecutive states of one store, from its creation on. */
  ghost predicate Run(hash: Hasher, states: seq<State>, steps: seq<Step>) {
    && |states| == |steps| + 1 && states[0] == Empty
    && forall i :: 0 <= i < |steps| ==>
      Enabled(hash, states[i], steps[i]) && states[i + 1] == Apply(hash, states[i], steps[i])
  }

  lemma {:induction false} EmptySound(hash: Hasher)
    ensures Inv(hash, Empty) && Whole(hash, Empty)
  {
  }

  /** Whatever happens, power losses and undisciplined references included, files are whole. */
  lemma {:induction false} EveryRunWhole(hash: Hasher, states: seq<State>, steps: seq<Step>, i: nat)
    requires Run(hash, states, steps) && i < |states|
    ensures Whole(hash, states[i])
  {
    hide Enabled, Apply, Whole;
    if i == 0 {
      EmptySound(hash);
    } else {
      EveryRunWhole(hash, states, steps, i - 1);
      StepKeepsWhole(hash, states[i - 1], steps[i - 1]);
    }
  }

  // ----- what the sessions of a recorder do -----

  /** The accesses made so far by the session that stands open after `i` steps. */
  function SessionAccesses(hash: Hasher, states: seq<State>, steps: seq<Step>, i: nat): seq<Access>
    requires |states| == |steps| + 1 && i <= |steps|
  {
    if i == 0 then [] else
      var before := SessionAccesses(hash, states, steps, i - 1);
      match steps[i - 1]
      case OpenCapture => []
      case ConfirmRow =>
        if Putting(states[i - 1]) then before + [Stored(hash(states[i - 1].session.put.value.bytes))] else before
      case Refer(ids) => before + [Referred(ids)]
      case _ => before
  }

  /** What a session has recorded changes only when it opens and when it confirms a row. */
  lemma {:induction false} RecordedStep(hash: Hasher, s: State, step: Step)
    requires Enabled(hash, s, step)
    ensures step.ConfirmRow? ==> Putting(s)
    ensures var after := Apply(hash, s, step);
      after.session.Capturing? ==>
        if step.OpenCapture? then after.session.recorded == {}
        else s.session.Capturing? && after.session.recorded == s.session.recorded
               + if step.ConfirmRow? then {hash(s.session.put.value.bytes)} else {}
  {
    hide Encode, FlushedDisk, Survives;
  }

  lemma {:induction false} RecordedIsStored(hash: Hasher, states: seq<State>, steps: seq<Step>, i: nat)
    requires Run(hash, states, steps) && i < |states|
    ensures states[i].session.Capturing? ==>
      states[i].session.recorded == StoredIn(SessionAccesses(hash, states, steps, i))
  {
    hide Apply, Enabled, StoredIn;
    NothingStored();
    if i > 0 {
      RecordedIsStored(hash, states, steps, i - 1);
      var s, step := states[i - 1], steps[i - 1];
      var before := SessionAccesses(hash, states, steps, i - 1);
      assert Enabled(hash, s, step) && states[i] == Apply(hash, s, step);
      RecordedStep(hash, s, step);
      if step.ConfirmRow? { AccessLast(before, Stored(hash(s.session.put.value.bytes))); }
      if step.Refer? { AccessLast(before, Referred(step.ids)); }
    }
  }

  /** A session that stores before it refers is a disciplined one. */
  lemma {:induction false} StoredFirstDisciplines(hash: Hasher, states: seq<State>, steps: seq<Step>, i: nat)
    requires Run(hash, states, steps) && i < |steps|
    requires StoredFirst(SessionAccesses(hash, states, steps, i + 1))
    ensures Disciplined(states[i], steps[i])
  {
    hide Apply;
    if steps[i].Refer? {
      RecordedIsStored(hash, states, steps, i);
      AccessLast(SessionAccesses(hash, states, steps, i), Referred(steps[i].ids));
    }
  }

  /**
   * However sessions, failures and crashes of the process follow each other: as long as every session
   * stores before it refers, a committed reference always has its row and a whole file, and no final path
   * ever holds part of an envelope.
   */
  lemma {:induction false} EveryRunDurable(hash: Hasher, states: seq<State>, steps: seq<Step>, i: nat)
    requires Run(hash, states, steps) && i < |states|
    requires forall k :: 0 <= k < i ==> !steps[k].PowerLoss?
    requires forall k :: 0 <= k <= i ==> StoredFirst(SessionAccesses(hash, states, steps, k))
    ensures Inv(hash, states[i])
  {
    hide Enabled, Apply, Inv, StoredFirst, SessionAccesses;
    if i == 0 {
      EmptySound(hash);
    } else {
      EveryRunDurable(hash, states, steps, i - 1);
      StoredFirstDisciplines(hash, states, steps, i - 1);
      StepKeeps(hash, states[i - 1], steps[i - 1]);
    }
  }
}
