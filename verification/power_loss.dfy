/** Losing power: what survives of the object directories, and when that loses no reference. */
module PowerLosses {
  import opened Bytes
  import opened Digests
  import opened Durability
  import opened Objects
  import opened Wrappers

  /** Entries that no loss of power can take: flushed, in a directory whose own entry is permanent. */
  function Lasting(s: State): set<Digest> {
    set id | id in s.disk && id[0] in s.fixed
  }

  /** What is referred to, or may soon be, lasts. */
  ghost predicate Permanent(hash: Hasher, s: State) {
    && s.references <= Lasting(s)
    && (s.session.Capturing? ==> s.session.recorded <= Lasting(s))
    && (Putting(s) && (s.session.put.value.Placed? || s.session.put.value.Installed?) ==>
          hash(s.session.put.value.bytes) in s.disk)
  }

  /**
   * A put is covered when a file it finds at the final path had been flushed, and when the entry of its
   * fan-out directory is permanent by the time its row is confirmed.
   */
  ghost predicate Covered(hash: Hasher, s: State, step: Step) {
    && Disciplined(s, step)
    && (step.UseExisting? ==> hash(step.bytes) in s.disk)
    && (step.LinkFindsExisting? && Putting(s) ==> hash(s.session.put.value.bytes) in s.disk)
    && (step.ConfirmRow? && Putting(s) ==> hash(s.session.put.value.bytes)[0] in s.fixed)
  }

  lemma {:induction false} EmptyPermanent(hash: Hasher)
    ensures Permanent(hash, Empty)
  {
  }

  lemma {:induction false} PowerLossKeeps(hash: Hasher, s: State, step: Step)
    requires Inv(hash, s) && Permanent(hash, s) && Enabled(hash, s, step) && step.PowerLoss?
    ensures Inv(hash, Apply(hash, s, step)) && Permanent(hash, Apply(hash, s, step))
  {
    hide Complete, Encode;
    StepKeepsWhole(hash, s, step);
  }

  lemma {:induction false} CoveredStepKeeps(hash: Hasher, s: State, step: Step)
    requires Inv(hash, s) && Permanent(hash, s) && Enabled(hash, s, step) && Covered(hash, s, step)
    ensures Inv(hash, Apply(hash, s, step)) && Permanent(hash, Apply(hash, s, step))
  {
    hide Inv;
    if step.PowerLoss? {
      PowerLossKeeps(hash, s, step);
    } else {
      StepKeeps(hash, s, step);
      CoveredKeepsPermanent(hash, s, step);
    }
  }

  lemma {:induction false} CoveredKeepsPermanent(hash: Hasher, s: State, step: Step)
    requires Inv(hash, s) && Permanent(hash, s) && Enabled(hash, s, step) && Covered(hash, s, step)
    requires !step.PowerLoss?
    ensures Permanent(hash, Apply(hash, s, step))
  {
    hide Complete, Encode, AllComplete, AllWithin, Survives;
  }

  /** If every put is covered, power may fail at any moment as well. */
  lemma {:induction false} CoveredRunSurvivesPowerLoss(hash: Hasher, states: seq<State>, steps: seq<Step>, i: nat)
    requires Run(hash, states, steps) && i < |states|
    requires forall k :: 0 <= k < i ==> Covered(hash, states[k], steps[k])
    ensures Inv(hash, states[i]) && Permanent(hash, states[i])
  {
    hide Enabled, Apply, Inv, Permanent, Covered;
    if i == 0 {
      EmptySound(hash);
      EmptyPermanent(hash);
    } else {
      CoveredRunSurvivesPowerLoss(hash, states, steps, i - 1);
      CoveredStepKeeps(hash, states[i - 1], steps[i - 1]);
    }
  }

  /** The branches of a put that leave something unflushed: a new directory, and a file found in place. */
  predicate Risky(step: Step) {
    step.MakeFanOut? || step.UseExisting? || step.LinkFindsExisting?
  }

  /**
   * Seen from outside: once everything written so far is permanent, power may fail at any later moment,
   * as long as no put makes a directory or finds its file in place.
   */
  lemma {:induction false} SettledRunSurvivesPowerLoss(
    hash: Hasher, states: seq<State>, steps: seq<Step>, settled: nat, i: nat)
    requires Run(hash, states, steps) && settled < i < |states| && steps[settled].Settle?
    requires Inv(hash, states[settled])
    requires forall k :: settled <= k < i ==> Disciplined(states[k], steps[k]) && !Risky(steps[k])
    ensures Inv(hash, states[i]) && Permanent(hash, states[i]) && states[i].fixed == states[i].folders
  {
    hide Inv, Apply, Enabled, Permanent, Covered, Risky, Disciplined;
    var before, step := states[i - 1], steps[i - 1];
    assert Enabled(hash, before, step) && states[i] == Apply(hash, before, step);
    if i == settled + 1 {
      SettleFixes(hash, before);
    } else {
      SettledRunSurvivesPowerLoss(hash, states, steps, settled, i - 1);
      QuietStepCovered(hash, before, step);
      CoveredStepKeeps(hash, before, step);
      QuietStepFixes(hash, before, step);
    }
  }

  lemma {:induction false} SettleFixes(hash: Hasher, s: State)
    requires Inv(hash, s)
    ensures Inv(hash, Apply(hash, s, Settle)) && Permanent(hash, Apply(hash, s, Settle))
    ensures Apply(hash, s, Settle).fixed == Apply(hash, s, Settle).folders
  {
    hide Complete, Encode;
  }

  lemma {:induction false} QuietStepCovered(hash: Hasher, s: State, step: Step)
    requires Inv(hash, s) && Enabled(hash, s, step) && Disciplined(s, step) && !Risky(step) && s.fixed == s.folders
    ensures Covered(hash, s, step)
  {
    hide Complete, Encode;
  }

  lemma {:induction false} QuietStepFixes(hash: Hasher, s: State, step: Step)
    requires Enabled(hash, s, step) && !Risky(step) && s.fixed == s.folders
    ensures Apply(hash, s, step).fixed == Apply(hash, s, step).folders
  {
    hide Complete, Encode, FlushedDisk;
  }

  /**
   * Losing power keeps every reference exactly when every referenced entry was flushed and the entry of
   * its fan-out directory is permanent.
   */
  lemma {:induction false} PowerLossSafeExactly(hash: Hasher, s: State)
    requires Inv(hash, s)
    ensures s.references <= Lasting(s) <==>
      forall outcome, kept, leftovers :: Enabled(hash, s, PowerLoss(outcome, kept, leftovers)) ==>
        Inv(hash, Apply(hash, s, PowerLoss(outcome, kept, leftovers)))
  {
    hide Complete;
    if !(s.references <= Lasting(s)) {
      var worst := map id | id in s.files && id in s.disk && id[0] in s.fixed :: s.files[id];
      var loss := PowerLoss(worst, s.fixed, map[]);
      assert Survives(s, worst, s.fixed);
      assert Enabled(hash, s, loss) && !Inv(hash, Apply(hash, s, loss));
    } else {
      forall outcome, kept, leftovers | Enabled(hash, s, PowerLoss(outcome, kept, leftovers))
        ensures Inv(hash, Apply(hash, s, PowerLoss(outcome, kept, leftovers)))
      {
        StepKeepsWhole(hash, s, PowerLoss(outcome, kept, leftovers));
      }
    }
  }

  // ----- what can go wrong otherwise -----

  /** Some run ends in this state, with or without a loss of power on the way. */
  ghost predicate Reachable(hash: Hasher, s: State, powerLost: bool) {
    exists states: seq<State>, steps: seq<Step> ::
      && Run(hash, states, steps) && states[|steps|] == s
      && (powerLost || forall k :: 0 <= k < |steps| ==> !steps[k].PowerLoss?)
  }

  lemma {:induction false} ReachEmpty(hash: Hasher)
    ensures Reachable(hash, Empty, false)
  {
    var states, steps: seq<Step> := [Empty], [];
    assert Run(hash, states, steps) && states[|steps|] == Empty;
  }

  lemma {:induction false} ReachNext(hash: Hasher, s: State, powerLost: bool, step: Step, next: State)
    requires Reachable(hash, s, powerLost) && Enabled(hash, s, step) && next == Apply(hash, s, step)
    ensures Reachable(hash, next, powerLost || step.PowerLoss?)
  {
    hide Enabled, Apply;
    var states: seq<State>, steps: seq<Step> :|
      Run(hash, states, steps) && states[|steps|] == s
      && (powerLost || forall k :: 0 <= k < |steps| ==> !steps[k].PowerLoss?);
    var more, longer := steps + [step], states + [next];
    forall i | 0 <= i < |more|
      ensures Enabled(hash, longer[i], more[i]) && longer[i + 1] == Apply(hash, longer[i], more[i]) {
      if i < |steps| { assert longer[i] == states[i] && longer[i + 1] == states[i + 1] && more[i] == steps[i]; }
    }
    assert Run(hash, longer, more) && longer[|more|] == next;
  }

  /** A first put, up to the moment its file is visible but its directory not flushed. */
  ghost function JustLinked(hash: Hasher, bytes: Text, fixed: set<Byte>): State {
    State(map[hash(bytes) := Encode(bytes)], map[], {hash(bytes)[0]}, fixed, map[0 := Encode(bytes)], {}, {},
      Capturing({}, Some(Linked(bytes, 0))))
  }

  /** The first put of a store, with or without everything being made permanent after its directory is there. */
  lemma {:induction false} LinkReached(hash: Hasher, bytes: Text, settled: bool)
    requires |bytes| < U64_LIMIT
    ensures Reachable(hash, JustLinked(hash, bytes, if settled then {hash(bytes)[0]} else {}), false)
  {
    hide Encode, Reachable, Run;
    var s0 := Empty.(session := Capturing({}, None));
    var made := s0.(folders := {hash(bytes)[0]});
    var start := if settled then made.(fixed := made.folders) else made;
    ReachEmpty(hash);
    ReachNext(hash, Empty, false, OpenCapture, s0);
    assert s0.folders + {hash(bytes)[0]} == {hash(bytes)[0]};
    ReachNext(hash, s0, false, MakeFanOut(hash(bytes)[0]), made);
    if settled { ReachNext(hash, made, false, Settle, start); }
    WritesReached(hash, bytes, start);
  }

  lemma {:induction false} WritesReached(hash: Hasher, bytes: Text, start: State)
    requires |bytes| < U64_LIMIT && Reachable(hash, start, false) && Idle(start) && start.session.recorded == {}
    requires start.files == map[] && start.temps == map[] && start.folders == {hash(bytes)[0]}
    ensures Reachable(
      hash, start.(files := map[hash(bytes) := Encode(bytes)], temps := map[0 := Encode(bytes)],
                   session := Capturing({}, Some(Linked(bytes, 0)))), false)
  {
    hide Encode, Reachable, Run, FlushedDisk, Survives;
    var s1 := Holding(start, Absent(bytes));
    var s2 := Holding(start, Writing(bytes, 0)).(temps := map[0 := []]);
    ReachNext(hash, start, false, FindAbsent(bytes), s1);
    ReachNext(hash, s1, false, CreateTemp(0), s2);
    LinkedFromTemp(hash, bytes, s2);
  }

  lemma {:induction false} LinkedFromTemp(hash: Hasher, bytes: Text, s: State)
    requires Reachable(hash, s, false) && s.session == Capturing({}, Some(Writing(bytes, 0)))
    requires s.files == map[] && s.temps == map[0 := []]
    ensures Reachable(
      hash, s.(files := map[hash(bytes) := Encode(bytes)], temps := map[0 := Encode(bytes)],
               session := Capturing({}, Some(Linked(bytes, 0)))), false)
  {
    hide Encode, Reachable, Run, FlushedDisk, Survives;
    var written := s.(temps := map[0 := Encode(bytes)]);
    var flushed := Holding(written, Flushed(bytes, 0));
    ReachNext(hash, s, false, WriteTemp(Encode(bytes)), written);
    ReachNext(hash, written, false, FlushTemp, flushed);
    ReachNext(hash, flushed, false, Link,
      Holding(flushed, Linked(bytes, 0)).(files := map[hash(bytes) := Encode(bytes)]));
  }

  /**
   * A put that finds its file in place flushes nothing. The first put links its file and is cut off before
   * the directory flush; the second finds the file whole, and its reference is committed: a loss of power
   * takes the file away although the fan-out directory is permanent.
   */
  lemma {:induction false} UncoveredPutLosesReference(hash: Hasher, bytes: Text)
    requires |bytes| < U64_LIMIT
    ensures exists s :: Reachable(hash, s, true)
                        && hash(bytes) in s.references && hash(bytes) !in s.files && hash(bytes)[0] in s.fixed
  {
    hide Encode, Complete, Reachable, Run;
    var id := hash(bytes);
    var linked := JustLinked(hash, bytes, {id[0]});
    var s0 := linked.(session := Closed);
    var s1 := linked.(session := Capturing({}, None));
    var s2 := linked.(session := Capturing({}, Some(Installed(bytes))));
    LinkReached(hash, bytes, true);
    ReachNext(hash, linked, false, Crash, s0);
    ReachNext(hash, s0, false, OpenCapture, s1);
    ReachNext(hash, s1, false, UseExisting(bytes), s2);
    ReferenceReached(hash, bytes, s2);
    var s4 := Referring(hash, bytes, s2);
    var lost := State(map[], map[], s4.fixed, s4.fixed, map[], s4.rows, s4.references, Closed);
    assert Survives(s4, map[], s4.fixed);
    ReachNext(hash, s4, false, PowerLoss(map[], s4.fixed, map[]), lost);
  }

  /** The state after the row of an installed file has been confirmed and a reference committed. */
  ghost function Referring(hash: Hasher, bytes: Text, s: State): State {
    s.(rows := s.rows + {hash(bytes)}, references := s.references + {hash(bytes)},
       session := Capturing({hash(bytes)}, None))
  }

  lemma {:induction false} ReferenceReached(hash: Hasher, bytes: Text, s: State)
    requires Reachable(hash, s, false) && s.session == Capturing({}, Some(Installed(bytes)))
    ensures Reachable(hash, Referring(hash, bytes, s), false)
  {
    hide Encode, Complete, Reachable, Run;
    var id := hash(bytes);
    var inserted := s.(rows := s.rows + {id});
    var confirmed := inserted.(session := Capturing({} + {id}, None));
    assert {} + {id} == {id};
    ReachNext(hash, s, false, InsertRow, inserted);
    ReachNext(hash, inserted, false, ConfirmRow, confirmed);
    ReachNext(hash, confirmed, false, Refer({id}), Referring(hash, bytes, s));
  }

  /** An uninterrupted first put under a new prefix, up to the removal of its temporary file. */
  ghost function FirstPut(hash: Hasher, bytes: Text): State {
    var id := hash(bytes);
    State(map[id := Encode(bytes)], map[id := Encode(bytes)], {id[0]}, {}, map[], {}, {},
      Capturing({}, Some(Installed(bytes))))
  }

  lemma {:induction false} FirstPutReached(hash: Hasher, bytes: Text)
    requires |bytes| < U64_LIMIT
    ensures Reachable(hash, FirstPut(hash, bytes), false)
  {
    hide Encode, Complete, Reachable, Run;
    var id := hash(bytes);
    var linked := JustLinked(hash, bytes, {});
    var s0 := Holding(linked, Placed(bytes, 0)).(disk := FlushedDisk(linked.files, linked.disk, id[0]));
    assert s0.disk == map[id := Encode(bytes)];
    LinkReached(hash, bytes, false);
    ReachNext(hash, linked, false, FlushDirectory, s0);
    assert s0.temps - {0} == map[];
    ReachNext(hash, s0, false, RemoveTemp, FirstPut(hash, bytes));
  }

  /**
   * A new fan-out directory is itself an entry that nothing flushes. The very first put under a prefix,
   * completed without any interruption and finding no file in place, can lose its reference.
   */
  lemma {:induction false} FirstPutLosesReference(hash: Hasher, bytes: Text)
    requires |bytes| < U64_LIMIT
    ensures exists s :: Reachable(hash, s, true)
                        && hash(bytes) in s.references && hash(bytes) !in s.files && hash(bytes)[0] !in s.folders
  {
    hide Encode, Complete, Reachable, Run;
    var put := FirstPut(hash, bytes);
    FirstPutReached(hash, bytes);
    ReferenceReached(hash, bytes, put);
    var s := Referring(hash, bytes, put);
    var lost := State(map[], map[], {}, {}, map[], s.rows, s.references, Closed);
    assert Survives(s, map[], {});
    ReachNext(hash, s, false, PowerLoss(map[], {}, map[]), lost);
  }

  /** A store that holds one object nothing refers to, between two sessions. */
  ghost function Unreferenced(hash: Hasher, bytes: Text): State {
    FirstPut(hash, bytes).(rows := {hash(bytes)}, session := Closed)
  }

  lemma {:induction false} UnreferencedReached(hash: Hasher, bytes: Text)
    requires |bytes| < U64_LIMIT
    ensures Reachable(hash, Unreferenced(hash, bytes), false)
  {
    hide Encode, Complete, Reachable, Run;
    var id := hash(bytes);
    var put := FirstPut(hash, bytes);
    var inserted := put.(rows := {id});
    var confirmed := inserted.(session := Capturing({id}, None));
    FirstPutReached(hash, bytes);
    assert put.rows + {id} == {id} && {} + {id} == {id};
    ReachNext(hash, put, false, InsertRow, inserted);
    ReachNext(hash, inserted, false, ConfirmRow, confirmed);
    ReachNext(hash, confirmed, false, Close, Unreferenced(hash, bytes));
  }

  /**
   * A row alone would not justify a reference, though a row is all the store asks for: a collector cut off
   * between the file and the row leaves a row without a file, and a later session that referred to it
   * without storing it again would commit a reference to nothing.
   */
  lemma {:induction false} RowsMayLackFiles(hash: Hasher, bytes: Text)
    requires |bytes| < U64_LIMIT
    ensures exists s :: Reachable(hash, s, false) && Idle(s) && Enabled(hash, s, Refer({hash(bytes)}))
                        && hash(bytes) !in s.files && !Inv(hash, Apply(hash, s, Refer({hash(bytes)})))
  {
    hide Encode, Complete, Reachable, Run;
    var id := hash(bytes);
    var s0 := Unreferenced(hash, bytes);
    var s1 := s0.(session := Collecting(None));
    var s2 := s1.(files := map[], session := Collecting(Some(id)));
    var s3 := s2.(session := Closed);
    var s4 := s3.(session := Capturing({}, None));
    UnreferencedReached(hash, bytes);
    assert s1.files - {id} == map[];
    ReachNext(hash, s0, false, OpenCollector, s1);
    ReachNext(hash, s1, false, Unlink(id), s2);
    ReachNext(hash, s2, false, Crash, s3);
    ReachNext(hash, s3, false, OpenCapture, s4);
    assert Enabled(hash, s4, Refer({id}));
  }
}
