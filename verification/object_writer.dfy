/** The operation that stores an object, call by call, on top of the crash-safe steps. */
module ObjectWriters {
  import opened Bytes
  import opened Digests
  import opened Durability
  import opened Objects
  import opened Wrappers

  const TEMP_ATTEMPTS := 32

  /** One writer at work on the store; each call to the file system or the database may fail. */
  class Writer {
    const hash: Hasher
    var state: State
    var failures: seq<bool>
    var nextTemp: nat

    constructor (hash: Hasher, state: State, failures: seq<bool>)
      requires Inv(hash, state) && Idle(state)
      ensures this.hash == hash && this.state == state && this.failures == failures
    {
      this.hash := hash;
      this.state := state;
      this.failures := failures;
      nextTemp := 0;
    }

    /** One durable effect, or a failure without any. */
    method Perform(step: Step) returns (done: bool)
      requires Inv(hash, state) && Enabled(hash, state, step) && !step.PowerLoss? && !step.Refer?
      modifies this`state, this`failures
      ensures Inv(hash, state)
      ensures state == if done then Apply(hash, old(state), step) else old(state)
      ensures done == (old(failures) == [] || !old(failures)[0])
      ensures failures == if old(failures) == [] then [] else old(failures)[1..]
      ensures !done ==> true in old(failures)
      ensures true in failures ==> true in old(failures)
    {
      hide Inv, Apply, Enabled;
      StepKeeps(hash, state, step);
      done := failures == [] || !failures[0];
      if failures != [] {
        failures := failures[1..];
      }
      if done {
        state := Apply(hash, state, step);
      }
    }

    /** What can stand in the way: a failing call, other bytes in the object's place, length, or temporary names. */
    ghost predicate Excused(bytes: Text, before: State, failures: seq<bool>, from: nat) {
      || true in failures || |bytes| >= U64_LIMIT
      || (hash(bytes) in before.files && before.files[hash(bytes)] != Encode(bytes))
      || forall k :: from <= k < from + TEMP_ATTEMPTS ==> k in before.temps
    }

    /** Ends a put that cannot be completed; removing the temporary file may fail too. */
    method Abandon()
      requires Inv(hash, state) && Putting(state)
      modifies this`state, this`failures
      ensures Inv(hash, state) && Idle(state) && state.session.recorded == old(state).session.recorded
      ensures state.rows == old(state).rows && state.references == old(state).references
          && state.files == old(state).files
      ensures state.temps == old(state).temps
        || state.temps == old(state).temps - TempOf(old(state).session.put.value)
      ensures true !in old(failures) ==> state.temps == old(state).temps - TempOf(old(state).session.put.value)
      ensures true in failures ==> true in old(failures)
    {
      hide Inv, Complete, Encode;
      StepKeeps(hash, state, GiveUp(false));
      var removed := Perform(GiveUp(true));
      if !removed {
        state := Apply(hash, state, GiveUp(false));
      }
    }

    /**
     * Installs an object and records its row. Success allows the session to refer to it; failure at any
     * point changes neither the references nor what the session may refer to.
     */
    method PutObject(bytes: Text) returns (r: Result<Digest, ObjectError>)
      requires Inv(hash, state) && Idle(state)
      modifies this
      ensures Inv(hash, state) && Idle(state)
      ensures r.Success? ==> r.value == hash(bytes) && r.value in state.session.recorded
      ensures state.session.recorded == old(state).session.recorded + (if r.Success? then {hash(bytes)} else {})
      ensures state.rows == old(state).rows + {hash(bytes)} || (r.Failure? && state.rows == old(state).rows)
      ensures state.references == old(state).references
      ensures forall id :: id in old(state).files ==> id in state.files && state.files[id] == old(state).files[id]
      ensures forall id :: id in state.files ==> id in old(state).files || id == hash(bytes)
      ensures r.Failure? ==> Excused(bytes, old(state), old(failures), old(nextTemp))
      ensures r.Success? || true !in old(failures) ==> state.temps == old(state).temps
    {
      hide Inv, Complete, Encode, FlushedDisk, Survives;
      assert old(state).session.recorded + {} == old(state).session.recorded;
      var error := FindOrInstall(bytes);
      if error.Some? {
        return Failure(error.value);
      }
      error := RecordRow(bytes);
      if error.Some? {
        return Failure(error.value);
      }
      return Success(hash(bytes));
    }

    /** Makes the fan-out directory if it is missing, and then uses the file in place or installs one. */
    method FindOrInstall(bytes: Text) returns (error: Option<ObjectError>)
      requires Inv(hash, state) && Idle(state)
      modifies this
      ensures Inv(hash, state)
      ensures if error.None? then Putting(state) && state.session.put.value == Installed(bytes) else Idle(state)
      ensures state.session.recorded == old(state).session.recorded
      ensures state.rows == old(state).rows && state.references == old(state).references
      ensures forall id :: id in old(state).files ==> id in state.files && state.files[id] == old(state).files[id]
      ensures forall id :: id in state.files ==> id in old(state).files || id == hash(bytes)
      ensures error.Some? ==> Excused(bytes, old(state), old(failures), old(nextTemp))
      ensures error.None? || true !in old(failures) ==> state.temps == old(state).temps
      ensures true in failures ==> true in old(failures)
    {
      hide Inv, Complete, Encode, FlushedDisk, Survives;
      var id := hash(bytes);
      if id[0] !in state.folders {
        var made := Perform(MakeFanOut(id[0]));
        if !made { return Some(Io); }
      }
      if id in state.files {
        if state.files[id] != Encode(bytes) { return Some(DigestMismatch); }
        var found := Perform(UseExisting(bytes));
        return if found then None else Some(Io);
      }
      if |bytes| >= U64_LIMIT { return Some(TooLarge); }
      var began := Perform(FindAbsent(bytes));
      if !began { return Some(Io); }
      error := Install(bytes);
      if error.Some? { Abandon(); }
    }

    /** The metadata row of an installed object, read back. */
    method RecordRow(bytes: Text) returns (error: Option<ObjectError>)
      requires Inv(hash, state) && Putting(state) && state.session.put.value == Installed(bytes)
      modifies this
      ensures Inv(hash, state) && Idle(state)
      ensures state.session.recorded == old(state).session.recorded + (if error.None? then {hash(bytes)} else {})
      ensures error.None? ==> state.rows == old(state).rows + {hash(bytes)}
      ensures state.rows == old(state).rows + {hash(bytes)} || state.rows == old(state).rows
      ensures state.references == old(state).references && state.files == old(state).files
      ensures error.Some? ==> true in old(failures)
      ensures error.None? ==> state.temps == old(state).temps
    {
      hide Inv, Complete, Encode, FlushedDisk, Survives;
      assert old(state).session.recorded + {} == old(state).session.recorded;
      var inserted := Perform(InsertRow);
      if !inserted {
        Abandon();
        return Some(Io);
      }
      var confirmed := Perform(ConfirmRow);
      if !confirmed {
        Abandon();
        return Some(Io);
      }
      return None;
    }

    /** Temporary file, flush, second name, directory flush, removal of the first name. */
    method Install(bytes: Text) returns (error: Option<ObjectError>)
      requires Inv(hash, state) && Putting(state) && state.session.put.value == Absent(bytes)
      requires hash(bytes) !in state.files
      modifies this
      ensures Inv(hash, state) && Putting(state) && state.session.recorded == old(state).session.recorded
      ensures state.rows == old(state).rows && state.references == old(state).references
      ensures error.None? ==> state.session.put.value == Installed(bytes)
      ensures error.None? ==> state.temps == old(state).temps
      ensures error.Some? && true !in old(failures) ==>
        state.temps == old(state).temps && state.session.put.value.Absent?
      ensures forall id :: id in old(state).files ==> id in state.files && state.files[id] == old(state).files[id]
      ensures forall id :: id in state.files ==> id in old(state).files || id == hash(bytes)
      ensures error.Some? ==>
        || true in old(failures)
        || forall k :: old(nextTemp) <= k < old(nextTemp) + TEMP_ATTEMPTS ==> k in old(state).temps
      ensures true in failures ==> true in old(failures)
    {
      hide Inv, Complete, Encode, FlushedDisk, Survives;
      error := WriteEnvelope(bytes);
      if error.Some? { return; }
      var done := Perform(Link);
      if !done { return Some(Io); }
      error := FlushAndClean(bytes);
    }

    /** Directory flush and removal of the first name. */
    method FlushAndClean(bytes: Text) returns (error: Option<ObjectError>)
      requires Inv(hash, state) && Putting(state) && state.session.put.value.Linked?
      requires state.session.put.value.bytes == bytes
      modifies this
      ensures Inv(hash, state) && Putting(state) && state.session.recorded == old(state).session.recorded
      ensures state.rows == old(state).rows && state.references == old(state).references
          && state.files == old(state).files
      ensures error.None? ==> state.session.put.value == Installed(bytes)
      ensures error.None? ==> state.temps == old(state).temps - {old(state).session.put.value.temp}
      ensures error.Some? ==> true in old(failures)
      ensures true in failures ==> true in old(failures)
    {
      hide Inv, Complete, Encode, FlushedDisk, Survives;
      var done := Perform(FlushDirectory);
      if !done { return Some(Io); }
      done := Perform(RemoveTemp);
      return if done then None else Some(Io);
    }

    /** A flushed temporary file holding the whole envelope. */
    method WriteEnvelope(bytes: Text) returns (error: Option<ObjectError>)
      requires Inv(hash, state) && Putting(state) && state.session.put.value == Absent(bytes)
      modifies this
      ensures Inv(hash, state) && Putting(state) && state.session.recorded == old(state).session.recorded
      ensures state.rows == old(state).rows && state.references == old(state).references
          && state.files == old(state).files
      ensures error.None? ==>
        && state.session.put.value.Flushed? && state.session.put.value.bytes == bytes
        && state.session.put.value.temp !in old(state).temps
        && state.temps == old(state).temps[state.session.put.value.temp := Encode(bytes)]
      ensures error.Some? && true !in old(failures) ==>
        state.temps == old(state).temps && state.session.put.value.Absent?
      ensures error.Some? ==>
        || true in old(failures)
        || forall k :: old(nextTemp) <= k < old(nextTemp) + TEMP_ATTEMPTS ==> k in old(state).temps
      ensures true in failures ==> true in old(failures)
    {
      hide Inv, Complete, Encode, FlushedDisk, Survives;
      var temp := UnusedTemp();
      if temp.None? { return Some(Io); }
      var done := Perform(CreateTemp(temp.value));
      if !done { return Some(Io); }
      done := Perform(WriteTemp(Encode(bytes)));
      if !done { return Some(Io); }
      done := Perform(FlushTemp);
      if !done { return Some(Io); }
      return None;
    }

    /** Tries a few numbers for one that no temporary file carries. */
    method UnusedTemp() returns (temp: Option<nat>)
      modifies this`nextTemp
      ensures temp.Some? ==> temp.value !in state.temps
      ensures temp.None? ==> forall k :: old(nextTemp) <= k < old(nextTemp) + TEMP_ATTEMPTS ==> k in state.temps
    {
      for attempt := 0 to TEMP_ATTEMPTS
        invariant nextTemp == old(nextTemp) + attempt
        invariant forall k :: old(nextTemp) <= k < nextTemp ==> k in state.temps
      {
        nextTemp := nextTemp + 1;
        if nextTemp - 1 !in state.temps {
          return Some(nextTemp - 1);
        }
      }
      return None;
    }
  }
}
