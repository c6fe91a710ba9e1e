/** What the coordinator does with the bytes of the terminal: store first, refer afterwards. */
module Captures {
  import opened Accesses
  import opened Bytes
  import opened Digests
  import opened Events
  import opened Recording
  import opened RunStores
  import opened Wrappers

  datatype InputPolicy = Always | Never | Auto

  const ECHO_UNCERTAIN := 7

  /** Whether typed input is kept out of the recording; under `Auto` only an echoed character is kept. */
  predicate Redacts(policy: InputPolicy, echo: Option<bool>) {
    match policy
    case Always => false
    case Never => true
    case Auto => echo != Some(true)
  }

  /** Input is kept exactly when the policy always keeps it, or keeps what is echoed and it is known to be. */
  lemma KeptExactly(policy: InputPolicy, echo: Option<bool>)
    ensures !Redacts(policy, echo) <==> policy.Always? || (policy.Auto? && echo.Some? && echo.value)
    ensures Uncertain(policy, echo) ==> Redacts(policy, echo)
    ensures Uncertain(policy, echo) <==> policy.Auto? && echo.None?
  {
  }

  /** Whether the input is kept out only because the echo setting could not be read. */
  predicate Uncertain(policy: InputPolicy, echo: Option<bool>) {
    policy.Auto? && echo.None?
  }

  class TerminalRecorder {
    const recorder: Recorder
    const hash: Text -> Digest
    const terminalMaxBytes: nat
    const policy: InputPolicy
    var terminalOutputBytes: nat
    var echoWarningEmitted: bool

    /** The counter is the terminal output in the timeline, as long as no store transaction has failed. */
    ghost predicate Valid()
      reads this, recorder, recorder.store, recorder.sequencer
    {
      && recorder.Valid() && terminalOutputBytes <= terminalMaxBytes < U64_LIMIT
      && (recorder.Recording() ==> terminalOutputBytes == OutputBytes(Total(recorder.Abs())))
    }

    constructor (recorder: Recorder, hash: Text -> Digest, terminalMaxBytes: nat, policy: InputPolicy)
      requires recorder.Valid() && recorder.Recording() && terminalMaxBytes < U64_LIMIT
      requires OutputBytes(Total(recorder.Abs())) == 0
      ensures Valid() && this.recorder == recorder && this.hash == hash && terminalOutputBytes == 0
      ensures this.terminalMaxBytes == terminalMaxBytes && this.policy == policy
    {
      hide Ordered, Accounted, LogValid, StoresFirst, Exact, Ended, Uncompleted, StateValid, Total, OutputBytes;
      this.recorder := recorder;
      this.hash := hash;
      this.terminalMaxBytes := terminalMaxBytes;
      this.policy := policy;
      terminalOutputBytes := 0;
      echoWarningEmitted := false;
    }

    /**
     * What may keep bytes from being recorded within the limits: no bytes at all, the same digest with another
     * length, an outage, or numbers beyond those of the store.
     */
    ghost predicate Refusable(bytes: Text, objects: Objects, outages: seq<bool>, next: nat)
      reads recorder
    {
      || bytes == [] || next + 1 >= U64_LIMIT
      || (hash(bytes) in objects && objects[hash(bytes)] != |bytes|)
      || true in outages || !InRange(recorder.pending)
    }

    /**
     * Records a chunk of output. Its bytes are stored by this session before any event names them; a chunk
     * over the terminal limit leaves a durable warning instead, and is not stored.
     */
    method RecordOutput(bytes: Text) returns (error: Option<CaptureError>)
      requires Valid() && !recorder.finished
      modifies this`terminalOutputBytes, recorder, recorder.store, recorder.sequencer
      ensures Valid() && !recorder.finished
      ensures error.Some? ==> terminalOutputBytes == old(terminalOutputBytes)
      ensures error.None? ==> terminalOutputBytes == old(terminalOutputBytes) + |bytes|
      ensures error.None? ==> hash(bytes) in StoredIn(recorder.accesses)
      ensures error.None? && !recorder.gapped ==>
        Grew(Total(old(recorder.Abs())), Total(recorder.Abs()), [TerminalOutput(hash(bytes), |bytes|)])
      ensures error == Some(TerminalOutputLimit) ==>
        old(terminalOutputBytes) + |bytes| > terminalMaxBytes && recorder.store.objects == old(recorder.store.objects)
      ensures error == Some(TerminalOutputLimit) && !recorder.gapped ==>
        && recorder.pending == []
        && Grew(Total(old(recorder.Abs())), Total(recorder.Abs()), [RecorderWarning(STORAGE_LIMIT)])
      ensures old(terminalOutputBytes) + |bytes| > terminalMaxBytes ==> error.Some?
      ensures error.Some? && !old(recorder.broken) ==>
        || Refusable(bytes, old(recorder.store.objects), old(recorder.store.outages), old(recorder.sequencer.next))
        || old(terminalOutputBytes) + |bytes| > terminalMaxBytes
        || old(recorder.logicalBytes) + (if hash(bytes) in old(recorder.accounted) then 0 else |bytes|)
             > recorder.maxRunBytes
    {
      hide Ordered, Accounted, LogValid, Grew, OnlyGrew, StoresFirst, Exact, Ended, Uncompleted, StateValid;
      hide Gapped, InRange, StoredIn, Total;
      var next := terminalOutputBytes + |bytes|;
      if next > terminalMaxBytes {
        error := RefuseOutput();
        return;
      }
      var id := hash(bytes);
      var failure := recorder.PutObject(id, |bytes|);
      if failure.Some? {
        return failure;
      }
      SameTotal(old(recorder.Abs()), recorder.Abs());
      var emitted := recorder.EmitObjectReference(id, |bytes|, TerminalOutput(id, |bytes|));
      if emitted.Failure? {
        if !recorder.broken {
          OutputGrew(Total(old(recorder.Abs())), Total(recorder.Abs()),
            if emitted.error.RunStorageLimit? then [RecorderWarning(STORAGE_LIMIT)] else []);
        }
        return Some(emitted.error);
      }
      if !recorder.broken {
        OutputGrew(Total(old(recorder.Abs())), Total(recorder.Abs()), [TerminalOutput(id, |bytes|)]);
      }
      terminalOutputBytes := next;
      return None;
    }

    /** Makes the warning about the terminal limit durable. */
    method RefuseOutput() returns (error: Option<CaptureError>)
      requires Valid() && !recorder.finished
      modifies recorder, recorder.store, recorder.sequencer
      ensures Valid() && !recorder.finished && recorder.store.objects == old(recorder.store.objects)
      ensures error.Some?
      ensures error == Some(TerminalOutputLimit) && !recorder.gapped ==>
        && recorder.pending == []
        && Grew(Total(old(recorder.Abs())), Total(recorder.Abs()), [RecorderWarning(STORAGE_LIMIT)])
    {
      hide Ordered, Accounted, LogValid, Grew, OnlyGrew, StoresFirst, Exact, Ended, Uncompleted, StateValid;
      hide Gapped, InRange, StoredIn, Total;
      var warned := recorder.Warning(STORAGE_LIMIT);
      if !recorder.broken {
        OutputGrew(Total(old(recorder.Abs())), Total(recorder.Abs()),
          if warned.Success? then [RecorderWarning(STORAGE_LIMIT)] else []);
      }
      if warned.Failure? {
        return Some(warned.error);
      }
      var failure := recorder.FlushAll();
      if failure.Some? {
        return failure;
      }
      return Some(TerminalOutputLimit);
    }

    /**
     * Records typed input. Redacted input leaves only its length: nothing is stored for it and no event
     * names an object.
     */
    method RecordInput(bytes: Text, echo: Option<bool>) returns (error: Option<CaptureError>)
      requires Valid() && !recorder.finished
      modifies this`echoWarningEmitted, recorder, recorder.store, recorder.sequencer
      ensures Valid() && !recorder.finished
      ensures Redacts(policy, echo) ==>
        && recorder.store.objects == old(recorder.store.objects)
        && StoredIn(recorder.accesses) == StoredIn(old(recorder.accesses))
      ensures error.None? && !Redacts(policy, echo) ==> hash(bytes) in StoredIn(recorder.accesses)
      ensures error.None? && !recorder.gapped ==>
        Grew(Total(old(recorder.Abs())), Total(recorder.Abs()),
             (if Uncertain(policy, echo) && !old(echoWarningEmitted) then [RecorderWarning(ECHO_UNCERTAIN)] else [])
             + [if Redacts(policy, echo) then TerminalInputRedacted(|bytes|)
                else TerminalInput(hash(bytes), |bytes|)])
      ensures error.None? ==> echoWarningEmitted == (old(echoWarningEmitted) || Uncertain(policy, echo))
      ensures echoWarningEmitted ==> old(echoWarningEmitted) || Uncertain(policy, echo)
      ensures error.Some? && !old(recorder.broken) && Redacts(policy, echo) ==>
        || bytes == [] || old(recorder.sequencer.next) + 2 >= U64_LIMIT
        || true in old(recorder.store.outages) || !InRange(recorder.pending)
      ensures error.Some? && !old(recorder.broken) && !Redacts(policy, echo) ==>
        || Refusable(bytes, old(recorder.store.objects), old(recorder.store.outages), old(recorder.sequencer.next))
        || old(recorder.logicalBytes) + (if hash(bytes) in old(recorder.accounted) then 0 else |bytes|)
             > recorder.maxRunBytes
    {
      hide Ordered, Accounted, LogValid, Grew, OnlyGrew, StoresFirst, Exact, Ended, Uncompleted, StateValid;
      hide Gapped, InRange, StoredIn, Total;
      if !Redacts(policy, echo) {
        error := RecordRetainedInput(bytes);
        assert [] + [TerminalInput(hash(bytes), |bytes|)] == [TerminalInput(hash(bytes), |bytes|)];
        return;
      }
      assert [] + [TerminalInputRedacted(|bytes|)] == [TerminalInputRedacted(|bytes|)];
      ghost var warnings: seq<Payload> := [];
      ghost var middle := recorder.Abs();
      if Uncertain(policy, echo) && !echoWarningEmitted {
        var warned := recorder.Warning(ECHO_UNCERTAIN);
        middle := recorder.Abs();
        if !recorder.broken {
          OutputGrew(Total(old(recorder.Abs())), Total(middle),
            if warned.Success? then [RecorderWarning(ECHO_UNCERTAIN)] else []);
        }
        if warned.Failure? {
          return Some(warned.error);
        }
        warnings := [RecorderWarning(ECHO_UNCERTAIN)];
        echoWarningEmitted := true;
      }
      error := EmitRedacted(|bytes|);
      if error.None? && !recorder.gapped && warnings != [] {
        GrewTwice(Total(old(recorder.Abs())), Total(middle), Total(recorder.Abs()), warnings,
          [TerminalInputRedacted(|bytes|)]);
      }
    }

    method EmitRedacted(byteLength: nat) returns (error: Option<CaptureError>)
      requires Valid() && !recorder.finished
      modifies recorder, recorder.store, recorder.sequencer
      ensures Valid() && !recorder.finished && recorder.store.objects == old(recorder.store.objects)
      ensures StoredIn(recorder.accesses) == StoredIn(old(recorder.accesses)) && recorder.gapped == old(recorder.gapped)
      ensures error.None? && !recorder.gapped ==>
        Grew(Total(old(recorder.Abs())), Total(recorder.Abs()), [TerminalInputRedacted(byteLength)])
      ensures error.Some? && !old(recorder.broken) ==>
        || byteLength == 0 || old(recorder.sequencer.next) + 1 >= U64_LIMIT
        || true in old(recorder.store.outages) || !InRange(recorder.pending)
    {
      hide Ordered, Accounted, LogValid, Grew, OnlyGrew, StoresFirst, Exact, Ended, Uncompleted, StateValid;
      hide Gapped, InRange, StoredIn, Total, Emittable;
      var payload := TerminalInputRedacted(byteLength);
      if !recorder.gapped { OrderedTracks(recorder.runId, recorder.Abs(), recorder.store.objects, payload); }
      var emitted := recorder.EmitPlain(payload);
      if !recorder.broken {
        OutputGrew(Total(old(recorder.Abs())), Total(recorder.Abs()), if emitted.Success? then [payload] else []);
      }
      return if emitted.Success? then None else Some(emitted.error);
    }

    /** Typed input that is kept: stored first, then named by one event. */
    method RecordRetainedInput(bytes: Text) returns (error: Option<CaptureError>)
      requires Valid() && !recorder.finished
      modifies recorder, recorder.store, recorder.sequencer
      ensures Valid() && !recorder.finished
      ensures error.None? ==> hash(bytes) in StoredIn(recorder.accesses)
      ensures error.None? && !recorder.gapped ==>
        Grew(Total(old(recorder.Abs())), Total(recorder.Abs()), [TerminalInput(hash(bytes), |bytes|)])
      ensures error.Some? && !old(recorder.broken) ==>
        || Refusable(bytes, old(recorder.store.objects), old(recorder.store.outages), old(recorder.sequencer.next))
        || old(recorder.logicalBytes) + (if hash(bytes) in old(recorder.accounted) then 0 else |bytes|)
             > recorder.maxRunBytes
    {
      hide Ordered, Accounted, LogValid, Grew, OnlyGrew, StoresFirst, Exact, Ended, Uncompleted, StateValid;
      hide Gapped, InRange, StoredIn, Total;
      var id := hash(bytes);
      var failure := recorder.PutObject(id, |bytes|);
      if failure.Some? {
        return failure;
      }
      SameTotal(old(recorder.Abs()), recorder.Abs());
      var emitted := recorder.EmitObjectReference(id, |bytes|, TerminalInput(id, |bytes|));
      if !recorder.broken {
        OutputGrew(Total(old(recorder.Abs())), Total(recorder.Abs()),
          if emitted.Success? then [TerminalInput(id, |bytes|)]
          else if emitted.error.RunStorageLimit? then [RecorderWarning(STORAGE_LIMIT)] else []);
      }
      return if emitted.Success? then None else Some(emitted.error);
    }
  }

  lemma {:induction false} SameTotal(a: Session, b: Session)
    requires a.log == b.log && a.pending == b.pending
    ensures Total(a) == Total(b)
  {
  }

  function PayloadBytes(payloads: seq<Payload>): nat {
    if payloads == [] then 0
    else (if payloads[0].TerminalOutput? then payloads[0].byteLength else 0) + PayloadBytes(payloads[1..])
  }

  /** Only output frames add to the terminal output of a timeline. */
  lemma {:induction false} OutputGrew(before: seq<Event>, after: seq<Event>, payloads: seq<Payload>)
    requires Grew(before, after, payloads)
    ensures OutputBytes(after) == OutputBytes(before) + PayloadBytes(payloads)
  {
    var more := after[|before|..];
    assert after == before + more;
    OutputConcat(before, more);
    forall i | 0 <= i < |more| ensures more[i].payload == payloads[i] {
      assert after[|before| + i].payload == payloads[i];
    }
    OutputOf(more, payloads);
  }

  lemma {:induction false} OutputConcat(a: seq<Event>, b: seq<Event>)
    ensures OutputBytes(a + b) == OutputBytes(a) + OutputBytes(b)
  {
    if a == [] {
      assert a + b == b;
    } else {
      assert (a + b)[1..] == a[1..] + b;
      OutputConcat(a[1..], b);
    }
  }

  lemma {:induction false} OutputOf(events: seq<Event>, payloads: seq<Payload>)
    requires |events| == |payloads| && forall i :: 0 <= i < |events| ==> events[i].payload == payloads[i]
    ensures OutputBytes(events) == PayloadBytes(payloads)
  {
    if events != [] { OutputOf(events[1..], payloads[1..]); }
  }
}
