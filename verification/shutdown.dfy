/** The supervising loop's shutdown: what still keeps it waiting, and for how long at most. */
module Shutdown {
  import opened Wrappers

  /** Monotonic time in nanoseconds. */
  type Instant = nat

  const SECOND := 1_000_000_000
  const SIGNAL_GRACE_PERIOD := 2 * SECOND
  const POST_ROOT_DRAIN_GRACE := 2 * SECOND
  const POST_KILL_DRAIN_GRACE := SECOND
  const SIGWINCH := 28

  /** What reaches the loop; `Record` stands for every observation that is only recorded. */
  datatype Observation =
    | Signal(number: int)
    | OutputEof
    | Record(failing: bool)
    | ProducerFailed

  datatype Wait = StillRunning | Exited | WaitFailed

  /** Which calls into the recorder and the operating system fail during one turn of the loop. */
  datatype Faults = Faults(emit: bool, forward: bool, kill: bool, warn: bool, disconnected: bool)

  /** The look at the workspace within a turn: not due, or done with or without a fatal failure. */
  datatype Look = NotDue | Looked(failing: bool)

  datatype Turn = Turn(observation: Option<Observation>, wait: Wait, faults: Faults, workspace: Look)

  /** Whether handling a signal fails: recording it, forwarding the first one, or killing for a repeated one. */
  predicate SignalFails(interrupted: Option<int>, signal: int, childExit: bool, faults: Faults) {
    if signal == SIGWINCH then !childExit && faults.emit
    else if interrupted.None? then faults.emit || (!childExit && faults.forward)
    else !childExit && faults.kill
  }

  function Max(a: nat, b: nat): nat { if a < b then b else a }

  class Coordinator {
    var outputEof: bool
    var outputAbandoned: bool
    var childExit: bool
    var interruptedSignal: Option<int>
    var terminationDeadline: Option<Instant>
    var postRootDrainDeadline: Option<Instant>
    var postRootKillRequested: bool
    var fatal: bool

    /** The clock. */
    var lastReading: Instant
    /** When the drain was last looked at; before that, when the exit was noticed. */
    ghost var lastPoll: Instant
    /** The longest time by which any reading followed the look at the drain before it. */
    ghost var delay: nat
    ghost var exitAt: Instant
    /** The last signal that was handled after the exit and that asked for a kill. */
    ghost var repeatedSignalAt: Option<Instant>
    ghost var firstSignalAt: Instant
    /** A signal has come while an earlier one was being acted on. */
    ghost var repeated: bool
    /** Forced termination of the child's process group has been attempted. */
    ghost var killAttempted: bool

    /** The condition of the loop. */
    predicate Looping()
      reads this
    {
      !childExit || (!outputEof && !outputAbandoned)
    }

    /** The child is gone but its terminal is still open. */
    predicate Draining()
      reads this
    {
      childExit && !outputEof && !outputAbandoned
    }

    /** The latest moment for which a drain deadline may stand. */
    ghost function Bound(): Instant
      reads this
    {
      var quiet := exitAt + POST_ROOT_DRAIN_GRACE + POST_KILL_DRAIN_GRACE + 2 * delay;
      if repeatedSignalAt.None? then quiet else Max(quiet, repeatedSignalAt.value + POST_KILL_DRAIN_GRACE)
    }

    /** The earliest moment at which the output may be given up. */
    ghost function Floor(): Instant
      reads this
    {
      if repeatedSignalAt.None? then exitAt + POST_ROOT_DRAIN_GRACE + POST_KILL_DRAIN_GRACE
      else repeatedSignalAt.value + POST_KILL_DRAIN_GRACE
    }

    /**
     * While draining there is always a deadline; it lies ahead of the last look and between the two bounds.
     * Nothing is cut short: what is forced has had its time.
     */
    ghost predicate Timed()
      reads this
    {
      && lastPoll <= lastReading <= lastPoll + delay
      && (!childExit ==> !postRootKillRequested && repeatedSignalAt.None? && !outputAbandoned)
      && (childExit ==> exitAt <= lastReading)
      && (repeated ==> interruptedSignal.Some?)
      && (repeatedSignalAt.Some? ==> repeated && postRootKillRequested && repeatedSignalAt.value <= lastReading)
      && (postRootKillRequested ==> killAttempted)
      && (postRootKillRequested && repeatedSignalAt.None? ==> exitAt + POST_ROOT_DRAIN_GRACE <= lastReading)
      && (Draining() ==>
            && postRootDrainDeadline.Some? && lastPoll < postRootDrainDeadline.value
            && if postRootKillRequested then Floor() <= postRootDrainDeadline.value <= Bound()
               else postRootDrainDeadline.value == exitAt + POST_ROOT_DRAIN_GRACE)
      && (!childExit ==> Graced())
    }

    /** A running child faces a deadline only for a signal, and is killed only with a reason. */
    ghost predicate Graced()
      reads this
    {
      && (terminationDeadline.Some? ==>
            interruptedSignal.Some? && terminationDeadline.value == firstSignalAt + SIGNAL_GRACE_PERIOD)
      && (killAttempted ==>
            || fatal || repeated
            || (interruptedSignal.Some? && firstSignalAt + SIGNAL_GRACE_PERIOD <= lastReading))
    }

    /** A child that a signal or a failure has doomed faces a deadline or has already been killed. */
    ghost predicate Valid()
      reads this
    {
      && Timed()
      && (interruptedSignal.Some? && !childExit ==> killAttempted || terminationDeadline.Some?)
      && (fatal && !childExit ==> killAttempted)
    }

    constructor ()
      ensures Valid() && Looping() && !childExit && !fatal && interruptedSignal.None? && repeatedSignalAt.None?
      ensures !outputAbandoned && !killAttempted && !repeated
    {
      outputEof, outputAbandoned, childExit, fatal, postRootKillRequested := false, false, false, false, false;
      interruptedSignal, terminationDeadline, postRootDrainDeadline := None, None, None;
      lastReading, lastPoll, delay, exitAt, repeatedSignalAt, firstSignalAt := 0, 0, 0, 0, None, 0;
      killAttempted, repeated := false, false;
    }

    /** A monotonic clock, otherwise left free. */
    method Now() returns (now: Instant)
      requires lastPoll <= lastReading
      modifies this`lastReading, this`delay
      ensures now == lastReading >= old(lastReading) && delay == Max(old(delay), now - lastPoll)
    {
      var passed: int := *;
      now := if passed < 0 then lastReading else lastReading + passed;
      lastReading := now;
      delay := Max(delay, now - lastPoll);
    }

    /** A reading changes nothing but the clock. */
    method Reading() returns (now: Instant)
      requires Timed()
      modifies this`lastReading, this`delay
      ensures Timed() && now == lastReading >= old(lastReading) && delay == Max(old(delay), now - lastPoll)
      ensures old(Valid()) ==> Valid()
    {
      now := Now();
    }

    /** `delay` has grown only by what the clock shows to have passed since the last look. */
    twostate predicate Measured()
      reads this
    {
      && old(lastReading) <= lastReading && old(lastPoll) <= lastPoll
      && old(delay) <= delay <= Max(old(delay), if lastReading < old(lastPoll) then 0 else lastReading - old(lastPoll))
    }

    /** The first failure is kept; it terminates a child that is still there. */
    method Fail()
      requires Timed() && (fatal && !childExit ==> killAttempted)
      modifies this`fatal, this`killAttempted
      ensures Valid() && fatal && (old(killAttempted) ==> killAttempted)
    {
      if !fatal {
        fatal := true;
        if !childExit {
          killAttempted := true;
        }
      }
    }

    method DurableWarning(failing: bool)
      requires Timed() && childExit
      modifies this`fatal, this`killAttempted
      ensures Valid() && (old(killAttempted) ==> killAttempted)
    {
      if failing {
        Fail();
      }
    }

    method ShortenPostRootDeadline(grace: nat)
      requires Timed() && childExit && POST_ROOT_DRAIN_GRACE <= grace
      modifies this`lastReading, this`delay, this`postRootDrainDeadline
      ensures Timed() && Measured()
      ensures postRootDrainDeadline == Some(
        if old(postRootDrainDeadline).Some? && old(postRootDrainDeadline).value < lastReading + grace
        then old(postRootDrainDeadline).value else lastReading + grace)
    {
      var now := Reading();
      var deadline := now + grace;
      if postRootDrainDeadline.None? || deadline < postRootDrainDeadline.value {
        postRootDrainDeadline := Some(deadline);
      }
    }

    /** A signal is forwarded once; repeated, it forces termination. A failing call makes the run fail. */
    method HandleSignal(signal: int, faults: Faults) returns (failed: bool)
      requires Valid() && !fatal
      modifies this`interruptedSignal, this`lastReading, this`delay, this`postRootDrainDeadline,
        this`terminationDeadline
      modifies this`postRootKillRequested, this`repeatedSignalAt, this`firstSignalAt, this`killAttempted, this`fatal
      modifies this`repeated
      ensures Timed() && (!failed ==> Valid()) && (fatal && !childExit ==> killAttempted)
      ensures Measured()
      ensures repeatedSignalAt != old(repeatedSignalAt) ==>
          childExit && old(interruptedSignal).Some? && signal != SIGWINCH
      ensures repeatedSignalAt != old(repeatedSignalAt) ==>
          repeatedSignalAt.Some? && old(lastReading) <= repeatedSignalAt.value <= lastReading
      ensures signal != SIGWINCH ==> interruptedSignal == if old(interruptedSignal).None? then Some(signal)
          else old(interruptedSignal)
      ensures signal == SIGWINCH ==>
          terminationDeadline == old(terminationDeadline) && postRootDrainDeadline == old(postRootDrainDeadline)
      ensures firstSignalAt != old(firstSignalAt) ==>
          old(interruptedSignal).None? && old(lastReading) <= firstSignalAt <= lastReading
      ensures repeated <==> old(repeated) || (signal != SIGWINCH && old(interruptedSignal).Some?)
      ensures failed <==> SignalFails(old(interruptedSignal), signal, childExit, faults)
      ensures !failed && signal != SIGWINCH && !childExit && old(interruptedSignal).None? ==>
        terminationDeadline == Some(firstSignalAt + SIGNAL_GRACE_PERIOD)
      ensures signal != SIGWINCH && !childExit && old(interruptedSignal).Some? ==> killAttempted
    {
      if signal == SIGWINCH {
        return !childExit && faults.emit;
      }
      var firstSignal := NoteSignal(signal);
      if firstSignal && faults.emit {
        return true;
      }
      if childExit {
        SignalAfterExit(firstSignal, faults);
        return false;
      }
      failed := SignalBeforeExit(firstSignal, faults);
    }

    /** A running child is given the first signal and a deadline; a later signal kills it. */
    method SignalBeforeExit(firstSignal: bool, faults: Faults) returns (failed: bool)
      requires Timed() && !childExit && interruptedSignal.Some? && (fatal ==> killAttempted)
      requires !firstSignal ==> repeated && (killAttempted || terminationDeadline.Some?)
      requires firstSignal ==> terminationDeadline.None? && !killAttempted
      modifies this`lastReading, this`delay, this`terminationDeadline, this`firstSignalAt, this`killAttempted
      ensures Timed() && Measured() && (fatal ==> killAttempted)
      ensures !failed ==> killAttempted || terminationDeadline.Some?
      ensures firstSignalAt != old(firstSignalAt) ==>
          firstSignal && old(lastReading) <= firstSignalAt <= lastReading
      ensures failed <==> if firstSignal then faults.forward else faults.kill
      ensures !failed && firstSignal ==> terminationDeadline == Some(firstSignalAt + SIGNAL_GRACE_PERIOD)
      ensures !firstSignal ==> killAttempted && (!failed ==> terminationDeadline.None?)
    {
      if firstSignal {
        if faults.forward {
          return true;
        }
        var now := Reading();
        firstSignalAt := now;
        terminationDeadline := Some(now + SIGNAL_GRACE_PERIOD);
      } else {
        killAttempted := true;
        if faults.kill {
          return true;
        }
        terminationDeadline := None;
      }
      return false;
    }

    /** The first signal is remembered as what interrupted the run. */
    method NoteSignal(signal: int) returns (first: bool)
      requires Valid() && !fatal
      modifies this`interruptedSignal, this`repeated
      ensures Timed() && first == old(interruptedSignal).None?
      ensures interruptedSignal == if first then Some(signal) else old(interruptedSignal)
      ensures repeated == (old(repeated) || !first)
      ensures first && !childExit ==> terminationDeadline.None? && !killAttempted
    {
      first := interruptedSignal.None?;
      if first {
        interruptedSignal := Some(signal);
      } else {
        repeated := true;
      }
    }

    /** With the root gone, a first signal can only shorten the drain and a later one cuts it to a second. */
    method SignalAfterExit(firstSignal: bool, faults: Faults)
      requires Timed() && childExit && (!firstSignal ==> repeated)
      modifies this`lastReading, this`delay, this`postRootDrainDeadline, this`postRootKillRequested
      modifies this`repeatedSignalAt, this`killAttempted, this`fatal
      ensures Valid() && Measured()
      ensures firstSignal ==> repeatedSignalAt == old(repeatedSignalAt)
      ensures firstSignal && old(postRootDrainDeadline).Some? ==>
        postRootDrainDeadline.Some? && postRootDrainDeadline.value <= old(postRootDrainDeadline).value
      ensures !firstSignal ==> repeatedSignalAt.Some? && old(lastReading) <= repeatedSignalAt.value <= lastReading
      ensures !firstSignal ==> postRootDrainDeadline == Some(repeatedSignalAt.value + POST_KILL_DRAIN_GRACE)
    {
      if firstSignal {
        ShortenPostRootDeadline(SIGNAL_GRACE_PERIOD);
        if faults.forward {
          DurableWarning(faults.warn);
        }
      } else {
        CutDrainShort();
        if faults.kill {
          DurableWarning(faults.warn);
        }
      }
    }

    /** A repeated signal leaves the drain one more second. */
    method CutDrainShort()
      requires Timed() && childExit && repeated
      modifies this`lastReading, this`delay, this`postRootDrainDeadline, this`postRootKillRequested
      modifies this`repeatedSignalAt, this`killAttempted
      ensures Valid() && Measured() && killAttempted
      ensures repeatedSignalAt.Some? && old(lastReading) <= repeatedSignalAt.value <= lastReading
      ensures postRootDrainDeadline == Some(repeatedSignalAt.value + POST_KILL_DRAIN_GRACE)
    {
      var now := Reading();
      postRootKillRequested := true;
      postRootDrainDeadline := Some(now + POST_KILL_DRAIN_GRACE);
      repeatedSignalAt := Some(now);
      killAttempted := true;
    }

    /** After a failure only the end of the output still matters. */
    method Handle(observation: Observation, faults: Faults)
      requires Valid()
      modifies this`outputEof, this`interruptedSignal, this`lastReading, this`delay, this`postRootDrainDeadline
      modifies this`terminationDeadline, this`postRootKillRequested, this`repeatedSignalAt, this`firstSignalAt
      modifies this`killAttempted, this`fatal, this`repeated
      ensures Valid() && Measured()
      ensures outputEof <==> old(outputEof) || observation.OutputEof?
      // What fails is remembered, and after that only the end of the output still counts.
      ensures old(fatal) ==>
        && fatal && interruptedSignal == old(interruptedSignal)
        && terminationDeadline == old(terminationDeadline) && killAttempted == old(killAttempted)
      ensures !old(fatal) ==>
        match observation
        case OutputEof => !fatal
        case Record(failing) => fatal <==> failing
        case ProducerFailed => fatal
        case Signal(number) => SignalFails(old(interruptedSignal), number, childExit, faults) ==> fatal
      ensures firstSignalAt != old(firstSignalAt) ==>
          old(interruptedSignal).None? && old(lastReading) <= firstSignalAt <= lastReading
      ensures repeatedSignalAt != old(repeatedSignalAt) ==> observation.Signal? && childExit
      ensures repeatedSignalAt != old(repeatedSignalAt) ==>
          repeatedSignalAt.Some? && old(lastReading) <= repeatedSignalAt.value <= lastReading
    {
      hide Coordinator.Timed;
      if fatal {
        if observation.OutputEof? {
          EndOutput();
        }
        return;
      }
      var failed := false;
      match observation {
        case OutputEof =>
          EndOutput();
        case Signal(number) =>
          failed := HandleSignal(number, faults);
        case Record(failing) =>
          failed := failing;
        case ProducerFailed =>
          failed := true;
      }
      if failed {
        Fail();
      }
    }

    /** With the output at its end there is nothing to drain. */
    method EndOutput()
      requires Valid()
      modifies this`outputEof, this`postRootDrainDeadline
      ensures Valid() && outputEof
    {
      outputEof := true;
      postRootDrainDeadline := None;
    }

    /** Notices the exit and starts the drain, or kills a child that has ignored a signal for too long. */
    method PollChild(wait: Wait, faults: Faults)
      requires Valid()
      modifies this
      ensures Valid() && outputEof == old(outputEof) && outputAbandoned == old(outputAbandoned)
      ensures childExit <==> old(childExit) || !wait.StillRunning?
      ensures old(childExit) ==> exitAt == old(exitAt) && lastPoll == old(lastPoll)
      ensures !old(childExit) && childExit ==> old(lastReading) <= exitAt <= lastReading
      ensures Measured() && repeatedSignalAt == old(repeatedSignalAt) && firstSignalAt == old(firstSignalAt)
      ensures interruptedSignal == old(interruptedSignal) && repeated == old(repeated)
      ensures killAttempted && !old(killAttempted) ==>
        || wait.WaitFailed?
        || (old(terminationDeadline).Some? && old(terminationDeadline).value <= lastReading)
      ensures !childExit && interruptedSignal.Some? && !killAttempted ==>
        terminationDeadline.Some? && lastReading < terminationDeadline.value
    {
      if childExit {
        return;
      }
      match wait {
        case Exited =>
          terminationDeadline := None;
          StartDrain();
        case StillRunning =>
          if terminationDeadline.Some? {
            EnforceTermination(faults);
          }
        case WaitFailed =>
          Fail();
          StartDrain();
      }
    }

    /** Kills a child whose grace period is over. */
    method EnforceTermination(faults: Faults)
      requires Valid() && !childExit && terminationDeadline.Some?
      modifies this`lastReading, this`delay, this`killAttempted, this`terminationDeadline, this`fatal
      ensures Valid() && Measured()
      ensures killAttempted && !old(killAttempted) ==> old(terminationDeadline).value <= lastReading
      ensures !killAttempted ==> terminationDeadline.Some? && lastReading < terminationDeadline.value
      ensures terminationDeadline == if old(terminationDeadline).value <= lastReading then None
          else old(terminationDeadline)
      ensures fatal <==> old(fatal) || (faults.kill && old(terminationDeadline).value <= lastReading)
    {
      var now := Reading();
      if now >= terminationDeadline.value {
        killAttempted := true;
        if faults.kill {
          Fail();
        }
        terminationDeadline := None;
      }
    }

    /** The exit has been noticed: unless the output has ended too, the drain is given its time. */
    method StartDrain()
      requires Timed() && !childExit
      modifies this`childExit, this`postRootDrainDeadline, this`lastReading, this`lastPoll, this`delay, this`exitAt
      ensures Valid() && childExit && Measured() && old(lastReading) <= exitAt == lastReading
    {
      var now := Now();
      childExit := true;
      exitAt, lastPoll := now, now;
      if !outputEof {
        postRootDrainDeadline := Some(now + POST_ROOT_DRAIN_GRACE);
      }
    }

    /**
     * Past its deadline a drain gets one forced termination and one more second; past that one, the
     * output is given up.
     */
    method PollPostRootDrain(faults: Faults)
      requires Valid()
      modifies this`lastReading, this`lastPoll, this`delay, this`postRootDrainDeadline, this`postRootKillRequested
      modifies this`outputAbandoned, this`killAttempted, this`fatal
      ensures Valid() && Measured()
      ensures old(Draining()) && Draining() ==> lastPoll < Bound()
      // Output is given up only after a forced termination, and past the deadline that followed it.
      ensures outputAbandoned && !old(outputAbandoned) ==>
        && old(postRootKillRequested) && old(Draining())
        && old(postRootDrainDeadline).value <= lastReading && Floor() <= lastReading
      ensures postRootKillRequested && !old(postRootKillRequested) ==>
        old(Draining()) && old(postRootDrainDeadline).value <= lastReading
      ensures !childExit ==> lastReading == old(lastReading) && killAttempted == old(killAttempted)
    {
      if !childExit || outputEof || outputAbandoned || postRootDrainDeadline.None? {
        return;
      }
      var now := Reading();
      if now < postRootDrainDeadline.value {
        lastPoll := now;
        return;
      }
      ExpireDrain(now, faults);
    }

    /** The deadline has passed. */
    method ExpireDrain(now: Instant, faults: Faults)
      requires Valid() && Draining() && now == lastReading && postRootDrainDeadline.value <= now
      modifies this`lastReading, this`lastPoll, this`delay, this`postRootDrainDeadline, this`postRootKillRequested
      modifies this`outputAbandoned, this`killAttempted, this`fatal
      ensures Valid() && Measured() && childExit
      ensures old(postRootKillRequested) ==> outputAbandoned
      ensures !old(postRootKillRequested) ==> postRootKillRequested && Draining() && lastPoll < Bound()
    {
      if postRootKillRequested {
        AbandonDrain(faults);
      } else {
        ExtendDrain(now);
        DurableWarning(faults.warn);
      }
    }

    method AbandonDrain(faults: Faults)
      requires Valid() && Draining() && postRootKillRequested
      modifies this`postRootDrainDeadline, this`outputAbandoned, this`killAttempted, this`fatal
      ensures Valid() && outputAbandoned
    {
      postRootDrainDeadline := None;
      outputAbandoned := true;
      DurableWarning(faults.warn);
    }

    /** The one extension that an expired drain is given. */
    method ExtendDrain(now: Instant)
      requires Valid() && Draining() && !postRootKillRequested
      requires now == lastReading && postRootDrainDeadline.value <= now
      modifies this`lastReading, this`lastPoll, this`delay, this`postRootDrainDeadline, this`postRootKillRequested
      modifies this`killAttempted
      ensures Valid() && Measured() && lastPoll < Bound() && postRootKillRequested && killAttempted
      ensures postRootDrainDeadline == Some(lastReading + POST_KILL_DRAIN_GRACE)
    {
      lastPoll := now;
      var later := Now();
      postRootKillRequested := true;
      postRootDrainDeadline := Some(later + POST_KILL_DRAIN_GRACE);
      killAttempted := true;
    }

    /** Events and checkpoints for a changed workspace, while the child runs and nothing has failed. */
    method PollWorkspace(look: Look)
      requires Valid()
      modifies this`fatal, this`killAttempted
      ensures Valid() && (old(killAttempted) ==> killAttempted)
      ensures fatal <==> old(fatal) || (look == Looked(true) && !childExit)
    {
      if childExit || fatal || look.NotDue? {
        return;
      }
      if look.failing {
        Fail();
      }
    }

    /** What the channel holds, or the news that nobody can send any more. */
    method Observe(turn: Turn)
      requires Valid()
      modifies this`outputEof, this`interruptedSignal, this`lastReading, this`delay, this`postRootDrainDeadline
      modifies this`terminationDeadline, this`postRootKillRequested, this`repeatedSignalAt, this`firstSignalAt
      modifies this`killAttempted, this`fatal, this`repeated
      ensures Valid() && Measured()
      ensures repeatedSignalAt != old(repeatedSignalAt) ==>
          repeatedSignalAt.Some? && old(lastReading) <= repeatedSignalAt.value <= lastReading
      ensures (forall number :: turn.observation != Some(Signal(number))) ==> repeatedSignalAt == old(repeatedSignalAt)
      ensures firstSignalAt != old(firstSignalAt) ==>
          old(interruptedSignal).None? && old(lastReading) <= firstSignalAt <= lastReading
      ensures turn.observation.None? ==> (fatal <==> old(fatal) || (turn.faults.disconnected && !outputEof))
      ensures outputEof <==> old(outputEof) || turn.observation == Some(OutputEof)
      ensures old(fatal) || turn.observation == Some(ProducerFailed) || turn.observation == Some(Record(true)) ==> fatal
    {
      if turn.observation.Some? {
        Handle(turn.observation.value, turn.faults);
      } else if turn.faults.disconnected && !outputEof {
        Fail();
      }
    }

    /** The three looks that end a turn: at the child, at the drain, and at the workspace. */
    method Poll(turn: Turn)
      requires Valid()
      modifies this
      ensures Valid() && Measured()
      ensures repeatedSignalAt == old(repeatedSignalAt) && firstSignalAt == old(firstSignalAt)
      ensures Draining() ==> lastPoll < Bound()
      ensures outputAbandoned && !old(outputAbandoned) ==> Floor() <= lastReading
      ensures old(childExit) ==> childExit && exitAt == old(exitAt)
      ensures !old(childExit) && childExit ==> old(lastReading) <= exitAt <= lastReading
      ensures !childExit && interruptedSignal.Some? && !killAttempted ==>
          lastReading < firstSignalAt + SIGNAL_GRACE_PERIOD
    {
      PollChild(turn.wait, turn.faults);
      PollPostRootDrain(turn.faults);
      PollWorkspace(turn.workspace);
    }

    /** One turn of the loop. */
    method TakeTurn(turn: Turn)
      requires Valid() && (!childExit || (!outputEof && !outputAbandoned))
      modifies this
      ensures Valid() && Measured()
      ensures Draining() ==> lastPoll < Bound()
      ensures outputAbandoned ==> Floor() <= lastReading
      ensures old(childExit) ==> childExit && exitAt == old(exitAt)
      ensures !old(childExit) && childExit ==> old(lastReading) <= exitAt <= lastReading
      ensures repeatedSignalAt != old(repeatedSignalAt) ==>
          repeatedSignalAt.Some? && old(lastReading) <= repeatedSignalAt.value <= lastReading
      ensures (forall number :: turn.observation != Some(Signal(number))) ==> repeatedSignalAt == old(repeatedSignalAt)
      // A child that ignores a signal is killed once the grace period has passed.
      ensures !childExit && interruptedSignal.Some? && !killAttempted ==>
          lastReading < firstSignalAt + SIGNAL_GRACE_PERIOD
      ensures firstSignalAt != old(firstSignalAt) ==>
          old(interruptedSignal).None? && old(lastReading) <= firstSignalAt <= lastReading
    {
      Observe(turn);
      Poll(turn);
    }

    /**
     * The loop over any sequence of turns. While it is still waiting for output of a child that is gone,
     * the last look at the drain came before the bound: two seconds and one more after the exit, plus
     * polling delay, unless a repeated signal was handled, and then at most a second after that signal.
     * Nor does it give up early: output is abandoned no sooner than three seconds after the exit, or one
     * second after a repeated signal, and a running child is killed only for a failure, for a repeated
     * signal, or when its grace period is over.
     */
    method Supervise(turns: seq<Turn>) returns (taken: nat)
      requires Valid()
      modifies this
      ensures Valid() && taken <= |turns|
      ensures taken < |turns| ==> childExit && (outputEof || outputAbandoned)
      ensures old(childExit) && (old(outputEof) || old(outputAbandoned)) ==> taken == 0
      ensures Draining() ==> lastPoll < Bound()
      ensures Quiet(turns) && old(repeatedSignalAt).None? && Draining() ==>
        lastPoll < exitAt + POST_ROOT_DRAIN_GRACE + POST_KILL_DRAIN_GRACE + 2 * delay
      ensures fatal && !childExit ==> killAttempted
      ensures outputAbandoned && !old(outputAbandoned) ==> Floor() <= lastReading
      ensures Quiet(turns) && old(repeatedSignalAt).None? && outputAbandoned && !old(outputAbandoned) ==>
        exitAt + POST_ROOT_DRAIN_GRACE + POST_KILL_DRAIN_GRACE <= lastReading
      ensures killAttempted && !childExit && !fatal && !repeated ==>
        interruptedSignal.Some? && firstSignalAt + SIGNAL_GRACE_PERIOD <= lastReading
    {
      taken := 0;
      while taken < |turns| && Looping()
        invariant taken <= |turns| && Valid()
        invariant if taken == 0 then Looping() == old(Looping()) else old(Looping())
        invariant outputAbandoned && !old(outputAbandoned) ==> Floor() <= lastReading && !Looping()
        invariant Quiet(turns) ==> repeatedSignalAt == old(repeatedSignalAt)
      {
        TakeTurn(turns[taken]);
        taken := taken + 1;
      }
    }
  }

  /** No signal arrives. */
  ghost predicate Quiet(turns: seq<Turn>) {
    forall i, number :: 0 <= i < |turns| ==> turns[i].observation != Some(Signal(number))
  }
}
