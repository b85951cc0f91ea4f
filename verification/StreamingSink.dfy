/**
 The lock-guarded state of one streaming reply sink.

 Every `lock` block of the sink is one transition function on the value `Sink`; the class below holds
 the same state in mutable fields and performs each block in place. Interleavings of the blocks are the
 business of module `StreamingProtocol`.
 */
module StreamingSink {
  import opened Text

  type Time = int

  /** `DateTimeOffset.MinValue`: the emit time of a sink that has not emitted yet. */
  const MIN_TIME: Time := 0

  /** A one-shot flush timer and the moment it is due. */
  datatype FlushTimer = FlushTimer(id: nat, due: Time)

  datatype Sink = Sink(
    throttle: nat,
    lastEmitted: string,
    lastEmitAt: Time,
    chunksEmitted: nat,
    pending: string,
    hasPending: bool,
    timer: Option<FlushTimer>,
    dispatching: bool,
    disposed: bool,
    drain: Option<nat>)

  /** What a submitting call does after it has left the lock. */
  datatype FlushDecision =
    | Return                    // nothing more to do
    | StartLoop(text: string)   // run the dispatch loop, starting with this text
    | AwaitDrain(signal: nat)   // wait for the running loop to drain

  /** What the dispatch loop does after it has looked for pending text. */
  datatype PollDecision =
    | Exit(signal: Option<nat>)
    | Next(text: string)

  function NewSink(throttle: int): Sink {
    Sink(if throttle < 0 then 0 else throttle, "", MIN_TIME, 0, "", false, None, false, false, None)
  }

  function ClearPending(s: Sink): Sink {
    s.(pending := "", hasPending := false)
  }

  /** The first lock block of a submission. `freshTimer` and `freshSignal` name the objects it may create. */
  function FlushBlock(s: Sink, text: string, isFinal: bool, now: Time, freshTimer: nat, freshSignal: nat)
    : (Sink, FlushDecision)
  {
    if s.disposed then (s, Return)
    else if text == s.lastEmitted then (ClearPending(s), Return)
    else if s.dispatching then
      var stashed := s.(pending := text, hasPending := true);
      if !isFinal then (stashed, Return)
      else
        var signal := if s.drain.Some? then s.drain.value else freshSignal;
        (stashed.(drain := Some(signal)), AwaitDrain(signal))
    else
      var elapsed := now - s.lastEmitAt;
      if isFinal || elapsed >= s.throttle then
        (ClearPending(s).(timer := None, dispatching := true), StartLoop(text))
      else
        var stashed := s.(pending := text, hasPending := true);
        if s.timer.Some? then (stashed, Return)
        else
          var delay := if s.throttle - elapsed < 0 then 0 else s.throttle - elapsed;
          (stashed.(timer := Some(FlushTimer(freshTimer, now + delay))), Return)
  }

  /** The lock block of a timer callback; it disposes whatever timer is armed, even a newer one. */
  function TimerBlock(s: Sink): (Sink, Option<string>) {
    var s := s.(timer := None);
    if s.disposed || !s.hasPending || s.dispatching then (s, None)
    else if s.pending == s.lastEmitted then (ClearPending(s), None)
    else (ClearPending(s).(dispatching := true), Some(s.pending))
  }

  /** The lock block after a dispatch that the actor acknowledged. */
  function RecordBlock(s: Sink, text: string, now: Time): Sink {
    s.(lastEmitted := text, lastEmitAt := now, chunksEmitted := s.chunksEmitted + 1)
  }

  /** The lock block at the end of one turn of the dispatch loop. */
  function PollBlock(s: Sink): (Sink, PollDecision) {
    if s.disposed || !s.hasPending then
      (s.(dispatching := false, drain := None), Exit(s.drain))
    else if s.pending == s.lastEmitted then
      (ClearPending(s).(dispatching := false, drain := None), Exit(s.drain))
    else
      (ClearPending(s), Next(s.pending))
  }

  /** The lock block of a loop that a cancellation threw out of. */
  function AbortBlock(s: Sink): (Sink, Option<nat>) {
    (s.(dispatching := false, drain := None), s.drain)
  }

  function DisposeBlock(s: Sink): (Sink, Option<nat>) {
    if s.disposed then (s, None)
    else (ClearPending(s).(disposed := true, timer := None, drain := None), s.drain)
  }

  /** The sink object. Each method is one critical section of the original, updating the fields in place. */
  class TurnStreamingReplySink {
    const throttle: nat
    var lastEmittedText: string
    var lastEmitAt: Time
    var chunksEmitted: nat
    var pendingText: string
    var hasPending: bool
    var flushTimer: Option<FlushTimer>
    var dispatchInProgress: bool
    var disposed: bool
    var drainSignal: Option<nat>

    function Model(): Sink
      reads this
    {
      Sink(throttle, lastEmittedText, lastEmitAt, chunksEmitted, pendingText, hasPending, flushTimer,
           dispatchInProgress, disposed, drainSignal)
    }

    constructor (throttle: int)
      ensures Model() == NewSink(throttle)
    {
      this.throttle := if throttle < 0 then 0 else throttle;
      lastEmittedText, lastEmitAt, chunksEmitted := "", MIN_TIME, 0;
      pendingText, hasPending, flushTimer := "", false, None;
      dispatchInProgress, disposed, drainSignal := false, false, None;
    }

    method CancelTimerLocked()
      modifies this`flushTimer
      ensures flushTimer == None
    {
      flushTimer := None;
    }

    method Flush(text: string, isFinal: bool, now: Time, freshTimer: nat, freshSignal: nat)
      returns (decision: FlushDecision)
      modifies this
      ensures IsBlank(text) ==> Model() == old(Model()) && decision == Return
      ensures !IsBlank(text) ==>
                (Model(), decision) == FlushBlock(old(Model()), text, isFinal, now, freshTimer, freshSignal)
    {
      decision := Return;
      if IsBlank(text) {
        return;
      }
      if disposed {
        return;
      }
      if text == lastEmittedText {
        pendingText, hasPending := "", false;
        return;
      }
      if dispatchInProgress {
        pendingText, hasPending := text, true;
        if isFinal {
          if drainSignal.None? {
            drainSignal := Some(freshSignal);
          }
          decision := AwaitDrain(drainSignal.value);
        }
      } else {
        var elapsed := now - lastEmitAt;
        if isFinal || elapsed >= throttle {
          CancelTimerLocked();
          pendingText, hasPending := "", false;
          dispatchInProgress := true;
          decision := StartLoop(text);
        } else {
          pendingText, hasPending := text, true;
          if flushTimer.None? {
            var delay := throttle - elapsed;
            if delay < 0 {
              delay := 0;
            }
            flushTimer := Some(FlushTimer(freshTimer, now + delay));
          }
        }
      }
    }

    method OnFlushTimerFired() returns (toDispatch: Option<string>)
      modifies this
      ensures (Model(), toDispatch) == TimerBlock(old(Model()))
    {
      toDispatch := None;
      flushTimer := None;
      if disposed || !hasPending {
        return;
      }
      if dispatchInProgress {
        return;
      }
      if pendingText == lastEmittedText {
        pendingText, hasPending := "", false;
        return;
      }
      dispatchInProgress := true;
      toDispatch := Some(pendingText);
      pendingText, hasPending := "", false;
    }

    method RecordDispatched(text: string, now: Time)
      modifies this
      ensures Model() == RecordBlock(old(Model()), text, now)
    {
      lastEmittedText := text;
      lastEmitAt := now;
      chunksEmitted := chunksEmitted + 1;
    }

    method PollPending() returns (decision: PollDecision)
      modifies this
      ensures (Model(), decision) == PollBlock(old(Model()))
    {
      if disposed || !hasPending {
        dispatchInProgress := false;
        decision := Exit(drainSignal);
        drainSignal := None;
        return;
      }
      if pendingText == lastEmittedText {
        pendingText, hasPending := "", false;
        dispatchInProgress := false;
        decision := Exit(drainSignal);
        drainSignal := None;
        return;
      }
      decision := Next(pendingText);
      pendingText, hasPending := "", false;
    }

    method AbortLoop() returns (signal: Option<nat>)
      modifies this
      ensures (Model(), signal) == AbortBlock(old(Model()))
    {
      dispatchInProgress := false;
      signal := drainSignal;
      drainSignal := None;
    }

    method Dispose() returns (signal: Option<nat>)
      modifies this
      ensures (Model(), signal) == DisposeBlock(old(Model()))
    {
      signal := None;
      if disposed {
        return;
      }
      disposed := true;
      flushTimer := None;
      pendingText, hasPending := "", false;
      signal := drainSignal;
      drainSignal := None;
    }
  }
}
